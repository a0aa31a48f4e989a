/**
  What reading back a printed configuration gives: the main round-trip law of the codec, and for a
  single setting the exact condition under which its value survives.
*/
module IniRoundTrip {
  import opened Text
  import opened IniCodec

  // A key the scanner reads whole
  predicate KeyOk(k: string) { k != "" && forall i :: 0 <= i < |k| ==> IsWordChar(k[i]) }

  // No character of v ends its own token early
  predicate Safe(v: Value) {
    match v
    case StrV(s) => if Parenthesised(s) then NoInnerParen(s) else '"' !in s
    case OtherV(t) => '"' !in t
    case _ => true
  }

  predicate NoInnerParen(s: string) { forall i :: 0 <= i < |s| - 1 ==> s[i] != ')' }

  // The float the six printed decimals denote
  function RoundSix(x: real): real {
    var r := Micros(x) as real / 1000000.0;
    if x < 0.0 then -r else r
  }

  // What a value comes back as: a float with six decimals, None and the like as a string
  function Norm(v: Value): Value {
    match v case FloatV(x) => FloatV(RoundSix(x)) case OtherV(t) => StrV(t) case _ => v
  }

  function NormAll(d: Settings): Settings {
    seq(|d|, i requires 0 <= i < |d| => Entry(d[i].key, Norm(d[i].value)))
  }

  // A value that is printed without loss
  predicate Exact(v: Value) { Safe(v) && Norm(v) == v }

  predicate SafeSettings(d: Settings) {
    DistinctKeys(d) && forall i :: 0 <= i < |d| ==> KeyOk(d[i].key) && Safe(d[i].value)
  }

  // ---------- Numerals ----------

  lemma {:induction false} DigitsOfDigits(s: string)
    requires AllDigits(s)
    ensures Digits(s) == s
  {
    if s != "" { DigitsOfDigits(s[1..]); }
  }

  lemma IndexOfIs(s: string, c: char, i: nat, r: nat)
    requires i <= r <= |s|
    requires forall j :: i <= j < r ==> s[j] != c
    requires r < |s| ==> s[r] == c
    ensures IndexOf(s, c, i) == r
  {
  }

  predicate BareChar(c: char) { IsWordChar(c) || c == '-' || c == '.' }

  predicate BareChars(t: string) { forall i :: 0 <= i < |t| ==> BareChar(t[i]) }

  lemma SignedDigits(n: int)
    ensures Coerce(IntToString(n)) == IntV(n)
    ensures BareChars(IntToString(n))
  {
    var t := NatToString(if n < 0 then -n else n);
    var s := IntToString(n);
    assert s == if n < 0 then "-" + t else t;
    assert IsDigit(t[0]);
    assert Unsigned(s) == t && Negative(s) == (n < 0);
    NoPoint(s, t);
    ParseIntOf(n);
  }

  lemma NoPoint(s: string, t: string)
    requires AllDigits(t) && t != "" && (s == t || s == "-" + t)
    ensures '.' !in s && s != "True" && s != "False" && BareChars(s)
  {
    assert forall i :: 0 <= i < |s| ==> s[i] == '-' || IsDigit(s[i]);
    assert s[0] != 'T' && s[0] != 'F';
  }

  lemma ParseIntOf(n: int)
    ensures ParseInt(IntToString(n)) == Some(n)
  {
    hide NatToString, DigitsValue, Digits;
    var m := if n < 0 then -n else n;
    var t := NatToString(m);
    NatToStringValue(m);
    DigitsOfDigits(t);
    assert DigitPart(t);
    var s := IntToString(n);
    assert IsDigit(t[0]);
    assert n < 0 ==> s[1..] == t;
    assert Unsigned(s) == t;
  }

  lemma MantissaOf(a: string, b: string)
    requires a != "" && b != "" && AllDigits(a) && AllDigits(b) && AllDigits(a + b)
    ensures ParseMantissa(a + "." + b) == Some(DigitsValue(a + b) as real / Pow10(|b|) as real)
  {
    var m := a + "." + b;
    IndexOfIs(m, '.', 0, |a|);
    assert m[..|a|] == a && m[|a| + 1..] == b;
    DigitsOfDigits(a);
    DigitsOfDigits(b);
    assert DigitPart(a) && DigitPart(b);
  }

  lemma MantissaValue(whole: nat, part: nat)
    requires part < 1000000
    ensures ParseMantissa(NatToString(whole) + "." + PadDigits(part, 6))
         == Some((whole * 1000000 + part) as real / 1000000.0)
  {
    hide NatToString, PadDigits, DigitsValue, ParseMantissa;
    var a, b := NatToString(whole), PadDigits(part, 6);
    SixDecimals();
    NatToStringValue(whole);
    PadDigitsValue(part, 6);
    DigitsValueConcat(a, b);
    MantissaOf(a, b);
    assert DigitsValue(a + b) == whole * 1000000 + part;
    assert Pow10(|b|) as real == 1000000.0;
  }

  lemma SixDecimals()
    ensures Pow10(6) == 1000000
  {
    assert Pow10(1) == 10 * Pow10(0);
    assert Pow10(2) == 10 * Pow10(1);
    assert Pow10(3) == 10 * Pow10(2);
    assert Pow10(4) == 10 * Pow10(3);
    assert Pow10(5) == 10 * Pow10(4);
  }

  // The unsigned numeral of six decimals, read as a float
  lemma UnsignedFloat(u: string, x: real)
    requires ParseMantissa(u) == Some(x)
    requires u != "" && forall i :: 0 <= i < |u| ==> IsDigit(u[i]) || u[i] == '.'
    ensures ParseFloat(u) == Some(x) && ParseFloat("-" + u) == Some(-x)
  {
    hide ParseMantissa, ParseInt, ScaleByExponent;
    assert Unsigned(u) == u && Unsigned("-" + u) == u;
    IndexOfIs(u, 'e', 0, |u|);
    IndexOfIs(u, 'E', 0, |u|);
    assert u[..|u|] == u;
  }

  lemma FloatRoundTrip(x: real)
    ensures Coerce(FormatFloat(x)) == FloatV(RoundSix(x))
    ensures BareChars(FormatFloat(x))
  {
    hide NatToString, PadDigits, ParseMantissa, ParseFloat, ParseInt;
    var m := Micros(x);
    var a, b := NatToString(m / 1000000), PadDigits(m % 1000000, 6);
    var u := a + "." + b;
    MantissaValue(m / 1000000, m % 1000000);
    assert m / 1000000 * 1000000 + m % 1000000 == m;
    UnsignedFloat(u, m as real / 1000000.0);
    var s := FormatFloat(x);
    assert s == if x < 0.0 then "-" + u else u by {
      assert "" + a + "." + b == u;
      assert "-" + a + "." + b == "-" + u;
    }
    PointIn(s, u, |a|);
  }

  lemma PointIn(s: string, u: string, i: nat)
    requires i < |u| && u[i] == '.' && IsDigit(u[0])
    requires forall j :: 0 <= j < |u| ==> IsDigit(u[j]) || u[j] == '.'
    requires s == u || s == "-" + u
    ensures '.' in s && s != "True" && s != "False" && BareChars(s)
  {
    assert s[if s == u then i else i + 1] == '.';
  }

  lemma RoundIsExact(m: nat)
    ensures RoundHalfEven(m as real) == m
  {
  }

  // Printing what was read back prints the same six decimals
  lemma NormIdempotent(v: Value)
    ensures Norm(Norm(v)) == Norm(v)
    ensures Safe(v) ==> Exact(Norm(v))
  {
    if v.FloatV? {
      var m := Micros(v.x);
      var y := RoundSix(v.x);
      assert Abs(y) * 1000000.0 == m as real;
      RoundIsExact(m);
    }
  }

  // ---------- One token ----------

  lemma StripNothing(s: string)
    requires s == "" || (!IsSpace(s[0]) && !IsSpace(s[|s| - 1]))
    ensures Strip(s) == s
  {
  }

  predicate Bare(v: Value) { !v.StrV? && !v.OtherV? }

  lemma BareText(v: Value)
    requires Bare(v)
    ensures ValueText(v) != "" && Coerce(ValueText(v)) == Norm(v)
    ensures BareChars(ValueText(v))
  {
    match v
    case BoolV(b) =>
    case IntV(n) => SignedDigits(n);
    case FloatV(x) => FloatRoundTrip(x);
  }

  // The piece a of s at p, and what follows it
  lemma Piece(s: string, p: nat, a: string, b: string)
    requires p <= |s| && s[p..] == a + b
    ensures p + |a| <= |s| && s[p..p + |a|] == a && s[p + |a|..] == b
    ensures forall i :: 0 <= i < |a| ==> s[p + i] == a[i]
    ensures forall i {:trigger s[i]} :: p <= i < p + |a| ==> s[i] == a[i - p]
    ensures p + |a| < |s| ==> b != "" && s[p + |a|] == b[0]
  {
    assert |s| == p + |a + b|;
    forall i | p <= i < p + |a| ensures s[i] == a[i - p] {
      assert s[i] == s[p..][i - p];
    }
    assert s[p..p + |a|] == (a + b)[..|a|];
    assert s[p + |a|..] == s[p..][|a|..] == (a + b)[|a|..] == b;
  }

  predicate EndsHere(rest: string) { rest == "" || rest[0] == ',' }

  lemma ValueRead(s: string, p: nat, v: Value, rest: string)
    requires p <= |s| && s[p..] == ValueText(v) + rest
    requires Safe(v) && EndsHere(rest)
    ensures ValueAt(s, p) == Some(Token(Norm(v), p + |ValueText(v)|))
  {
    var t := ValueText(v);
    Piece(s, p, t, rest);
    if v.StrV? {
      if Parenthesised(v.s) {
        ParenRead(s, p, t);
      } else {
        assert t == "\"" + v.s + "\"";
        QuoteRead(s, p, v.s);
      }
    } else if v.OtherV? {
      QuoteRead(s, p, v.shown);
    } else {
      BareText(v);
      BareRead(s, p, t);
    }
  }

  lemma QuoteRead(s: string, p: nat, inner: string)
    requires p + |inner| + 2 <= |s| && s[p..p + |inner| + 2] == "\"" + inner + "\""
    requires '"' !in inner
    ensures ValueAt(s, p) == Some(Token(StrV(inner), p + |inner| + 2))
  {
    var t := "\"" + inner + "\"";
    var q := p + |inner| + 1;
    assert forall i {:trigger s[i]} :: p <= i <= q ==> s[i] == s[p..q + 1][i - p];
    assert forall i :: p < i < q ==> s[i] == inner[i - p - 1];
    IndexOfIs(s, '"', p + 1, q);
    assert s[p + 1..q] == t[1..|inner| + 1] == inner;
  }

  lemma ParenRead(s: string, p: nat, t: string)
    requires p + |t| <= |s| && s[p..p + |t|] == t && Parenthesised(t)
    requires forall i :: 0 <= i < |t| - 1 ==> t[i] != ')'
    ensures ValueAt(s, p) == Some(Token(StrV(t), p + |t|))
  {
    assert forall i {:trigger s[i]} :: p <= i < p + |t| ==> s[i] == s[p..p + |t|][i - p];
    IndexOfIs(s, ')', p + 1, p + |t| - 1);
  }

  lemma BareRead(s: string, p: nat, t: string)
    requires t != "" && p + |t| <= |s| && s[p..p + |t|] == t
    requires p + |t| < |s| ==> s[p + |t|] == ','
    requires BareChars(t)
    ensures ValueAt(s, p) == Some(Token(Coerce(t), p + |t|))
  {
    hide Coerce, Strip, IndexOf;
    BareEnd(s, p, t);
    BareStrip(t);
    assert s[p] == s[p..p + |t|][0] == t[0];
    assert BareChar(t[0]);
  }

  // A bare token reaches to the comma or the end
  lemma BareEnd(s: string, p: nat, t: string)
    requires p + |t| <= |s| && s[p..p + |t|] == t && BareChars(t)
    requires p + |t| < |s| ==> s[p + |t|] == ','
    ensures IndexOf(s, ',', p) == p + |t|
  {
    forall i | p <= i < p + |t| ensures s[i] != ',' {
      assert s[i] == s[p..p + |t|][i - p] && BareChar(t[i - p]);
    }
    IndexOfIs(s, ',', p, p + |t|);
  }

  lemma BareStrip(t: string)
    requires BareChars(t)
    ensures Strip(t) == t
  {
    if t != "" { assert BareChar(t[0]) && BareChar(t[|t| - 1]); }
    StripNothing(t);
  }

  lemma WordEndIs(s: string, i: nat, e: nat)
    requires i <= e < |s|
    requires forall j :: i <= j < e ==> IsWordChar(s[j])
    requires !IsWordChar(s[e])
    ensures WordEnd(s, i) == e
  {
  }

  lemma PairRead(s: string, p: nat, e: Entry, rest: string)
    requires p <= |s| && s[p..] == PairText(e) + rest
    requires KeyOk(e.key) && Safe(e.value) && EndsHere(rest)
    ensures p < |s|
    ensures MatchAt(s, p) == Some(Match(e.key, Norm(e.value), p + |PairText(e)|))
  {
    hide ValueAt, ValueText, Norm, Safe;
    var k, t := e.key, ValueText(e.value);
    assert PairText(e) + rest == k + "=" + (t + rest);
    KeyRead(s, p, k, t + rest);
    ValueRead(s, p + |k| + 1, e.value, rest);
  }

  lemma KeyRead(s: string, p: nat, k: string, rest: string)
    requires p <= |s| && KeyOk(k) && s[p..] == k + "=" + rest
    ensures p + |k| < |s| && WordEnd(s, p) == p + |k| && s[p + |k|] == '='
    ensures s[p..p + |k|] == k && s[p + |k| + 1..] == rest
  {
    Piece(s, p, k + "=", rest);
    assert forall i {:trigger s[i]} :: p <= i < p + |k| ==> s[i] == k[i - p];
    WordEndIs(s, p, p + |k|);
    assert s[p..p + |k|] == s[p..p + |k + "="|][..|k|];
  }

  // ---------- A whole dictionary ----------

  lemma {:induction false} PutNew(d: Settings, k: string, v: Value)
    requires !HasKey(d, k)
    ensures Put(d, k, v) == d + [Entry(k, v)]
  {
    if d != [] {
      assert d[0].key != k;
      assert forall i :: 0 <= i < |d[1..]| ==> d[1..][i] == d[i + 1];
      PutNew(d[1..], k, v);
    }
  }

  lemma JoinStep(d: Settings)
    requires d != []
    ensures Join(PairTexts(d)) == PairText(d[0]) + if |d| == 1 then "" else "," + Join(PairTexts(d[1..]))
  {
    assert PairTexts(d)[1..] == PairTexts(d[1..]);
    if |d| > 1 {
      assert PairText(d[0]) + "," + Join(PairTexts(d[1..])) == PairText(d[0]) + ("," + Join(PairTexts(d[1..])));
    }
  }

  lemma SkipComma(s: string, p: nat, tokens: Settings)
    requires p < |s| && s[p] == ','
    ensures ScanFrom(s, p, tokens) == ScanFrom(s, p + 1, tokens)
  {
    assert MatchAt(s, p).None?;
    assert FindFrom(s, p) == FindFrom(s, p + 1);
  }

  // The first pair is stored, and the scan goes on right behind it
  lemma ScanFirst(s: string, p: nat, e: Entry, rest: string, tokens: Settings)
    requires p <= |s| && s[p..] == PairText(e) + rest
    requires KeyOk(e.key) && Safe(e.value) && EndsHere(rest) && !HasKey(tokens, e.key)
    ensures var next := p + |PairText(e)|;
      && next <= |s| && s[next..] == rest
      && ScanFrom(s, p, tokens) == ScanFrom(s, next, tokens + [Entry(e.key, Norm(e.value))])
  {
    hide ValueAt, ValueText, Norm, MatchAt, Safe, PairText;
    PairRead(s, p, e, rest);
    Piece(s, p, PairText(e), rest);
    PutNew(tokens, e.key, Norm(e.value));
    assert FindFrom(s, p) == MatchAt(s, p);
  }

  // Behind the first pair and its comma stand the other pairs
  lemma NextPair(s: string, next: nat, d: Settings, tokens: Settings) returns (p: nat)
    requires d != [] && next <= |s| && s[next..] == if |d| == 1 then "" else "," + Join(PairTexts(d[1..]))
    ensures p <= |s| && s[p..] == Join(PairTexts(d[1..])) && ScanFrom(s, next, tokens) == ScanFrom(s, p, tokens)
  {
    hide ScanFrom;
    if |d| == 1 {
      p := next;
      assert d[1..] == [];
    } else {
      p := next + 1;
      assert s[next] == s[next..][0] == ',';
      SkipComma(s, next, tokens);
      assert s[p..] == s[next..][1..];
    }
  }

  lemma {:induction false} ScanPairs(s: string, p: nat, d: Settings, tokens: Settings)
    requires p <= |s| && s[p..] == Join(PairTexts(d))
    requires SafeSettings(d)
    requires forall i :: 0 <= i < |d| ==> !HasKey(tokens, d[i].key)
    ensures ScanFrom(s, p, tokens) == tokens + NormAll(d)
    decreases |d|
  {
    hide PairText, ScanFrom, Norm, NormAll, Join, PairTexts, SafeSettings, HasKey, KeyOk, Safe;
    Suffix(d, tokens);
    if d == [] {
      assert s[p..] == "" && p == |s|;
      EmptyScan(s, tokens);
    } else {
      JoinStep(d);
      var rest := if |d| == 1 then "" else "," + Join(PairTexts(d[1..]));
      ScanFirst(s, p, d[0], rest, tokens);
      var stored := tokens + [Entry(d[0].key, Norm(d[0].value))];
      var q := NextPair(s, p + |PairText(d[0])|, d, stored);
      ScanPairs(s, q, d[1..], stored);
      Reassociated(tokens, Entry(d[0].key, Norm(d[0].value)), NormAll(d[1..]));
    }
  }

  lemma Reassociated(a: Settings, x: Entry, b: Settings)
    ensures a + [x] + b == a + ([x] + b)
  {
  }

  // What the head and the tail of a dictionary inherit
  lemma Suffix(d: Settings, tokens: Settings)
    requires SafeSettings(d)
    requires forall i :: 0 <= i < |d| ==> !HasKey(tokens, d[i].key)
    ensures d == [] ==> Join(PairTexts(d)) == "" && NormAll(d) == []
    ensures d != [] ==>
      && KeyOk(d[0].key) && Safe(d[0].value) && SafeSettings(d[1..])
      && NormAll(d) == [Entry(d[0].key, Norm(d[0].value))] + NormAll(d[1..])
      && forall i, v :: 0 <= i < |d[1..]| ==> !HasKey(tokens + [Entry(d[0].key, v)], d[1..][i].key)
  {
  }

  lemma EmptyScan(s: string, tokens: Settings)
    ensures ScanFrom(s, |s|, tokens) == tokens
  {
  }

  lemma {:induction false} FindIs(s: string, pat: string, i: nat, p: nat)
    requires i <= p && OccursAt(s, pat, p) && pat != ""
    requires forall j :: i <= j < p ==> s[j] != pat[0]
    ensures Find(s, pat, i) == Some(p)
    decreases p - i
  {
    if i < p {
      assert s[i..i + |pat|][0] == s[i];
      FindIs(s, pat, i + 1, p);
    }
  }

  lemma HeaderHasNoO()
    ensures forall j :: 0 <= j < |HEADER| ==> HEADER[j] != 'O'
  {
  }

  lemma LastParen(text: string, q: nat)
    requires |text| == q + 2 && text[q] == ')' && text[q + 1] == '\n'
    ensures LastIndexOf(text, ')', |text|) == Some(q)
  {
    assert LastIndexOf(text, ')', |text|) == LastIndexOf(text, ')', q + 1);
  }

  lemma MarkFound(text: string, rest: string)
    requires text == HEADER + (MARK + rest)
    ensures Find(text, MARK, 0) == Some(|HEADER|) && text[|HEADER| + |MARK|..] == rest
  {
    var p := |HEADER|;
    HeaderHasNoO();
    assert forall j :: 0 <= j < p ==> text[j] == HEADER[j];
    assert text[p..p + |MARK|] == MARK;
    FindIs(text, MARK, 0, p);
  }

  function Framed(inner: string): string { HEADER + MARK + inner + TAIL }

  // The frame around a group is found whatever the group is
  lemma PayloadOfFrame(inner: string)
    ensures Payload(Framed(inner)) == Some(inner)
  {
    hide Find, LastIndexOf;
    var text := Framed(inner);
    assert text == HEADER + (MARK + (inner + TAIL));
    MarkFound(text, inner + TAIL);
    var (start, q) := (|HEADER| + |MARK|, |text| - 2);
    assert |text| == start + |inner| + 2;
    assert text[q..] == text[start..][|inner|..] == TAIL;
    assert text[q] == text[q..][0] && text[q + 1] == text[q..][1];
    LastParen(text, q);
    assert text[start..q] == text[start..][..|inner|] == inner;
  }

  lemma PayloadOfRender(d: Settings)
    ensures Payload(Render(d)) == Some(Join(PairTexts(d)))
  {
    hide Payload, Join, PairTexts;
    PayloadOfFrame(Join(PairTexts(d)));
  }

  lemma ValueTextEnd(v: Value)
    ensures var t := ValueText(v); t != "" && !IsSpace(t[|t| - 1])
  {
    if Bare(v) {
      BareText(v);
      var t := ValueText(v);
      assert BareChar(t[|t| - 1]);
    }
  }

  lemma {:induction false} JoinEnds(d: Settings)
    requires d != [] && forall i :: 0 <= i < |d| ==> KeyOk(d[i].key)
    ensures var t := Join(PairTexts(d)); t != "" && !IsSpace(t[0]) && !IsSpace(t[|t| - 1])
  {
    JoinStep(d);
    ValueTextEnd(d[0].value);
    if |d| > 1 { JoinEnds(d[1..]); }
  }

  lemma ParseOfRender(d: Settings)
    requires forall i :: 0 <= i < |d| ==> KeyOk(d[i].key)
    ensures Parse(Render(d)) == ScanFrom(Join(PairTexts(d)), 0, [])
  {
    PayloadOfRender(d);
    if d != [] { JoinEnds(d); }
    StripNothing(Join(PairTexts(d)));
  }

  // Reading back a printed dictionary gives its keys, order, types and values, each float rounded
  // to six decimals.
  lemma RoundTrip(d: Settings)
    requires SafeSettings(d)
    ensures Parse(Render(d)) == NormAll(d)
  {
    ParseOfRender(d);
    ScanPairs(Join(PairTexts(d)), 0, d, []);
  }

  lemma ExactRoundTrip(d: Settings)
    requires SafeSettings(d) && forall i :: 0 <= i < |d| ==> Exact(d[i].value)
    ensures Parse(Render(d)) == d
  {
    RoundTrip(d);
    assert NormAll(d) == d;
  }

  // ---------- The exact condition ----------

  predicate ShorterThan(d: Settings, n: nat) {
    forall i :: 0 <= i < |d| ==> d[i].value.StrV? ==> |d[i].value.s| < n
  }

  lemma {:induction false} PutShorter(d: Settings, k: string, v: Value, n: nat)
    requires ShorterThan(d, n) && (v.StrV? ==> |v.s| < n)
    ensures ShorterThan(Put(d, k, v), n)
  {
    if d != [] && d[0].key != k { PutShorter(d[1..], k, v, n); }
  }

  // A scan that starts within n characters of the end stores no string of n characters
  lemma {:induction false} ScanShorter(s: string, p: nat, tokens: Settings, n: nat)
    requires p <= |s| <= p + n && ShorterThan(tokens, n)
    ensures ShorterThan(ScanFrom(s, p, tokens), n)
    decreases |s| - p
  {
    match FindFrom(s, p)
    case None =>
    case Some(m) =>
      PutShorter(tokens, m.key, m.value, n);
      ScanShorter(s, m.end, Put(tokens, m.key, m.value), n);
  }

  // An unsafe string is cut at its first quote, or at its first closing parenthesis
  lemma UnsafeCut(s: string, p: nat, v: Value)
    requires p <= |s| && s[p..] == ValueText(v) && v.StrV? && !Safe(v)
    ensures var r := ValueAt(s, p);
      r.Some? && r.value.value.StrV? && |r.value.value.s| < |v.s| && |s| - r.value.end <= |v.s|
  {
    var t := ValueText(v);
    Piece(s, p, t, "");
    if Parenthesised(v.s) {
      var i :| 0 <= i < |v.s| - 1 && v.s[i] == ')';
      assert s[p + i] == ')' && i > 0;
      var paren := IndexOf(s, ')', p + 1);
      assert paren <= p + i;
    } else {
      var i :| 0 <= i < |v.s| && v.s[i] == '"';
      assert t[0] == '"' && t[i + 1] == v.s[i];
      assert s[p] == '"' && s[p + i + 1] == '"';
      var quote := IndexOf(s, '"', p + 1);
      assert quote <= p + i + 1;
    }
  }

  predicate NoOther(d: Settings) { forall i :: 0 <= i < |d| ==> !d[i].value.OtherV? }

  lemma {:induction false} PutNoOther(d: Settings, k: string, v: Value)
    requires NoOther(d) && !v.OtherV?
    ensures NoOther(Put(d, k, v))
  {
    if d != [] && d[0].key != k { PutNoOther(d[1..], k, v); }
  }

  // A scan yields booleans, numbers and strings only
  lemma {:induction false} ScanNoOther(s: string, p: nat, tokens: Settings)
    requires p <= |s| && NoOther(tokens)
    ensures NoOther(ScanFrom(s, p, tokens))
    decreases |s| - p
  {
    match FindFrom(s, p)
    case None =>
    case Some(m) =>
      PutNoOther(tokens, m.key, m.value);
      ScanNoOther(s, m.end, Put(tokens, m.key, m.value));
  }

  lemma ParseNoOther(content: string)
    ensures NoOther(Parse(content))
  {
    match Payload(content)
    case None =>
    case Some(group) => ScanNoOther(Strip(group), 0, []);
  }

  lemma UnsafeIsLost(k: string, v: Value)
    requires KeyOk(k) && !Safe(v)
    ensures Parse(Render([Entry(k, v)])) != [Entry(k, v)]
  {
    if v.OtherV? {
      ParseNoOther(Render([Entry(k, v)]));
    } else {
      UnsafeStringIsLost(k, v);
    }
  }

  lemma UnsafeStringIsLost(k: string, v: Value)
    requires KeyOk(k) && v.StrV? && !Safe(v)
    ensures Parse(Render([Entry(k, v)])) != [Entry(k, v)]
  {
    hide ValueAt, ValueText, Parse, Render;
    var d := [Entry(k, v)];
    ParseOfRender(d);
    JoinStep(d);
    var s := Join(PairTexts(d));
    assert s == k + "=" + ValueText(v);
    assert s[0..] == s;
    KeyRead(s, 0, k, ValueText(v));
    UnsafeCut(s, |k| + 1, v);
    var r := ValueAt(s, |k| + 1).value;
    assert k != "" && s[0..|k|] == k;
    assert MatchAt(s, 0) == Some(Match(k, r.value, r.end));
    var m := Match(k, r.value, r.end);
    assert FindFrom(s, 0) == Some(m);
    assert ShorterThan(Put([], m.key, m.value), |v.s|);
    ScanShorter(s, m.end, Put([], m.key, m.value), |v.s|);
  }

  // A setting survives printing and reading exactly when its value is exact: no character of a
  // string closes its own token, and a float has at most six decimals. An exact value survives in
  // every dictionary whose other values are exact too (ExactRoundTrip).
  lemma SurvivesIffExact(k: string, v: Value)
    requires KeyOk(k)
    ensures Parse(Render([Entry(k, v)])) == [Entry(k, v)] <==> Exact(v)
  {
    var d := [Entry(k, v)];
    if Safe(v) {
      RoundTrip(d);
      assert NormAll(d) == [Entry(k, Norm(v))];
    } else {
      UnsafeIsLost(k, v);
    }
  }

  // What one more save and read does: nothing
  lemma SecondRoundTrip(d: Settings)
    requires SafeSettings(d)
    ensures SafeSettings(NormAll(d)) && Parse(Render(NormAll(d))) == NormAll(d)
  {
    forall i | 0 <= i < |d| ensures Exact(NormAll(d)[i].value) {
      NormIdempotent(d[i].value);
    }
    ExactRoundTrip(NormAll(d));
  }
}
