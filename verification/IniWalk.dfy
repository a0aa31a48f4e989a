/**
  The scanner on any printed settings, strings that close their own token included: as long as no
  token of a pair is left open, every pair is scanned as if it stood alone, and a dictionary reads
  back as what its pairs store one after the other.
*/
module IniWalk {
  import opened Text
  import opened IniCodec
  import opened IniRoundTrip

  // The position of the leftmost match at or after i, or |s|
  function Begin(s: string, i: nat): (b: nat)
    requires i <= |s|
    ensures i <= b <= |s| && (b < |s| ==> MatchAt(s, b).Some?)
    ensures FindFrom(s, i) == if b == |s| then None else MatchAt(s, b)
    decreases |s| - i
  {
    if i == |s| || MatchAt(s, i).Some? then i else Begin(s, i + 1)
  }

  // A value that starts with a quote or a parenthesis which nothing in s closes
  predicate OpenAt(s: string, p: nat)
    requires p <= |s|
  {
    p < |s| && ((s[p] == '"' && IndexOf(s, '"', p + 1) == |s|) || (s[p] == '(' && IndexOf(s, ')', p + 1) == |s|))
  }

  // The match at b leaves its token open
  predicate LeftOpen(s: string, b: nat)
    requires b <= |s| && MatchAt(s, b).Some?
  {
    OpenAt(s, WordEnd(s, b) + 1)
  }

  // No match from i on leaves its token open
  predicate Tame(s: string, i: nat)
    requires i <= |s|
    decreases |s| - i
  {
    var b := Begin(s, i);
    b == |s| || (!LeftOpen(s, b) && Tame(s, MatchAt(s, b).value.end))
  }

  // What the matches from i on store, in order
  function Stored(s: string, i: nat): Settings
    requires i <= |s|
    decreases |s| - i
  {
    var b := Begin(s, i);
    if b == |s| then []
    else var m := MatchAt(s, b).value; [Entry(m.key, m.value)] + Stored(s, m.end)
  }

  lemma {:induction false} PutAllCons(d: Settings, x: Entry, e: Settings)
    ensures PutAll(d, [x] + e) == PutAll(Put(d, x.key, x.value), e)
  {
    if e == [] {
      assert [x] + e == [x] && [x][..0] == [];
    } else {
      PutAllCons(d, x, e[..|e| - 1]);
      assert ([x] + e)[..|e|] == [x] + e[..|e| - 1];
    }
  }

  lemma {:induction false} PutAllConcat(d: Settings, a: Settings, b: Settings)
    ensures PutAll(d, a + b) == PutAll(PutAll(d, a), b)
  {
    if b == [] {
      assert a + b == a;
    } else {
      PutAllConcat(d, a, b[..|b| - 1]);
      assert (a + b)[..|a + b| - 1] == a + b[..|b| - 1];
    }
  }

  lemma {:induction false} PutEntries(d: Settings, k: string, v: Value, x: Entry)
    requires x in Put(d, k, v)
    ensures x in d || x == Entry(k, v)
  {
    if d != [] && d[0].key != k && x != d[0] { PutEntries(d[1..], k, v, x); }
  }

  lemma {:induction false} PutAllEntries(d: Settings, e: Settings, x: Entry)
    requires x in PutAll(d, e)
    ensures x in d || x in e
  {
    if e != [] {
      var last := e[|e| - 1];
      PutEntries(PutAll(d, e[..|e| - 1]), last.key, last.value, x);
      if x != last { PutAllEntries(d, e[..|e| - 1], x); }
    }
  }

  // ---------- A text inside another ----------

  // s stands at p in whole, up to a comma or the end
  predicate Sits(whole: string, p: nat, s: string) {
    && p + |s| <= |whole| && whole[p..p + |s|] == s
    && (p + |s| < |whole| ==> whole[p + |s|] == ',')
  }

  lemma InWhole(whole: string, p: nat, s: string)
    requires Sits(whole, p, s)
    ensures p + |s| <= |whole|
  {
  }

  lemma CharAt(whole: string, p: nat, s: string, i: nat)
    requires Sits(whole, p, s) && i < |s|
    ensures whole[p + i] == s[i]
  {
    assert whole[p..p + |s|][i] == s[i];
  }

  lemma {:induction false} WordEndSits(whole: string, p: nat, s: string, i: nat)
    requires Sits(whole, p, s) && i <= |s|
    ensures WordEnd(whole, p + i) == p + WordEnd(s, i)
    decreases |s| - i
  {
    if i < |s| {
      CharAt(whole, p, s, i);
      if IsWordChar(s[i]) { WordEndSits(whole, p, s, i + 1); }
    }
  }

  lemma {:induction false} IndexSits(whole: string, p: nat, s: string, c: char, i: nat)
    requires Sits(whole, p, s) && i <= |s|
    ensures IndexOf(s, c, i) < |s| || c == ',' || p + |s| == |whole| ==> IndexOf(whole, c, p + i) == p + IndexOf(s, c, i)
    decreases |s| - i
  {
    if i < |s| {
      CharAt(whole, p, s, i);
      if s[i] != c { IndexSits(whole, p, s, c, i + 1); }
    }
  }

  function Shift(m: Option<Match>, p: nat): Option<Match> {
    match m case None => None case Some(x) => Some(Match(x.key, x.value, p + x.end))
  }

  // Only an open token can tell what stands behind
  lemma ValueSits(whole: string, p: nat, s: string, i: nat)
    requires Sits(whole, p, s) && i <= |s| && (!OpenAt(s, i) || p + |s| == |whole|)
    ensures ValueAt(whole, p + i) == match ValueAt(s, i) case None => None case Some(t) => Some(Token(t.value, p + t.end))
  {
    hide Coerce, Strip, IndexOf, Sits;
    InWhole(whole, p, s);
    IndexSits(whole, p, s, ',', i);
    SliceSits(whole, p, s, i, IndexOf(s, ',', i));
    if i < |s| {
      CharAt(whole, p, s, i);
      if s[i] == '"' {
        IndexSits(whole, p, s, '"', i + 1);
        SliceSits(whole, p, s, i + 1, IndexOf(s, '"', i + 1));
      } else if s[i] == '(' {
        var q := IndexOf(s, ')', i + 1);
        IndexSits(whole, p, s, ')', i + 1);
        SliceSits(whole, p, s, i, if q < |s| then q + 1 else q);
      }
    } else {
      AtEnd(whole, p, s);
    }
  }

  lemma AtEnd(whole: string, p: nat, s: string)
    requires Sits(whole, p, s)
    ensures p + |s| <= |whole| && (p + |s| < |whole| ==> whole[p + |s|] == ',')
  {
  }

  lemma SliceSits(whole: string, p: nat, s: string, i: nat, j: nat)
    requires Sits(whole, p, s) && i <= j <= |s|
    ensures whole[p + i..p + j] == s[i..j]
  {
    forall k | 0 <= k < j - i ensures whole[p + i..p + j][k] == s[i..j][k] {
      CharAt(whole, p, s, i + k);
    }
  }

  lemma MatchSits(whole: string, p: nat, s: string, i: nat)
    requires Sits(whole, p, s) && i < |s|
    ensures MatchAt(s, i).Some? <==> MatchAt(whole, p + i).Some?
    ensures MatchAt(s, i).Some? ==> MatchAt(whole, p + i).value.key == MatchAt(s, i).value.key
    ensures MatchAt(s, i).None? || !LeftOpen(s, i) || p + |s| == |whole| ==> MatchAt(whole, p + i) == Shift(MatchAt(s, i), p)
  {
    hide ValueAt, OpenAt;
    WordEndSits(whole, p, s, i);
    var w := WordEnd(s, i);
    SliceSits(whole, p, s, i, w);
    if w < |s| {
      CharAt(whole, p, s, w);
      if !OpenAt(s, w + 1) || p + |s| == |whole| {
        ValueSits(whole, p, s, w + 1);
      } else {
        OpenIsSome(s, w + 1);
        CharAt(whole, p, s, w + 1);
        QuoteIsSome(whole, p + w + 1);
      }
    }
  }

  lemma OpenIsSome(s: string, p: nat)
    requires p <= |s| && OpenAt(s, p)
    ensures p < |s| && (s[p] == '"' || s[p] == '(') && ValueAt(s, p).Some?
  {
  }

  lemma QuoteIsSome(s: string, p: nat)
    requires p < |s| && (s[p] == '"' || s[p] == '(')
    ensures ValueAt(s, p).Some?
  {
  }

  lemma {:induction false} BeginSits(whole: string, p: nat, s: string, i: nat)
    requires Sits(whole, p, s) && i <= |s|
    ensures Begin(whole, p + i) == if Begin(s, i) < |s| then p + Begin(s, i) else Begin(whole, p + |s|)
    decreases |s| - i
  {
    hide MatchAt, FindFrom, LeftOpen, Sits;
    InWhole(whole, p, s);
    if i < |s| {
      MatchSits(whole, p, s, i);
      if MatchAt(s, i).None? { BeginSits(whole, p, s, i + 1); }
    }
  }

  // A text that leaves nothing open is scanned as if it stood alone
  lemma {:induction false} ScanSits(whole: string, p: nat, s: string, i: nat, t: Settings)
    requires Sits(whole, p, s) && i <= |s| && (Tame(s, i) || p + |s| == |whole|)
    ensures ScanFrom(whole, p + i, t) == ScanFrom(whole, p + |s|, PutAll(t, Stored(s, i)))
    decreases |s| - i
  {
    hide MatchAt, LeftOpen;
    BeginSits(whole, p, s, i);
    var b := Begin(s, i);
    if b < |s| {
      MatchSits(whole, p, s, b);
      var m := MatchAt(s, b).value;
      PutAllCons(t, Entry(m.key, m.value), Stored(s, m.end));
      ScanSits(whole, p, s, m.end, Put(t, m.key, m.value));
    }
  }

  lemma ScanAlone(s: string, t: Settings)
    ensures ScanFrom(s, 0, t) == PutAll(t, Stored(s, 0))
  {
    assert s[0..0 + |s|] == s;
    ScanSits(s, 0, s, 0, t);
    EmptyScan(s, PutAll(t, Stored(s, 0)));
  }

  // ---------- A whole dictionary ----------

  predicate AllTame(d: Settings) { forall i :: 0 <= i < |d| ==> Tame(PairText(d[i]), 0) }

  // What the pairs store, each scanned by itself
  function StoredAll(d: Settings): Settings { if d == [] then [] else Stored(PairText(d[0]), 0) + StoredAll(d[1..]) }

  // Pairs that leave nothing open, and whatever stands behind them
  lemma {:induction false} ScanJoined(s: string, p: nat, d: Settings, tail: Settings, t: Settings)
    requires p <= |s| && s[p..] == Join(PairTexts(d + tail)) && AllTame(d)
    ensures ScanFrom(s, p, t) == PutAll(PutAll(t, StoredAll(d)), Stored(Join(PairTexts(tail)), 0))
    decreases |d|
  {
    hide PairText, Tame, Stored, ScanFrom, Sits, Join, PairTexts;
    var e := d + tail;
    if d == [] {
      assert e == tail;
      ScanLast(s, p, Join(PairTexts(tail)), t);
    } else {
      var (pair, rest) := (PairText(d[0]), if |e| == 1 then "" else "," + Join(PairTexts(e[1..])));
      assert e[0] == d[0] && e[1..] == d[1..] + tail;
      JoinStep(e);
      Piece(s, p, pair, rest);
      FirstSits(s, p, pair, rest);
      ScanSits(s, p, pair, 0, t);
      var stored := PutAll(t, Stored(pair, 0));
      PutAllConcat(t, Stored(pair, 0), StoredAll(d[1..]));
      var q := NextPair(s, p + |pair|, e, stored);
      ScanJoined(s, q, d[1..], tail, stored);
    }
  }

  lemma ScanLast(s: string, p: nat, last: string, t: Settings)
    requires p <= |s| && s[p..] == last
    ensures ScanFrom(s, p, t) == PutAll(t, Stored(last, 0))
  {
    hide ScanFrom, Stored, Tame;
    assert s[p..p + |last|] == last;
    ScanSits(s, p, last, 0, t);
    EmptyScan(s, PutAll(t, Stored(last, 0)));
  }

  lemma FirstSits(s: string, p: nat, pair: string, rest: string)
    requires p <= |s| && s[p..] == pair + rest && (rest == "" || rest[0] == ',')
    ensures Sits(s, p, pair)
  {
    Piece(s, p, pair, rest);
  }

  // White space in front of the first key is passed over
  lemma {:induction false} ScanStripped(s: string, t: Settings)
    ensures ScanFrom(StripLeft(s), 0, t) == ScanFrom(s, 0, t)
  {
    if s != "" && IsSpace(s[0]) {
      ScanStripped(s[1..], t);
      assert s[1..1 + |s[1..]|] == s[1..];
      ScanSits(s, 1, s[1..], 0, t);
      ScanAlone(s[1..], t);
      EmptyScan(s, PutAll(t, Stored(s[1..], 0)));
      assert FindFrom(s, 0) == FindFrom(s, 1);
    }
  }

  lemma {:induction false} JoinTail(d: Settings)
    requires d != []
    ensures var t := Join(PairTexts(d)); t != "" && !IsSpace(t[|t| - 1])
  {
    JoinStep(d);
    ValueTextEnd(d[0].value);
    if |d| > 1 { JoinTail(d[1..]); }
  }

  lemma {:induction false} StripLeftTail(s: string)
    requires s != "" && !IsSpace(s[|s| - 1])
    ensures StripLeft(s) != "" && StripLeft(s)[|StripLeft(s)| - 1] == s[|s| - 1]
  {
    if IsSpace(s[0]) { StripLeftTail(s[1..]); }
  }

  // Whatever the keys and values are, the pairs are scanned from the first to the last
  lemma ParsePrinted(d: Settings)
    ensures Parse(Render(d)) == ScanFrom(Join(PairTexts(d)), 0, [])
  {
    hide PairTexts, Join, ScanFrom;
    var inner := Join(PairTexts(d));
    PayloadOfRender(d);
    ScanStripped(inner, []);
    if d != [] {
      JoinTail(d);
      StripLeftTail(inner);
    } else {
      assert inner == "" by { NothingJoined(); }
    }
  }

  lemma NothingJoined()
    ensures Join(PairTexts([])) == ""
  {
  }

  // Printed pairs that leave nothing open store what each of them stores by itself, and the rest what
  // it stores as one text
  lemma ReadInFront(d: Settings, tail: Settings)
    requires AllTame(d)
    ensures Parse(Render(d + tail)) == PutAll(PutAll([], StoredAll(d)), Stored(Join(PairTexts(tail)), 0))
  {
    hide AllTame, StoredAll;
    ParsePrinted(d + tail);
    var inner := Join(PairTexts(d + tail));
    assert inner[0..] == inner;
    ScanJoined(inner, 0, d, tail, []);
  }

  // A dictionary whose pairs leave nothing open reads back as what they store
  lemma TameReadBack(d: Settings)
    requires AllTame(d)
    ensures Parse(Render(d)) == PutAll([], StoredAll(d))
  {
    hide AllTame, StoredAll, Parse, Render;
    ReadInFront(d, []);
    assert d + [] == d;
    NothingJoined();
  }

  // ---------- Single pairs ----------

  // A pair with a word for a key and a safe value stores itself
  lemma SafeTame(e: Entry)
    requires KeyOk(e.key) && Safe(e.value)
    ensures Tame(PairText(e), 0) && Stored(PairText(e), 0) == [Entry(e.key, Norm(e.value))]
  {
    hide MatchAt, PairText, Safe, KeyOk, Norm;
    var s := PairText(e);
    assert s[0..] == s + "";
    PairRead(s, 0, e, "");
    assert Begin(s, 0) == 0 && Begin(s, |s|) == |s|;
    SafeCloses(e);
  }

  lemma SafeCloses(e: Entry)
    requires KeyOk(e.key) && Safe(e.value)
    ensures MatchAt(PairText(e), 0).Some? && !LeftOpen(PairText(e), 0)
  {
    hide MatchAt, OpenAt, Safe, KeyOk, ValueText;
    var (s, t) := (PairText(e), ValueText(e.value));
    assert s[0..] == s + "" && s == e.key + "=" + t;
    PairRead(s, 0, e, "");
    KeyRead(s, 0, e.key, t);
    ValueCloses(s, |e.key| + 1, e.value);
  }

  lemma ValueCloses(s: string, p: nat, v: Value)
    requires p <= |s| && s[p..] == ValueText(v)
    ensures !OpenAt(s, p)
  {
    hide IndexOf, IntToString, FormatFloat;
    var t := ValueText(v);
    ValueTextEnd(v);
    assert s[p] == t[0] && s[|s| - 1] == t[|t| - 1];
    if v.StrV? || v.OtherV? {
      if p + 1 < |s| { LastStops(s, p + 1, |s| - 1); }
    } else {
      BareText(v);
      assert BareChar(t[0]);
    }
  }

  lemma {:induction false} LastStops(s: string, i: nat, q: nat)
    requires i <= q < |s|
    ensures IndexOf(s, s[q], i) <= q
    decreases q - i
  {
    if i < q && s[i] != s[q] { LastStops(s, i + 1, q); }
  }

  lemma SafeStored(d: Settings)
    requires forall i :: 0 <= i < |d| ==> KeyOk(d[i].key) && Safe(d[i].value)
    ensures AllTame(d) && StoredAll(d) == NormAll(d)
  {
    hide Tame, Stored, PairText, KeyOk, Safe, Norm, StoredAll, NormAll;
    forall i | 0 <= i < |d| ensures Tame(PairText(d[i]), 0) && Stored(PairText(d[i]), 0) == [Entry(d[i].key, Norm(d[i].value))] {
      SafeTame(d[i]);
    }
    StoredEach(d);
  }

  lemma {:induction false} StoredEach(d: Settings)
    requires forall i :: 0 <= i < |d| ==> Stored(PairText(d[i]), 0) == [Entry(d[i].key, Norm(d[i].value))]
    ensures StoredAll(d) == NormAll(d)
  {
    if d != [] {
      hide Stored, PairText, Norm, NormAll;
      NormTail(d);
      forall i | 0 <= i < |d[1..]| ensures Stored(PairText(d[1..][i]), 0) == [Entry(d[1..][i].key, Norm(d[1..][i].value))] {
        assert d[1..][i] == d[i + 1];
      }
      StoredEach(d[1..]);
    } else {
      assert NormAll([]) == [] by { NothingNormed(); }
    }
  }

  lemma NormTail(d: Settings)
    requires d != []
    ensures NormAll(d) == [Entry(d[0].key, Norm(d[0].value))] + NormAll(d[1..])
  {
    hide Norm;
  }

  lemma NothingNormed()
    ensures NormAll([]) == []
  {
  }

  lemma MatchWord(s: string, b: nat)
    requires b <= |s| && MatchAt(s, b).Some?
    ensures KeyOk(MatchAt(s, b).value.key)
  {
  }

  // Every key a scan stores is a word
  lemma {:induction false} StoredKeys(s: string, i: nat)
    requires i <= |s|
    ensures forall j :: 0 <= j < |Stored(s, i)| ==> KeyOk(Stored(s, i)[j].key) && !Stored(s, i)[j].value.OtherV?
    decreases |s| - i
  {
    hide MatchAt, KeyOk, Begin;
    var b := Begin(s, i);
    if b < |s| {
      MatchWord(s, b);
      StoredKeys(s, MatchAt(s, b).value.end);
    }
  }

  // ---------- What a scan stores is shorter than what it reads ----------

  // The length of the string a printer meets; a key that is no word may hold anything
  function Weight(e: Entry): nat {
    if !KeyOk(e.key) then |PairText(e)| + 1
    else match e.value case StrV(s) => |s| case OtherV(t) => |t| case _ => 0
  }

  // Every string a scan stores is shorter than what it scans
  lemma {:induction false} StoredShorter(s: string, i: nat)
    requires i <= |s|
    ensures forall j :: 0 <= j < |Stored(s, i)| && Stored(s, i)[j].value.StrV? ==> |Stored(s, i)[j].value.s| + 2 <= |s| - i
    decreases |s| - i
  {
    hide MatchAt, Begin;
    var b := Begin(s, i);
    if b < |s| { StoredShorter(s, MatchAt(s, b).value.end); }
  }

  lemma StoredLighter(e: Entry)
    requires !(KeyOk(e.key) && Safe(e.value))
    ensures forall j :: 0 <= j < |Stored(PairText(e), 0)| ==> Weight(Stored(PairText(e), 0)[j]) < Weight(e)
  {
    var s := PairText(e);
    StoredKeys(s, 0);
    StoredShorter(s, 0);
    if KeyOk(e.key) { UnsafeLighter(e); }
  }

  lemma QuoteCut(s: string, p: nat, inner: string)
    requires p <= |s| && s[p..] == "\"" + inner + "\"" && '"' in inner
    ensures var r := ValueAt(s, p);
      r.Some? && r.value.value.StrV? && |r.value.value.s| < |inner| && |s| - r.value.end <= |inner|
  {
    hide Coerce, Strip, IndexOf;
    var t := "\"" + inner + "\"";
    var i :| 0 <= i < |inner| && inner[i] == '"';
    var q := p + 1 + i;
    assert s[q] == t[i + 1] && s[p] == t[0] && |s| == p + |t|;
    LastStops(s, p + 1, q);
  }

  // The cut string is shorter than the whole, and so is everything in the rest
  lemma UnsafeLighter(e: Entry)
    requires KeyOk(e.key) && !Safe(e.value)
    ensures forall j :: 0 <= j < |Stored(PairText(e), 0)| ==> Weight(Stored(PairText(e), 0)[j]) < Weight(e)
  {
    hide ValueAt, ValueText, Safe, KeyOk, Begin, MatchAt, PairText;
    var s := PairText(e);
    UnsafeMatch(e);
    FirstStored(s);
    var m := MatchAt(s, 0).value;
    StoredShorter(s, m.end);
    StoredKeys(s, m.end);
  }

  lemma UnsafeMatch(e: Entry)
    requires KeyOk(e.key) && !Safe(e.value)
    ensures var s := PairText(e);
      && MatchAt(s, 0).Some? && MatchAt(s, 0).value.key == e.key && MatchAt(s, 0).value.value.StrV?
      && |MatchAt(s, 0).value.value.s| < Weight(e) && |s| - MatchAt(s, 0).value.end <= Weight(e)
  {
    hide ValueAt, ValueText, Safe, KeyOk;
    var (s, p) := (PairText(e), |e.key| + 1);
    assert s[0..] == s && s == e.key + "=" + ValueText(e.value);
    KeyRead(s, 0, e.key, ValueText(e.value));
    Lengths(e);
    if e.value.StrV? {
      UnsafeCut(s, p, e.value);
    } else {
      QuoteCut(s, p, e.value.shown);
    }
  }

  lemma Lengths(e: Entry)
    requires KeyOk(e.key) && !Safe(e.value)
    ensures var v := e.value;
      && e.key != "" && (v.StrV? || (v.OtherV? && ValueText(v) == "\"" + v.shown + "\"" && '"' in v.shown))
      && (v.StrV? ==> |v.s| > 0)
  {
  }

  lemma FirstStored(s: string)
    requires MatchAt(s, 0).Some?
    ensures var m := MatchAt(s, 0).value; Begin(s, 0) == 0 && Stored(s, 0) == [Entry(m.key, m.value)] + Stored(s, m.end)
  {
    hide MatchAt;
  }

  // ---------- Survival in a whole dictionary ----------

  lemma {:induction false} StoredAllFrom(d: Settings, x: Entry) returns (i: nat)
    requires x in StoredAll(d)
    ensures i < |d| && x in Stored(PairText(d[i]), 0)
  {
    hide Stored, PairText;
    if x in Stored(PairText(d[0]), 0) {
      i := 0;
    } else {
      i := StoredAllFrom(d[1..], x);
      i := i + 1;
    }
  }

  // The heaviest of the unsafe values among the first n
  lemma {:induction false} HeaviestUnsafe(d: Settings, n: nat, k: nat) returns (top: nat)
    requires k < n <= |d| && !Safe(d[k].value)
    ensures top < n && !Safe(d[top].value)
    ensures forall i :: 0 <= i < n && !Safe(d[i].value) ==> Weight(d[i]) <= Weight(d[top])
  {
    hide Safe, Weight;
    if k == n - 1 {
      if j :| 0 <= j < n - 1 && !Safe(d[j].value) {
        top := HeaviestUnsafe(d, n - 1, j);
        if Weight(d[top]) < Weight(d[n - 1]) { top := n - 1; }
      } else {
        top := n - 1;
      }
    } else {
      top := HeaviestUnsafe(d, n - 1, k);
      if !Safe(d[n - 1].value) && Weight(d[top]) < Weight(d[n - 1]) { top := n - 1; }
    }
  }

  lemma StoredBy(e: Entry, x: Entry)
    requires KeyOk(e.key) && x in Stored(PairText(e), 0)
    ensures if Safe(e.value) then x.key == e.key else Weight(x) < Weight(e)
  {
    hide Safe, Weight, Stored, PairText, KeyOk, Tame, Norm;
    if Safe(e.value) { SafeTame(e); } else { StoredLighter(e); }
  }

  // A string that is cut cannot be read again from the rest of any pair: such a pair would have to be
  // cut itself, and be longer
  lemma HeaviestIsLost(d: Settings, top: nat)
    requires DistinctKeys(d) && (forall i :: 0 <= i < |d| ==> KeyOk(d[i].key)) && top < |d| && !Safe(d[top].value)
    requires forall i :: 0 <= i < |d| && !Safe(d[i].value) ==> Weight(d[i]) <= Weight(d[top])
    ensures d[top] !in StoredAll(d)
  {
    hide Safe, Weight, Stored, PairText, KeyOk, StoredAll;
    if d[top] in StoredAll(d) {
      var j := StoredAllFrom(d, d[top]);
      StoredBy(d[j], d[top]);
    }
  }

  // A dictionary whose pairs leave no token open survives printing and reading exactly when all of
  // its values are exact
  lemma SurvivesIffAllExact(d: Settings)
    requires AllTame(d) && DistinctKeys(d) && forall i :: 0 <= i < |d| ==> KeyOk(d[i].key)
    ensures Parse(Render(d)) == d <==> forall i :: 0 <= i < |d| ==> Exact(d[i].value)
  {
    hide AllTame, KeyOk, Safe, Norm, Parse, Render, StoredAll;
    if k :| 0 <= k < |d| && !Safe(d[k].value) {
      var top := HeaviestUnsafe(d, |d|, k);
      HeaviestIsLost(d, top);
      TameReadBack(d);
      if d[top] in Parse(Render(d)) { PutAllEntries([], StoredAll(d), d[top]); }
    } else {
      RoundTrip(d);
      forall i | 0 <= i < |d| ensures NormAll(d)[i] == d[i] <==> Exact(d[i].value) {}
    }
  }
}
