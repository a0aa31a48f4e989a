/**
  The exact conditions for keeping the administrative keys: on a save, for every file whose values can
  be printed back, and on a file, for every contained save.
*/
module ProtectedKeysExact {
  import opened Text
  import opened IniCodec
  import opened IniRoundTrip
  import opened IniWalk
  import opened ConfigPipeline
  import opened ProtectedKeys

  // ---------- Where a pair goes wrong ----------

  predicate FailsAt(s: string, b: nat) {
    b < |s| && MatchAt(s, b).Some? && (Protected(MatchAt(s, b).value.key) || LeftOpen(s, b))
  }

  // The first match that stores a protected key or leaves its token open
  function FirstFailure(s: string, i: nat): (b: nat)
    requires i <= |s|
    ensures i <= b <= |s|
    decreases |s| - i
  {
    var b := Begin(s, i);
    if b == |s| || FailsAt(s, b) then b else FirstFailure(s, MatchAt(s, b).value.end)
  }

  lemma {:induction false} FailureExists(s: string, i: nat)
    requires i <= |s| && !(Tame(s, i) && NoneProtected(Stored(s, i)))
    ensures FailsAt(s, FirstFailure(s, i))
    decreases |s| - i
  {
    hide MatchAt, LeftOpen, Protected;
    var b := Begin(s, i);
    if b < |s| && !FailsAt(s, b) {
      var m := MatchAt(s, b).value;
      var rest := Stored(s, m.end);
      assert Stored(s, i)[0].key == m.key && forall j :: 0 < j < |Stored(s, i)| ==> Stored(s, i)[j] == rest[j - 1];
      FailureExists(s, m.end);
    }
  }

  // Up to there the scan goes as it would alone and stores public keys only
  lemma {:induction false} WalkToFailure(whole: string, p: nat, s: string, i: nat, t: Settings) returns (t': Settings)
    requires Sits(whole, p, s) && i <= |s| && NoneProtected(t) && FailsAt(s, FirstFailure(s, i))
    ensures ScanFrom(whole, p + i, t) == ScanFrom(whole, p + FirstFailure(s, i), t') && NoneProtected(t')
    decreases |s| - i
  {
    hide MatchAt, LeftOpen, Protected;
    InWhole(whole, p, s);
    BeginSits(whole, p, s, i);
    var b := Begin(s, i);
    if FailsAt(s, b) {
      MatchSits(whole, p, s, b);
      BeginThere(whole, p + b);
      t' := t;
    } else {
      MatchSits(whole, p, s, b);
      var m := MatchAt(s, b).value;
      PutPublic(t, m.key, m.value);
      t' := WalkToFailure(whole, p, s, m.end, Put(t, m.key, m.value));
    }
  }

  lemma BeginThere(s: string, b: nat)
    requires b < |s| && MatchAt(s, b).Some?
    ensures Begin(s, b) == b
  {
  }

  lemma PutPublic(t: Settings, k: string, v: Value)
    requires NoneProtected(t) && !Protected(k)
    ensures NoneProtected(Put(t, k, v))
  {
    hide Protected;
    var r := Put(t, k, v);
    forall i | 0 <= i < |r| ensures !Protected(r[i].key) { PutEntries(t, k, v, r[i]); }
  }

  // ---------- A protected key that is stored stays ----------

  lemma {:induction false} PutHasKey(t: Settings, k: string, v: Value, q: string)
    requires q == k || HasKey(t, q)
    ensures HasKey(Put(t, k, v), q)
  {
    LookupPut(t, k, v, q);
    LookupHasKey(t, q);
    LookupHasKey(Put(t, k, v), q);
  }

  lemma {:induction false} ScanHasKey(s: string, p: nat, t: Settings, q: string)
    requires p <= |s| && HasKey(t, q)
    ensures HasKey(ScanFrom(s, p, t), q)
    decreases |s| - p
  {
    match FindFrom(s, p)
    case None =>
    case Some(m) =>
      PutHasKey(t, m.key, m.value, q);
      ScanHasKey(s, m.end, Put(t, m.key, m.value), q);
  }

  lemma KeyInPart(d: Settings, q: string)
    requires HasKey(d, q) && Protected(q)
    ensures Part(d, true) != []
  {
    var i :| 0 <= i < |d| && d[i].key == q;
    InPart(d, i);
  }

  // The first failure of s stores a protected key
  lemma Introduces(whole: string, s: string)
    requires Sits(whole, 0, s) && FailsAt(s, FirstFailure(s, 0)) && Protected(MatchAt(s, FirstFailure(s, 0)).value.key)
    ensures Part(ScanFrom(whole, 0, []), true) != []
  {
    hide MatchAt, Protected, ScanFrom, FirstFailure, Begin;
    var b := FirstFailure(s, 0);
    var t := WalkToFailure(whole, 0, s, 0, []);
    MatchSits(whole, 0, s, b);
    InWhole(whole, 0, s);
    BeginThere(whole, b);
    var m := MatchAt(whole, b).value;
    NextScan(whole, b, t);
    PutHasKey(t, m.key, m.value, m.key);
    ScanHasKey(whole, m.end, Put(t, m.key, m.value), m.key);
    KeyInPart(ScanFrom(whole, 0, []), m.key);
  }

  lemma NextScan(s: string, b: nat, t: Settings)
    requires b < |s| && MatchAt(s, b).Some?
    ensures var m := MatchAt(s, b).value; ScanFrom(s, b, t) == ScanFrom(s, m.end, Put(t, m.key, m.value))
  {
    hide MatchAt;
    BeginThere(s, b);
  }

  // ---------- A token left open swallows the key behind it ----------

  predicate ProtectedShort(d: Settings, n: nat) {
    forall i :: 0 <= i < |d| && Protected(d[i].key) && d[i].value.StrV? ==> |d[i].value.s| < n
  }

  lemma PutShort(d: Settings, k: string, v: Value, n: nat)
    requires ProtectedShort(d, n) && (v.StrV? ==> |v.s| < n)
    ensures ProtectedShort(Put(d, k, v), n)
  {
    hide Protected;
    var r := Put(d, k, v);
    forall i | 0 <= i < |r| && Protected(r[i].key) && r[i].value.StrV? ensures |r[i].value.s| < n { PutEntries(d, k, v, r[i]); }
  }

  lemma {:induction false} ScanShort(s: string, p: nat, t: Settings, n: nat)
    requires p <= |s| <= p + n && ProtectedShort(t, n)
    ensures ProtectedShort(ScanFrom(s, p, t), n)
    decreases |s| - p
  {
    hide ProtectedShort;
    match FindFrom(s, p)
    case None =>
    case Some(m) =>
      PutShort(t, m.key, m.value, n);
      ScanShort(s, m.end, Put(t, m.key, m.value), n);
  }

  function Letters(n: nat): (s: string)
    ensures |s| == n && forall i :: 0 <= i < n ==> s[i] == 'x'
  {
    seq(n, i => 'x')
  }

  // A password of n letters, in the kind of token that closes what s leaves open
  function Password(s: string, b: nat, n: nat): string
    requires b < |s| && MatchAt(s, b).Some? && LeftOpen(s, b)
  {
    if s[WordEnd(s, b) + 1] == '"' then Letters(n) else "(" + Letters(n) + ")"
  }

  const ADMIN_KEY := "AdminPassword"

  lemma {:induction false} NoMatchInWord(s: string, i: nat, e: nat)
    requires i <= e < |s| && (forall j :: i <= j < e ==> IsWordChar(s[j])) && !IsWordChar(s[e]) && s[e] != '='
    ensures Begin(s, i) == Begin(s, e)
    decreases e - i
  {
    hide ValueAt, FindFrom;
    if i < e {
      WordEndIs(s, i, e);
      NoMatchInWord(s, i + 1, e);
    }
  }

  // The pair s, a comma, the administrative key with w, and the rest
  function Followed(s: string, w: string, rest: string): string { s + ("," + (ADMIN_KEY + ("=" + (w + rest)))) }

  // Where the value of the administrative key starts
  function ValueStart(s: string): nat { |s| + 1 + |ADMIN_KEY| + 1 }

  lemma FrameChars(s: string, w: string, rest: string)
    ensures var whole := Followed(s, w, rest);
      && |whole| == ValueStart(s) + |w| + |rest|
      && (forall j :: 0 <= j < |s| ==> whole[j] == s[j])
      && (forall j :: |s| <= j < ValueStart(s) ==> whole[j] != '"' && whole[j] != ')')
      && (forall j :: ValueStart(s) <= j < ValueStart(s) + |w| ==> whole[j] == w[j - ValueStart(s)])
      && Sits(whole, 0, s)
  {
    var (middle, whole) := ("," + (ADMIN_KEY + "="), Followed(s, w, rest));
    assert whole == s + (middle + (w + rest));
    assert whole[0..|s|] == s;
    assert forall j :: 0 <= j < |middle| ==> middle[j] != '"' && middle[j] != ')' by { MiddleChars(); }
    assert forall j :: |s| <= j < ValueStart(s) ==> whole[j] == middle[j - |s|];
  }

  lemma MiddleChars()
    ensures var middle := "," + (ADMIN_KEY + "=");
      |middle| == 1 + |ADMIN_KEY| + 1 && forall j :: 0 <= j < |middle| ==> middle[j] != '"' && middle[j] != ')'
  {
  }

  // The open token goes on to the first character that closes it
  lemma SwallowedTo(s: string, w: string, rest: string, p: nat, c: char, q: nat)
    requires p < |s| && (c == '"' || c == ')') && IndexOf(s, c, p + 1) == |s|
    requires q < |w| && w[q] == c && forall j :: 0 <= j < q ==> w[j] != c
    ensures IndexOf(Followed(s, w, rest), c, p + 1) == ValueStart(s) + q
  {
    hide IndexOf;
    var whole := Followed(s, w, rest);
    FrameChars(s, w, rest);
    forall j | p + 1 <= j < ValueStart(s) + q ensures whole[j] != c {}
    IndexOfIs(whole, c, p + 1, ValueStart(s) + q);
  }

  // A pair that leaves a token open takes the administrative key behind it along: no key that is then
  // read as protected holds a string as long as the password
  lemma Swallows(s: string, n: nat, rest: string)
    requires FailsAt(s, FirstFailure(s, 0)) && !Protected(MatchAt(s, FirstFailure(s, 0)).value.key)
    requires |rest| < n
    ensures var w := ValueText(StrV(Password(s, FirstFailure(s, 0), n)));
      ProtectedShort(ScanFrom(Followed(s, w, rest), 0, []), n)
  {
    hide MatchAt, Protected, ScanFrom, FirstFailure, Begin, ValueText, Followed, OpenAt, IndexOf;
    var b := FirstFailure(s, 0);
    var w := ValueText(StrV(Password(s, b, n)));
    var whole := Followed(s, w, rest);
    FrameChars(s, w, rest);
    var t := WalkToFailure(whole, 0, s, 0, []);
    MatchSits(whole, 0, s, b);
    NextScan(whole, b, t);
    var m := MatchAt(whole, b).value;
    PutPublic(t, m.key, m.value);
    NoneIsShort(Put(t, m.key, m.value), n);
    Behind(s, b, n, rest, Put(t, m.key, m.value));
  }

  lemma NoneIsShort(d: Settings, n: nat)
    requires NoneProtected(d)
    ensures ProtectedShort(d, n)
  {
  }

  // The text of the password, and where it closes
  lemma PasswordText(s: string, b: nat, n: nat)
    requires b < |s| && MatchAt(s, b).Some? && LeftOpen(s, b) && n > 0
    ensures var (p, w) := (WordEnd(s, b) + 1, ValueText(StrV(Password(s, b, n))));
      && p < |s| && |w| == n + 2
      && (forall j :: 0 < j < n + 1 ==> w[j] == 'x')
      && (if s[p] == '"' then w[0] == '"' && w[n + 1] == '"' && IndexOf(s, '"', p + 1) == |s|
          else s[p] == '(' && w[0] == '(' && w[n + 1] == ')' && IndexOf(s, ')', p + 1) == |s|)
  {
    hide MatchAt, IndexOf;
    assert Letters(n)[0] == 'x';
  }

  lemma ClosedToken(s: string, p: nat, c: char, q: nat)
    requires p < |s| && ((c == '"' && s[p] == '"') || (c == ')' && s[p] == '('))
    requires IndexOf(s, c, p + 1) == q < |s|
    ensures ValueAt(s, p).Some? && ValueAt(s, p).value.end == q + 1
  {
    hide Coerce, Strip, IndexOf;
  }

  // The match of s at b, in a text that goes on
  lemma MatchEnd(whole: string, s: string, b: nat)
    requires b < |s| && MatchAt(s, b).Some? && WordEnd(s, b) < |s|
    requires |s| <= |whole| && (forall j :: 0 <= j < |s| ==> whole[j] == s[j]) && WordEnd(whole, b) == WordEnd(s, b)
    requires ValueAt(whole, WordEnd(s, b) + 1).Some?
    ensures MatchAt(whole, b).Some? && MatchAt(whole, b).value.end == ValueAt(whole, WordEnd(s, b) + 1).value.end
  {
    hide ValueAt;
  }

  // Where the open match ends in the whole text
  lemma OpenEnd(s: string, b: nat, n: nat, rest: string)
    requires b < |s| && MatchAt(s, b).Some? && LeftOpen(s, b) && n > 0
    ensures var whole := Followed(s, ValueText(StrV(Password(s, b, n))), rest);
      && b < |whole| && MatchAt(whole, b).Some?
      && MatchAt(whole, b).value.end == ValueStart(s) + if s[WordEnd(s, b) + 1] == '"' then 1 else n + 2
  {
    hide Followed, IndexOf, ValueText, Password, MatchAt, LeftOpen, ValueAt;
    var p := WordEnd(s, b) + 1;
    var w := ValueText(StrV(Password(s, b, n)));
    var whole := Followed(s, w, rest);
    FrameChars(s, w, rest);
    WordEndSits(whole, 0, s, b);
    PasswordText(s, b, n);
    assert whole[p] == s[p];
    if s[p] == '"' {
      SwallowedTo(s, w, rest, p, '"', 0);
      ClosedToken(whole, p, '"', ValueStart(s));
    } else {
      SwallowedTo(s, w, rest, p, ')', n + 1);
      ClosedToken(whole, p, ')', ValueStart(s) + n + 1);
    }
    MatchEnd(whole, s, b);
  }

  lemma Behind(s: string, b: nat, n: nat, rest: string, t: Settings)
    requires b < |s| && MatchAt(s, b).Some? && LeftOpen(s, b) && |rest| < n && ProtectedShort(t, n)
    ensures var whole := Followed(s, ValueText(StrV(Password(s, b, n))), rest);
      && b < |whole| && MatchAt(whole, b).Some?
      && ProtectedShort(ScanFrom(whole, MatchAt(whole, b).value.end, t), n)
  {
    hide ProtectedShort, ScanFrom, Begin, Followed, IndexOf, MatchAt, ValueText, Password, LeftOpen;
    var w := ValueText(StrV(Password(s, b, n)));
    var whole := Followed(s, w, rest);
    OpenEnd(s, b, n, rest);
    PasswordText(s, b, n);
    FrameChars(s, w, rest);
    var next := MatchAt(whole, b).value.end;
    if s[WordEnd(s, b) + 1] == '"' {
      assert forall j :: next <= j < next + n ==> whole[j] == w[j - ValueStart(s)] == 'x';
      assert whole[next + n] == w[n + 1];
      NoMatchInWord(whole, next, next + n);
      SameScan(whole, next, next + n, t);
      ScanShort(whole, next + n, t, n);
    } else {
      ScanShort(whole, next, t, n);
    }
  }

  lemma SameScan(s: string, i: nat, j: nat, t: Settings)
    requires i <= j <= |s| && Begin(s, i) == Begin(s, j)
    ensures ScanFrom(s, i, t) == ScanFrom(s, j, t)
  {
  }

  // ---------- The files that show it ----------

  // A second entry stays where it is while others are stored
  function Second(d: Settings, y: Entry): Settings
    requires d != []
  {
    [d[0], y] + d[1..]
  }

  lemma PutSecond(d: Settings, y: Entry, k: string, v: Value)
    requires d != [] && k != y.key
    ensures Put(d, k, v) != [] && Put(Second(d, y), k, v) == Second(Put(d, k, v), y)
  {
    hide Put;
    var (first, rest) := (d[0], d[1..]);
    assert d == [first] + rest && Second(d, y) == [first] + ([y] + rest);
    PutBehind(first, [y] + rest, k, v);
    PutBehind(first, rest, k, v);
    PutBehind(y, rest, k, v);
    if first.key == k {
      SecondOf(Entry(k, v), y, rest);
    } else {
      SecondOf(first, y, Put(rest, k, v));
    }
  }

  lemma SecondOf(x: Entry, y: Entry, d: Settings)
    ensures [x] + ([y] + d) == Second([x] + d, y)
  {
    assert ([x] + d)[1..] == d;
  }

  lemma PutBehind(x: Entry, d: Settings, k: string, v: Value)
    ensures Put([x] + d, k, v) == if x.key == k then [Entry(k, v)] + d else [x] + Put(d, k, v)
  {
    assert ([x] + d)[1..] == d;
  }

  lemma {:induction false} PutAllSecond(d: Settings, y: Entry, e: Settings)
    requires d != [] && forall i :: 0 <= i < |e| ==> e[i].key != y.key
    ensures PutAll(d, e) != [] && PutAll(Second(d, y), e) == Second(PutAll(d, e), y)
  {
    if e != [] {
      PutAllSecond(d, y, e[..|e| - 1]);
      PutSecond(PutAll(d, e[..|e| - 1]), y, e[|e| - 1].key, e[|e| - 1].value);
    }
  }

  lemma {:induction false} PutAllFirst(d: Settings, e: Settings)
    requires d != []
    ensures PutAll(d, e) != [] && PutAll(d, e)[0].key == d[0].key
  {
    if e != [] { PutAllFirst(d, e[..|e| - 1]); }
  }

  // A file with the key of an edit in front: the edit's value takes that place
  lemma EditFirst(edits: Settings, e: Entry)
    requires DistinctKeys(edits) && e in edits
    ensures PutAll([Entry(e.key, BoolV(true))], edits) != [] && PutAll([Entry(e.key, BoolV(true))], edits)[0] == e
  {
    var d := [Entry(e.key, BoolV(true))];
    var i :| 0 <= i < |edits| && edits[i] == e;
    PutAllFirst(d, edits);
    LookupPutAll(d, edits, e.key);
    LookupAt(edits, i);
  }

  function RestOf(d: Settings): string
    requires d != []
  {
    if |d| == 1 then "" else "," + Join(PairTexts(d[1..]))
  }

  // A file that holds the key of the edit alone
  function Plain(e: Entry): Settings { [Entry(e.key, BoolV(true))] }

  lemma PlainBreaks(incoming: Settings, e: Entry)
    requires DistinctKeys(incoming) && e in Part(incoming, false) && KeyOk(e.key)
    requires FailsAt(PairText(e), FirstFailure(PairText(e), 0)) && Protected(MatchAt(PairText(e), FirstFailure(PairText(e), 0)).value.key)
    ensures var text := Render(Plain(e));
      FileOk(Parse(text)) && Part(Parse(Round(text, incoming)), true) != Part(Parse(text), true)
  {
    hide Render, Parse, Protected, MatchAt, FirstFailure, FailsAt, KeyOk, ScanFrom, Contained;
    var (text, edits) := (Render(Plain(e)), Part(incoming, false));
    PartOf(incoming, false);
    SafeFile(Plain(e));
    SavePrints(text, incoming);
    EditFirst(edits, e);
    var d := PutAll(Plain(e), edits);
    JoinStep(d);
    ParsePrinted(d);
    var whole := Join(PairTexts(d));
    assert whole[0..|PairText(e)|] == PairText(e);
    Introduces(whole, PairText(e));
    PlainPart(e);
  }

  lemma PlainPart(e: Entry)
    requires !Protected(e.key)
    ensures Part(Plain(e), true) == []
  {
    assert Plain(e)[..0] == [];
  }

  // Files of exact, harmless settings read back as they are
  lemma SafeFile(d: Settings)
    requires DistinctKeys(d) && forall i :: 0 <= i < |d| ==> KeyOk(d[i].key) && Exact(d[i].value)
    ensures Parse(Render(d)) == d && FileOk(d)
  {
    ExactRoundTrip(d);
    forall i | 0 <= i < |d| && !Protected(d[i].key) ensures Contained(d[i]) {
      SafeTame(d[i]);
    }
  }

  // The same file with a password behind
  function Guarded(e: Entry, password: string): Settings { [Entry(e.key, BoolV(true)), Entry(ADMIN_KEY, StrV(password))] }

  lemma GuardedText(e: Entry, edits: Settings, password: string)
    requires DistinctKeys(edits) && e in edits && forall i :: 0 <= i < |edits| ==> edits[i].key != ADMIN_KEY
    ensures var plain := PutAll(Plain(e), edits);
      && plain != []
      && Join(PairTexts(PutAll(Guarded(e, password), edits))) == Followed(PairText(e), ValueText(StrV(password)), RestOf(plain))
  {
    hide PairText, Join, PairTexts, ValueText, PutAll, Followed, RestOf;
    var y := Entry(ADMIN_KEY, StrV(password));
    var plain := PutAll(Plain(e), edits);
    EditFirst(edits, e);
    assert Guarded(e, password) == Second(Plain(e), y);
    PutAllSecond(Plain(e), y, edits);
    SecondText(plain, y);
    PairOf(y);
    Regrouped(PairText(e), ValueText(StrV(password)), RestOf(plain));
  }

  lemma SecondText(d: Settings, y: Entry)
    requires d != []
    ensures Join(PairTexts(Second(d, y))) == PairText(d[0]) + ("," + (PairText(y) + RestOf(d)))
  {
    hide PairText, Join, PairTexts;
    var e := Second(d, y);
    JoinStep(e);
    assert e[1..] == [y] + d[1..];
    JoinStep([y] + d[1..]);
    assert ([y] + d[1..])[1..] == d[1..];
  }

  lemma PairOf(e: Entry)
    ensures PairText(e) == e.key + "=" + ValueText(e.value)
  {
  }

  lemma Regrouped(s: string, w: string, rest: string)
    ensures s + ("," + (ADMIN_KEY + "=" + w + rest)) == Followed(s, w, rest)
  {
    assert ADMIN_KEY + "=" + w + rest == ADMIN_KEY + ("=" + (w + rest));
  }

  lemma PasswordOk(s: string, b: nat, n: nat)
    requires b < |s| && MatchAt(s, b).Some? && LeftOpen(s, b) && n > 0
    ensures Exact(StrV(Password(s, b, n))) && |Password(s, b, n)| >= n
  {
    hide MatchAt, LeftOpen;
    assert Letters(n)[0] == 'x';
  }

  lemma AdminIsProtected()
    ensures Protected(ADMIN_KEY) && KeyOk(ADMIN_KEY)
  {
  }

  lemma GuardedPart(e: Entry, password: string)
    requires !Protected(e.key)
    ensures Part(Guarded(e, password), true) == [Entry(ADMIN_KEY, StrV(password))]
  {
    hide Protected;
    AdminIsProtected();
    var d := Guarded(e, password);
    assert d[..1] == [d[0]] && [d[0]][..0] == [];
    assert Part([d[0]], true) == [];
  }

  lemma GuardedBreaks(incoming: Settings, e: Entry)
    requires DistinctKeys(incoming) && e in Part(incoming, false) && KeyOk(e.key)
    requires FailsAt(PairText(e), FirstFailure(PairText(e), 0)) && !Protected(MatchAt(PairText(e), FirstFailure(PairText(e), 0)).value.key)
    ensures exists text :: FileOk(Parse(text)) && Part(Parse(Round(text, incoming)), true) != Part(Parse(text), true)
  {
    hide Render, Parse, Protected, MatchAt, FirstFailure, KeyOk, ScanFrom, Contained, LeftOpen, PairText, Followed, ProtectedShort;
    hide Exact, Join, PairTexts, Round;
    var (s, edits) := (PairText(e), Part(incoming, false));
    PartOf(incoming, false);
    AdminIsProtected();
    EditFirst(edits, e);
    var (b, rest) := (FirstFailure(s, 0), RestOf(PutAll(Plain(e), edits)));
    var n := |rest| + 1;
    var password := Password(s, b, n);
    PasswordOk(s, b, n);
    var file := Guarded(e, password);
    SafeFile2(e, password);
    SavePrints(Render(file), incoming);
    GuardedText(e, edits, password);
    ParsePrinted(PutAll(file, edits));
    Swallows(s, n, rest);
    GuardedPart(e, password);
    TooLong(Parse(Round(Render(file), incoming)), n, password);
  }

  lemma SafeFile2(e: Entry, password: string)
    requires KeyOk(e.key) && !Protected(e.key) && Exact(StrV(password))
    ensures Parse(Render(Guarded(e, password))) == Guarded(e, password) && FileOk(Guarded(e, password))
  {
    hide KeyOk, Protected;
    AdminIsProtected();
    SafeFile(Guarded(e, password));
  }

  lemma TooLong(after: Settings, n: nat, password: string)
    requires ProtectedShort(after, n) && |password| >= n
    ensures Part(after, true) != [Entry(ADMIN_KEY, StrV(password))]
  {
    hide Protected;
    AdminIsProtected();
    PartOf(after, true);
    if Part(after, true) != [] {
      assert Part(after, true)[0] in after;
    }
  }

  // One save under words keeps the administrative keys of every file that meets FileOk, entry for entry,
  // exactly when each of its public settings is contained: its printed pair, scanned by itself, stores
  // no protected key and leaves no token open
  lemma KeepsEveryFileIff(incoming: Settings)
    requires DistinctKeys(incoming)
    requires forall i :: 0 <= i < |incoming| && !Protected(incoming[i].key) ==> KeyOk(incoming[i].key)
    ensures (forall text :: FileOk(Parse(text)) ==> Part(Parse(Round(text, incoming)), true) == Part(Parse(text), true))
            <==> PublicContained(incoming)
  {
    hide Parse, Round, Protected, KeyOk, Contained, FileOk;
    if PublicContained(incoming) {
      forall text | FileOk(Parse(text)) ensures Part(Parse(Round(text, incoming)), true) == Part(Parse(text), true) {
        ContainedSaveKeeps(text, incoming);
      }
    } else {
      var i :| 0 <= i < |incoming| && !Protected(incoming[i].key) && !Contained(incoming[i]);
      SomeFileBreaks(incoming, i);
    }
  }

  lemma SomeFileBreaks(incoming: Settings, i: nat)
    requires DistinctKeys(incoming) && i < |incoming|
    requires !Protected(incoming[i].key) && KeyOk(incoming[i].key) && !Contained(incoming[i])
    ensures exists text :: FileOk(Parse(text)) && Part(Parse(Round(text, incoming)), true) != Part(Parse(text), true)
  {
    hide Parse, Round, Protected, KeyOk, Tame, Stored, FileOk, FirstFailure, MatchAt;
    var e := incoming[i];
    InPublicPart(incoming, i);
    FailureExists(PairText(e), 0);
    if Protected(MatchAt(PairText(e), FirstFailure(PairText(e), 0)).value.key) {
      PlainBreaks(incoming, e);
    } else {
      GuardedBreaks(incoming, e);
    }
  }

  lemma {:induction false} InPublicPart(d: Settings, i: nat)
    requires i < |d| && !Protected(d[i].key)
    ensures d[i] in Part(d, false)
  {
    if i < |d| - 1 { InPublicPart(d[..|d| - 1], i); }
  }

  // ---------- Any keys ----------

  // The edits of keys a file does not have yet: they are printed behind its own, in their order
  function New(edits: Settings, known: set<string>): Settings {
    if edits == [] then []
    else
      var (init, e) := (edits[..|edits| - 1], edits[|edits| - 1]);
      if e.key in known then New(init, known) else New(init, known) + [e]
  }

  ghost predicate Words(known: set<string>) { forall k :: k in known ==> KeyOk(k) }

  // What a file that knows these keys has printed at its end stores no protected key
  predicate TailPublic(incoming: Settings, known: set<string>) {
    NoneProtected(Stored(Join(PairTexts(New(Part(incoming, false), known))), 0))
  }

  predicate WordsContained(incoming: Settings) {
    forall i :: 0 <= i < |incoming| && !Protected(incoming[i].key) && KeyOk(incoming[i].key) ==> Contained(incoming[i])
  }

  function KeysOf(d: Settings): set<string> { set i | 0 <= i < |d| :: d[i].key }

  lemma {:induction false} PutAllSplit(d: Settings, edits: Settings)
    requires DistinctKeys(edits)
    ensures |PutAll(d, edits)| >= |d| && PutAll(d, edits)[|d|..] == New(edits, KeysOf(d))
    ensures forall i :: 0 <= i < |d| ==> PutAll(d, edits)[i].key == d[i].key
  {
    if edits != [] {
      hide Put, KeyOk, Protected;
      var (init, e) := (edits[..|edits| - 1], edits[|edits| - 1]);
      var was := PutAll(d, init);
      PutAllSplit(d, init);
      NewFrom(init, KeysOf(d));
      if i :| 0 <= i < |d| && d[i].key == e.key {
        assert was[i].key == e.key;
        PutInFront(was, |d|, e, i);
      } else {
        NotThere(was, |d|, init, KeysOf(d), e.key);
        PutNew(was, e.key, e.value);
        assert (was + [e])[|d|..] == was[|d|..] + [e];
      }
    }
  }

  lemma NotThere(d: Settings, n: nat, edits: Settings, known: set<string>, k: string)
    requires n <= |d| && d[n..] == New(edits, known)
    requires (forall i :: 0 <= i < n ==> d[i].key != k) && forall i :: 0 <= i < |edits| ==> edits[i].key != k
    ensures !HasKey(d, k)
  {
    hide New;
    NewFrom(edits, known);
    forall i | n <= i < |d| ensures d[i].key != k {
      assert d[i] == d[n..][i - n];
      assert d[i] in edits;
    }
  }

  lemma {:induction false} NewFrom(edits: Settings, known: set<string>)
    ensures forall i :: 0 <= i < |New(edits, known)| ==> New(edits, known)[i] in edits
  {
    if edits != [] {
      NewFrom(edits[..|edits| - 1], known);
    }
  }

  lemma {:induction false} PutInFront(d: Settings, n: nat, e: Entry, i: nat)
    requires i < n <= |d| && d[i].key == e.key
    ensures |Put(d, e.key, e.value)| == |d| && Put(d, e.key, e.value)[n..] == d[n..]
    ensures forall j :: 0 <= j < |d| ==> Put(d, e.key, e.value)[j].key == d[j].key
  {
    if d[0].key != e.key {
      PutInFront(d[1..], n - 1, e, i - 1);
    }
  }

  lemma {:induction false} SameNew(edits: Settings, a: set<string>, b: set<string>)
    requires forall i :: 0 <= i < |edits| ==> (edits[i].key in a <==> edits[i].key in b)
    ensures New(edits, a) == New(edits, b)
  {
    if edits != [] { SameNew(edits[..|edits| - 1], a, b); }
  }

  // What a save leaves in a file in front and at the end
  lemma FrontAndTail(file: Settings, incoming: Settings) returns (front: Settings)
    requires FileOk(file) && DistinctKeys(file) && (forall i :: 0 <= i < |file| ==> KeyOk(file[i].key))
    requires DistinctKeys(incoming) && WordsContained(incoming)
    ensures var edits := Part(incoming, false);
      && PutAll(file, edits) == front + New(edits, KeysOf(file))
      && NoneProtected(edits) && AllOk(front) && DistinctKeys(front)
  {
    hide KeyOk, Protected, Contained, Exact;
    var edits := Part(incoming, false);
    var d := PutAll(file, edits);
    PartOf(incoming, false);
    PutAllSplit(file, edits);
    PutAllDistinct(file, edits);
    front := d[..|file|];
    forall i | 0 <= i < |front| ensures EntryOk(front[i]) { PutAllEntries(file, edits, d[i]); }
  }

  // What is read after the save: the front keeps the protected part, and behind it the tail is stored
  lemma AfterSave(file: Settings, incoming: Settings) returns (read: Settings)
    requires FileOk(file) && DistinctKeys(file) && (forall i :: 0 <= i < |file| ==> KeyOk(file[i].key))
    requires DistinctKeys(incoming) && WordsContained(incoming)
    ensures var edits := Part(incoming, false);
      && Part(read, true) == Part(file, true)
      && Parse(Render(PutAll(file, edits))) == PutAll(read, Stored(Join(PairTexts(New(edits, KeysOf(file)))), 0))
  {
    hide KeyOk, Protected, Parse, Render, AllOk, AllTame, StoredAll, Stored, FileOk, WordsContained, PutAll, New, Part, Join, PairTexts;
    var edits := Part(incoming, false);
    var front := FrontAndTail(file, incoming);
    ProtectedStored(front);
    ReadInFront(front, New(edits, KeysOf(file)));
    ReadBackKeeps(front);
    FrontPart(file, edits, front);
    read := PutAll([], StoredAll(front));
  }

  lemma FrontPart(file: Settings, edits: Settings, front: Settings)
    requires PutAll(file, edits) == front + New(edits, KeysOf(file)) && NoneProtected(edits)
    ensures Part(front, true) == Part(file, true)
  {
    hide Protected, Part, New, PutAll;
    var tail := New(edits, KeysOf(file));
    NewFrom(edits, KeysOf(file));
    forall i | 0 <= i < |tail| ensures !Protected(tail[i].key) { assert tail[i] in edits; }
    PartNone(tail);
    PartPutAll(file, edits, true);
    PartConcat(front, tail, true);
  }

  // A file that holds nothing but those of these keys
  function Holding(edits: Settings, known: set<string>): Settings {
    if edits == [] then []
    else
      var (init, e) := (edits[..|edits| - 1], edits[|edits| - 1]);
      if e.key in known then Holding(init, known) + [Entry(e.key, BoolV(true))] else Holding(init, known)
  }

  lemma {:induction false} HoldingKeys(edits: Settings, known: set<string>)
    requires DistinctKeys(edits)
    ensures DistinctKeys(Holding(edits, known))
    ensures forall i :: 0 <= i < |Holding(edits, known)| ==>
      Holding(edits, known)[i].value == BoolV(true) && Holding(edits, known)[i].key in known && HasKey(edits, Holding(edits, known)[i].key)
    ensures forall i :: 0 <= i < |edits| && edits[i].key in known ==> HasKey(Holding(edits, known), edits[i].key)
  {
    if edits != [] {
      var (init, e) := (edits[..|edits| - 1], edits[|edits| - 1]);
      HoldingKeys(init, known);
      var (was, now) := (Holding(init, known), Holding(edits, known));
      forall i | 0 <= i < |was| ensures HasKey(edits, was[i].key) && was[i].key != e.key {
        var j :| 0 <= j < |init| && init[j].key == was[i].key;
        assert edits[j] == init[j];
      }
      forall i | 0 <= i < |edits| && edits[i].key in known ensures HasKey(now, edits[i].key) {
        if i < |init| {
          var j :| 0 <= j < |was| && was[j].key == init[i].key;
          assert now[j] == was[j];
        } else {
          assert now[|now| - 1].key == e.key;
        }
      }
    }
  }

  lemma {:induction false} PutAllHasKey(d: Settings, e: Settings, j: nat)
    requires j < |e|
    ensures HasKey(PutAll(d, e), e[j].key)
  {
    var n := |e| - 1;
    if j < n { PutAllHasKey(d, e[..n], j); }
    PutHasKey(PutAll(d, e[..n]), e[n].key, e[n].value, e[j].key);
  }

  // Without the keys in known the tail of the save introduces a protected key
  lemma TailBreaks(incoming: Settings, known: set<string>)
    requires DistinctKeys(incoming) && WordsContained(incoming) && Words(known) && !TailPublic(incoming, known)
    ensures var text := Render(Holding(Part(incoming, false), known));
      FileOk(Parse(text)) && Part(Parse(Round(text, incoming)), true) != Part(Parse(text), true)
  {
    hide KeyOk, Protected, Parse, Render, Round, Stored, FileOk, WordsContained, PutAll, New, Part, Join, PairTexts, Holding;
    var edits := Part(incoming, false);
    PartOf(incoming, false);
    HoldingKeys(edits, known);
    var file := Holding(edits, known);
    SafeFile(file);
    SavePrints(Render(file), incoming);
    var read := AfterSave(file, incoming);
    forall i | 0 <= i < |edits| ensures edits[i].key in KeysOf(file) <==> edits[i].key in known {}
    SameNew(edits, known, KeysOf(file));
    var stored := Stored(Join(PairTexts(New(edits, known))), 0);
    var j :| 0 <= j < |stored| && Protected(stored[j].key);
    PutAllHasKey(read, stored, j);
    KeyInPart(PutAll(read, stored), stored[j].key);
    PartNone(file);
  }

  // With keys that are no words a save keeps the administrative keys of every file exactly when its
  // settings under words are contained, and, whichever of those words a file has, the settings printed
  // behind its own store no protected key. A token they leave open does no harm at the end.
  lemma KeepsEveryFileAnyKeys(incoming: Settings)
    requires DistinctKeys(incoming)
    ensures (forall text :: FileOk(Parse(text)) ==> Part(Parse(Round(text, incoming)), true) == Part(Parse(text), true))
            <==> WordsContained(incoming) && forall known :: Words(known) ==> TailPublic(incoming, known)
  {
    hide Parse, Round, Protected, KeyOk, Contained, FileOk, Words, TailPublic;
    if !WordsContained(incoming) {
      var i :| 0 <= i < |incoming| && !Protected(incoming[i].key) && KeyOk(incoming[i].key) && !Contained(incoming[i]);
      SomeFileBreaks(incoming, i);
    } else if known :| Words(known) && !TailPublic(incoming, known) {
      TailBreaks(incoming, known);
    } else {
      forall text | FileOk(Parse(text)) ensures Part(Parse(Round(text, incoming)), true) == Part(Parse(text), true) {
        TailKeeps(text, incoming);
      }
    }
  }

  lemma TailKeeps(text: string, incoming: Settings)
    requires FileOk(Parse(text)) && DistinctKeys(incoming) && WordsContained(incoming)
    requires forall known :: Words(known) ==> TailPublic(incoming, known)
    ensures Part(Parse(Round(text, incoming)), true) == Part(Parse(text), true)
  {
    hide Parse, Render, Protected, KeyOk, FileOk, WordsContained, Stored, New, Join, PairTexts;
    var file := Parse(text);
    ParsedKeys(text);
    SavePrints(text, incoming);
    var read := AfterSave(file, incoming);
    assert Words(KeysOf(file));
    assert TailPublic(incoming, KeysOf(file));
    PartPutAll(read, Stored(Join(PairTexts(New(Part(incoming, false), KeysOf(file)))), 0), true);
  }

  // ---------- The file's half of the condition ----------

  // No pair of the file leaves a token open, and its public pairs are contained
  predicate FileTame(d: Settings) {
    forall i :: 0 <= i < |d| ==> if Protected(d[i].key) then Tame(PairText(d[i]), 0) else Contained(d[i])
  }

  predicate ProtectedLossless(d: Settings) { forall i :: 0 <= i < |d| && Protected(d[i].key) ==> Exact(d[i].value) }

  // A protected entry that is read comes from the pair of a protected entry: from its own when that is
  // safe, and from a longer one when that is cut
  lemma Origin(d: Settings, x: Entry) returns (j: nat)
    requires FileTame(d) && (forall i :: 0 <= i < |d| ==> Protected(d[i].key) ==> KeyOk(d[i].key))
    requires x in StoredAll(d) && Protected(x.key)
    ensures j < |d| && Protected(d[j].key) && x in Stored(PairText(d[j]), 0)
    ensures if Safe(d[j].value) then x == Entry(d[j].key, Norm(d[j].value)) else Weight(x) < Weight(d[j])
  {
    hide Protected, KeyOk, Safe, Weight, Stored, PairText, Tame, StoredAll, Norm;
    j := StoredAllFrom(d, x);
    if Protected(d[j].key) {
      StoredBy(d[j], x);
      if Safe(d[j].value) { SafeTame(d[j]); }
    }
  }

  lemma InFile(d: Settings, x: Entry) returns (i: nat)
    requires x in Part(d, true)
    ensures i < |d| && d[i] == x && Protected(x.key)
  {
    PartOf(d, true);
    var k :| 0 <= k < |Part(d, true)| && Part(d, true)[k] == x;
    assert x in d;
    i :| 0 <= i < |d| && d[i] == x;
  }

  // What is kept was safe ...
  lemma KeptIsSafe(d: Settings)
    requires FileTame(d) && DistinctKeys(d) && (forall i :: 0 <= i < |d| ==> Protected(d[i].key) ==> KeyOk(d[i].key))
    requires forall x :: x in Part(d, true) ==> x in StoredAll(d)
    ensures forall i :: 0 <= i < |d| && Protected(d[i].key) ==> Safe(d[i].value)
  {
    hide Protected, KeyOk, Safe, Weight, StoredAll, FileTame, Norm, Part, Stored, PairText;
    forall i | 0 <= i < |d| && Protected(d[i].key) ensures Safe(d[i].value) {
      if !Safe(d[i].value) {
        var p := Part(d, true);
        InPart(d, i);
        var k :| 0 <= k < |p| && p[k] == d[i];
        var top := HeaviestUnsafe(p, |p|, k);
        var n := InFile(d, p[top]);
        var j := Origin(d, p[top]);
        InPart(d, j);
      }
    }
  }

  // ... and exact
  lemma KeptIsExact(d: Settings)
    requires FileTame(d) && DistinctKeys(d) && (forall i :: 0 <= i < |d| ==> Protected(d[i].key) ==> KeyOk(d[i].key))
    requires forall x :: x in Part(d, true) ==> x in StoredAll(d)
    ensures ProtectedLossless(d)
  {
    hide Protected, KeyOk, Safe, StoredAll, FileTame, Norm;
    KeptIsSafe(d);
    forall i | 0 <= i < |d| && Protected(d[i].key) ensures Exact(d[i].value) {
      InPart(d, i);
      var j := Origin(d, d[i]);
    }
  }

  // A file whose public pairs are contained and whose protected pairs leave no token open: a contained
  // save, one of nothing included, keeps its protected part exactly when every protected value loses
  // nothing in printing
  lemma KeepsThisFileIff(text: string, incoming: Settings)
    requires FileTame(Parse(text)) && DistinctKeys(incoming) && PublicContained(incoming)
    ensures Part(Parse(Round(text, incoming)), true) == Part(Parse(text), true) <==> ProtectedLossless(Parse(text))
  {
    hide Parse, Render, Contained, Exact, KeyOk, Protected, Tame, Safe, StoredAll, PairText;
    var (file, edits) := (Parse(text), Part(incoming, false));
    if ProtectedLossless(file) {
      ContainedSaveKeeps(text, incoming);
    } else if Part(Parse(Round(text, incoming)), true) == Part(file, true) {
      SavePrints(text, incoming);
      ParsedKeys(text);
      var d := PutAll(file, edits);
      PartOf(incoming, false);
      forall i | 0 <= i < |d| ensures if Protected(d[i].key) then d[i] in file && Tame(PairText(d[i]), 0) && KeyOk(d[i].key) else Contained(d[i]) {
        PutAllEntries(file, edits, d[i]);
      }
      forall i | 0 <= i < |d| ensures Tame(PairText(d[i]), 0) {
        if !Protected(d[i].key) { ContainedIsTame(d[i]); }
      }
      TameReadBack(d);
      PartOf(Parse(Render(d)), true);
      forall x | x in Part(d, true) ensures x in StoredAll(d) {
        var k :| 0 <= k < |Part(d, true)| && Part(d, true)[k] == x;
        PutAllEntries([], StoredAll(d), x);
      }
      KeptIsExact(d);
      SameExact(file, d);
    }
  }

  lemma ContainedIsTame(e: Entry)
    requires Contained(e)
    ensures Tame(PairText(e), 0)
  {
  }

  lemma SameExact(a: Settings, b: Settings)
    requires Part(a, true) == Part(b, true) && ProtectedLossless(b)
    ensures ProtectedLossless(a)
  {
    hide Protected, Exact;
    forall i | 0 <= i < |a| && Protected(a[i].key) ensures Exact(a[i].value) {
      InPart(a, i);
      var j := InFile(b, a[i]);
    }
  }

  // The same over runs: with its public entries harmless, a file's protected part survives every run of
  // harmless saves exactly when its protected values lose nothing in printing
  lemma KeepsOverRunsIff(text: string)
    requires FileTame(Parse(text))
    requires forall i :: 0 <= i < |Parse(text)| && !Protected(Parse(text)[i].key) ==> Harmless(Parse(text)[i])
    ensures (forall saves :: (forall i :: 0 <= i < |saves| ==> SaveHarmless(saves[i])) ==>
               Part(Parse(Rounds(text, saves)), true) == Part(Parse(text), true))
            <==> ProtectedLossless(Parse(text))
  {
    hide Parse, Round, Protected, Exact, Harmless, FileTame;
    if ProtectedLossless(Parse(text)) {
      forall saves | forall i :: 0 <= i < |saves| ==> SaveHarmless(saves[i])
        ensures Part(Parse(Rounds(text, saves)), true) == Part(Parse(text), true)
      {
        ProtectedOverAnyRun(text, saves);
      }
    } else {
      var saves: seq<Settings> := [[]];
      KeepsThisFileIff(text, []);
      assert saves[..0] == [] && Rounds(text, saves) == Round(text, []);
      assert SaveHarmless(saves[0]);
    }
  }

  // A password with a bare quote, as the scanner takes it from a file written by hand
  const QUOTED := Entry(ADMIN_KEY, StrV("ab\"cd"))

  lemma QuotedIsTame()
    ensures Tame(PairText(QUOTED), 0) && !Exact(QUOTED.value)
  {
    hide MatchAt, Begin, OpenAt, KeyOk;
    AdminIsProtected();
    var (s, tail) := (PairText(QUOTED), "cd\"");
    assert QUOTED.value.s == "ab" + ("\"" + "cd") && QUOTED.value.s[2] == '"';
    assert s == ADMIN_KEY + "=" + ("\"" + "ab" + "\"" + tail);
    QuotedFirst(s, ADMIN_KEY, "ab", tail);
    FirstStored(s);
    var end := |ADMIN_KEY| + 5;
    forall j | end <= j < |s| ensures s[j] != '=' { assert s[j] == s[end..][j - end]; }
    NoEqualsNoMatch(s, end);
    OnlyFirst(s, end);
  }

  // The save of nothing changes it
  lemma QuoteInPassword()
    ensures var text := Framed(ADMIN_KEY + "=" + "ab\"cd");
      Part(Parse(text), true) == [QUOTED] && Part(Parse(Round(text, [])), true) != [QUOTED]
  {
    hide Round, Protected, KeyOk, Tame, Exact, Stored, ScanFrom;
    AdminIsProtected();
    var inner := ADMIN_KEY + "=" + "ab\"cd";
    PayloadOfFrame(inner);
    assert inner[0..] == inner && inner[|inner| - 1] == 'd';
    StripNothing(inner);
    NotANumber("ab\"cd");
    BareLast(inner, 0, ADMIN_KEY, "ab\"cd");
    ScanAlone(inner, []);
    PutAllFresh([QUOTED]);
    assert Parse(Framed(inner)) == [QUOTED];
    assert [QUOTED][..0] == [] && Part([QUOTED], true) == [] + [QUOTED];
    QuotedIsTame();
    KeepsThisFileIff(Framed(inner), []);
  }
}
