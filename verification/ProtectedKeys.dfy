/**
  When a save keeps the administrative keys (app/config_manager/pipeline.py:73-98 with the printer and
  the scanner of app/config_manager/parser.py:490-538). A public value is printed as it is, and a
  string that closes its own token may go on with text that reads as further settings.
*/
module ProtectedKeys {
  import opened Text
  import opened IniCodec
  import opened IniRoundTrip
  import opened IniWalk
  import opened ConfigPipeline

  predicate NoneProtected(d: Settings) { forall i :: 0 <= i < |d| ==> !Protected(d[i].key) }

  // The printed pair, scanned by itself, stores no protected key and leaves no token open
  predicate Contained(e: Entry) { Tame(PairText(e), 0) && NoneProtected(Stored(PairText(e), 0)) }

  // Protected values lose nothing in printing, and public ones keep to themselves
  predicate FileOk(d: Settings) {
    forall i :: 0 <= i < |d| ==> if Protected(d[i].key) then Exact(d[i].value) else Contained(d[i])
  }

  // ---------- The separator inside a value ----------

  // What one printed pair of the setting below reads as
  const READ: Settings := [Entry("ServerName", StrV("(x)")), Entry("AdminPassword", IntV(5)), Entry("b", StrV("(y)"))]

  // ServerName is (x),AdminPassword=5,b=(y)
  const WIDE := Entry("ServerName", StrV("(x)" + ("," + (PairText(READ[1]) + ("," + PairText(READ[2]))))))

  const ADMIN := Entry("AdminPassword", StrV("s"))

  // Two pairs too many are read from one parenthesised string, and one of them is protected: the key
  // is introduced into a file that has none, and changed in a file that has it
  lemma SeparatorInParentheses()
    ensures var text := Render([]);
      Part(Parse(text), true) == [] && Part(Parse(Round(text, [WIDE])), true) == [Entry("AdminPassword", IntV(5))]
    ensures var text := Render([ADMIN]);
      Part(Parse(text), true) == [ADMIN] && Part(Parse(Round(text, [WIDE])), true) == [Entry("AdminPassword", IntV(5))]
  {
    hide Parse, Render, Round;
    Words();
    RoundTrip([]);
    RoundTrip([ADMIN]);
    assert NormAll([]) == [] && NormAll([ADMIN]) == [ADMIN];
    SavePrints(Render([]), [WIDE]);
    SavePrints(Render([ADMIN]), [WIDE]);
    assert [WIDE][..0] == [] && [ADMIN][..0] == [];
    assert Part([WIDE], false) == [WIDE] && Part([ADMIN], true) == [ADMIN];
    PutNew([], WIDE.key, WIDE.value);
    PutNew([ADMIN], WIDE.key, WIDE.value);
    assert PutAll([], [WIDE]) == [WIDE] && PutAll([ADMIN], [WIDE]) == [ADMIN, WIDE];
    WideReads();
  }

  lemma Words()
    ensures KeyOk("ServerName") && KeyOk("AdminPassword") && KeyOk("b")
  {
  }

  lemma WideReads()
    ensures Part(Parse(Render([WIDE])), true) == [Entry("AdminPassword", IntV(5))]
    ensures Part(Parse(Render([ADMIN, WIDE])), true) == [Entry("AdminPassword", IntV(5))]
  {
    hide Parse, Render, KeyOk, PairText, StoredAll, Stored, ScanFrom, AllTame, Join, Put, Part;
    Words();
    WideText();
    SafeStored(READ);
    SafeStored([ADMIN] + READ);
    assert NormAll(READ) == READ && NormAll([ADMIN] + READ) == [ADMIN] + READ;
    TameReadBack(READ);
    TameReadBack([ADMIN] + READ);
    ParsePrinted(READ);
    ParsePrinted([ADMIN] + READ);
    ParsePrinted([WIDE]);
    ParsePrinted([ADMIN, WIDE]);
    PutAllFresh(READ);
    Overwritten();
  }

  lemma Sides()
    ensures Protected("AdminPassword") && !Protected("ServerName") && !Protected("b")
  {
  }

  lemma Overwritten()
    ensures Part(READ, true) == [Entry("AdminPassword", IntV(5))]
    ensures Part(PutAll([], [ADMIN] + READ), true) == [Entry("AdminPassword", IntV(5))]
  {
    hide Protected;
    Sides();
    var (a, b, c) := (READ[0], READ[1], READ[2]);
    assert a.key == "ServerName" && b.key == "AdminPassword" && c.key == "b";
    assert READ[..0] == [] && READ[..3] == READ;
    PartStep(READ, 0, true);
    PartStep(READ, 1, true);
    PartStep(READ, 2, true);
    assert [] + [b] == [b];
    PartPutBoth([], [ADMIN] + READ, true);
    PartConcat([ADMIN], READ, true);
    assert [ADMIN][..0] == [] && Part([ADMIN], true) == [ADMIN];
    LastStays(b);
  }

  lemma LastStays(b: Entry)
    requires b.key == ADMIN.key
    ensures PutAll([], [ADMIN] + [b]) == [b]
  {
    assert ([ADMIN] + [b])[..1] == [ADMIN] && [ADMIN][..0] == [];
    assert PutAll([], [ADMIN]) == [ADMIN];
  }

  // The text of the wide pair is the text of the three pairs it reads as
  lemma WideText()
    ensures Join(PairTexts([WIDE])) == Join(PairTexts(READ))
    ensures Join(PairTexts([ADMIN, WIDE])) == Join(PairTexts([ADMIN] + READ))
  {
    hide Join, PairTexts, PairText;
    var (a, b, c) := (READ[0], READ[1], READ[2]);
    JoinStep([WIDE]);
    JoinStep([ADMIN, WIDE]);
    JoinStep([ADMIN] + READ);
    JoinStep(READ);
    JoinStep([b, c]);
    JoinStep([c]);
    assert READ[1..] == [b, c] && [b, c][1..] == [c];
    assert [ADMIN, WIDE][1..] == [WIDE] && ([ADMIN] + READ)[1..] == READ;
    WidePair();
  }

  lemma WidePair()
    ensures PairText(WIDE) == PairText(READ[0]) + ("," + (PairText(READ[1]) + ("," + PairText(READ[2]))))
  {
    hide NatToString;
    var (s, c) := (WIDE.value.s, PairText(READ[2]));
    assert ValueText(READ[2].value) == "(y)" && ValueText(READ[0].value) == "(x)";
    assert c[|c| - 1] == ')' && s[|s| - 1] == c[|c| - 1] && s[0] == '(';
    assert ValueText(WIDE.value) == s;
  }

  // ---------- One dictionary, printed and read ----------

  lemma {:induction false} PartPutSame(d: Settings, k: string, v: Value, protected: bool)
    requires Protected(k) == protected
    ensures Part(Put(d, k, v), protected) == Put(Part(d, protected), k, v)
  {
    PartCons(Put(d, k, v), protected);
    if d == [] {
      assert Put(d, k, v)[1..] == [] && Part([], protected) == [];
    } else {
      PartCons(d, protected);
      if d[0].key == k {
        assert Put(d, k, v)[1..] == d[1..];
      } else {
        assert Put(d, k, v)[1..] == Put(d[1..], k, v);
        PartPutSame(d[1..], k, v, protected);
        if Protected(d[0].key) == protected {
          assert Part(d, protected) == [d[0]] + Part(d[1..], protected);
          assert Part(d, protected)[1..] == Part(d[1..], protected);
        } else {
          assert Part(d, protected) == Part(d[1..], protected);
        }
      }
    }
  }

  lemma {:induction false} PartPutBoth(d: Settings, e: Settings, protected: bool)
    ensures Part(PutAll(d, e), protected) == PutAll(Part(d, protected), Part(e, protected))
  {
    if e != [] {
      var (init, x) := (e[..|e| - 1], e[|e| - 1]);
      PartPutBoth(d, init, protected);
      if Protected(x.key) == protected {
        PartPutSame(PutAll(d, init), x.key, x.value, protected);
        PutAllStep(Part(d, protected), Part(init, protected), x);
      } else {
        PartPut(PutAll(d, init), x.key, x.value, protected);
      }
    }
  }

  lemma {:induction false} PutAllFresh(e: Settings)
    requires DistinctKeys(e)
    ensures PutAll([], e) == e
  {
    if e != [] {
      var (init, x) := (e[..|e| - 1], e[|e| - 1]);
      PutAllFresh(init);
      PutNew(init, x.key, x.value);
      assert e == init + [x];
    }
  }

  lemma {:induction false} PartConcat(a: Settings, b: Settings, protected: bool)
    ensures Part(a + b, protected) == Part(a, protected) + Part(b, protected)
  {
    if b == [] {
      assert a + b == a;
    } else {
      PartConcat(a, b[..|b| - 1], protected);
      assert (a + b)[..|a + b| - 1] == a + b[..|b| - 1];
    }
  }

  lemma {:induction false} PartNone(d: Settings)
    requires NoneProtected(d)
    ensures Part(d, true) == []
  {
    if d != [] { PartNone(d[..|d| - 1]); }
  }

  predicate EntryOk(e: Entry) { if Protected(e.key) then KeyOk(e.key) && Exact(e.value) else Contained(e) }

  predicate AllOk(d: Settings) { forall i :: 0 <= i < |d| ==> EntryOk(d[i]) }

  lemma OkStores(e: Entry)
    requires EntryOk(e)
    ensures Tame(PairText(e), 0) && Part(Stored(PairText(e), 0), true) == if Protected(e.key) then [e] else []
  {
    if Protected(e.key) {
      SafeTame(e);
      assert [e][..0] == [];
    } else {
      PartNone(Stored(PairText(e), 0));
    }
  }

  lemma {:induction false} ProtectedStored(d: Settings)
    requires AllOk(d)
    ensures AllTame(d) && Part(StoredAll(d), true) == Part(d, true)
  {
    if d != [] {
      hide EntryOk, Tame, Stored;
      OkStores(d[0]);
      ProtectedStored(d[1..]);
      PartCons(d, true);
      PartConcat(Stored(PairText(d[0]), 0), StoredAll(d[1..]), true);
      assert forall i :: 0 < i < |d| ==> d[i] == d[1..][i - 1];
    }
  }

  // Printing and reading keeps the protected part
  lemma ReadBackKeeps(d: Settings)
    requires AllOk(d) && DistinctKeys(d)
    ensures Part(Parse(Render(d)), true) == Part(d, true)
    ensures Parse(Render(d)) == PutAll([], StoredAll(d))
  {
    hide AllOk, AllTame, StoredAll, Parse, Render;
    ProtectedStored(d);
    TameReadBack(d);
    PartPutBoth([], StoredAll(d), true);
    PartOf(d, true);
    PutAllFresh(Part(d, true));
  }

  // What a save with good reads prints
  lemma SavePrints(text: string, incoming: Settings)
    requires DistinctKeys(incoming)
    ensures var d := PutAll(Parse(text), Part(incoming, false));
      Round(text, incoming) == Render(d) && DistinctKeys(d) && Part(d, true) == Part(Parse(text), true)
  {
    hide Parse, Render;
    ParsedKeys(text);
    MergeIsEdit(Parse(text), incoming);
    PutAllDistinct(Parse(text), Part(incoming, false));
    PartOf(incoming, false);
    PartPutAll(Parse(text), Part(incoming, false), true);
  }

  // The public entries of a save
  predicate PublicContained(incoming: Settings) {
    forall i :: 0 <= i < |incoming| && !Protected(incoming[i].key) ==> Contained(incoming[i])
  }

  lemma ContainedSaveKeeps(text: string, incoming: Settings)
    requires FileOk(Parse(text)) && DistinctKeys(incoming) && PublicContained(incoming)
    ensures Part(Parse(Round(text, incoming)), true) == Part(Parse(text), true)
  {
    hide Parse, Render, Contained, Exact, KeyOk;
    var (file, edits) := (Parse(text), Part(incoming, false));
    SavePrints(text, incoming);
    ParsedKeys(text);
    var d := PutAll(file, edits);
    PartOf(incoming, false);
    forall i | 0 <= i < |d| ensures EntryOk(d[i]) {
      PutAllEntries(file, edits, d[i]);
    }
    ReadBackKeeps(d);
  }

  // ---------- Any run of saves ----------

  // Contained, and so is every setting that is read in its place, and so on
  predicate Harmless(e: Entry)
    decreases Weight(e)
  {
    if KeyOk(e.key) && Safe(e.value) then true
    else
      StoredLighter(e);
      var stored := Stored(PairText(e), 0);
      Tame(PairText(e), 0) && forall j :: 0 <= j < |stored| ==> !Protected(stored[j].key) && Harmless(stored[j])
  }

  predicate FileHarmless(d: Settings) {
    forall i :: 0 <= i < |d| ==> if Protected(d[i].key) then Exact(d[i].value) else Harmless(d[i])
  }

  // A save a client may send without harm: words or not, its protected keys are ignored
  predicate SaveHarmless(incoming: Settings) {
    DistinctKeys(incoming) && forall i :: 0 <= i < |incoming| && !Protected(incoming[i].key) ==> Harmless(incoming[i])
  }

  lemma HarmlessContained(e: Entry)
    requires Harmless(e) && !Protected(e.key)
    ensures Contained(e)
  {
    hide Safe, KeyOk, Protected;
    if KeyOk(e.key) && Safe(e.value) { SafeTame(e); }
  }

  // What one entry leaves in the file is harmless again
  lemma HarmlessStores(e: Entry, x: Entry)
    requires if Protected(e.key) then KeyOk(e.key) && Exact(e.value) else Harmless(e)
    requires x in Stored(PairText(e), 0)
    ensures if Protected(x.key) then Exact(x.value) else Harmless(x)
  {
    hide Safe, KeyOk, Protected, Norm;
    if KeyOk(e.key) && Safe(e.value) {
      SafeTame(e);
      NormIdempotent(e.value);
      SafeOfExact(Norm(e.value));
    }
  }

  lemma SafeOfExact(v: Value)
    requires Exact(v)
    ensures Safe(v)
  {
  }

  // One harmless save keeps the protected part, and the file stays harmless
  lemma HarmlessSave(text: string, incoming: Settings)
    requires FileHarmless(Parse(text)) && SaveHarmless(incoming)
    ensures FileHarmless(Parse(Round(text, incoming)))
    ensures Part(Parse(Round(text, incoming)), true) == Part(Parse(text), true)
  {
    hide Parse, Render, Contained, Exact, KeyOk, Harmless, Stored, PairText, StoredAll;
    var (file, edits) := (Parse(text), Part(incoming, false));
    SavePrints(text, incoming);
    ParsedKeys(text);
    var d := PutAll(file, edits);
    PartOf(incoming, false);
    forall i | 0 <= i < |d|
      ensures EntryOk(d[i]) && if Protected(d[i].key) then KeyOk(d[i].key) && Exact(d[i].value) else Harmless(d[i])
    {
      PutAllEntries(file, edits, d[i]);
      if !Protected(d[i].key) { HarmlessContained(d[i]); }
    }
    ReadBackKeeps(d);
    var after := Parse(Render(d));
    forall j | 0 <= j < |after| ensures if Protected(after[j].key) then Exact(after[j].value) else Harmless(after[j]) {
      PutAllEntries([], StoredAll(d), after[j]);
      var i := StoredAllFrom(d, after[j]);
      HarmlessStores(d[i], after[j]);
    }
  }

  // Over any run of harmless saves the protected part of the file stays entry for entry what it was at
  // the start: no protected key is changed, dropped, moved among the others or introduced
  lemma {:induction false} ProtectedOverAnyRun(text: string, saves: seq<Settings>)
    requires FileHarmless(Parse(text)) && forall i :: 0 <= i < |saves| ==> SaveHarmless(saves[i])
    ensures FileHarmless(Parse(Rounds(text, saves))) && Part(Parse(Rounds(text, saves)), true) == Part(Parse(text), true)
  {
    hide Parse, Round, FileHarmless, SaveHarmless;
    if saves != [] {
      ProtectedOverAnyRun(text, saves[..|saves| - 1]);
      HarmlessSave(Rounds(text, saves[..|saves| - 1]), saves[|saves| - 1]);
    }
  }

  lemma {:induction false} NoEqualsNoMatch(s: string, i: nat)
    requires i <= |s| && forall j :: i <= j < |s| ==> s[j] != '='
    ensures Begin(s, i) == |s|
    decreases |s| - i
  {
    if i < |s| { NoEqualsNoMatch(s, i + 1); }
  }

  // A guard that is easy to check: a word for a key, and no equals sign in the string
  lemma {:induction false} NoEqualsIsHarmless(e: Entry)
    requires KeyOk(e.key) && !Protected(e.key) && e.value.StrV? && '=' !in e.value.s
    ensures Harmless(e)
    decreases |e.value.s|
  {
    hide Protected, KeyOk, Safe, ValueAt, Begin, Weight, MatchAt, PairText, ValueText, OpenAt;
    if !Safe(e.value) {
      var s := PairText(e);
      CutFirst(e);
      FirstStored(s);
      var m := MatchAt(s, 0).value;
      NoEqualsNoMatch(s, m.end);
      OnlyFirst(s, m.end);
      NoEqualsIsHarmless(Entry(m.key, m.value));
    }
  }

  lemma CutFirst(e: Entry)
    requires KeyOk(e.key) && e.value.StrV? && !Safe(e.value) && '=' !in e.value.s
    ensures var s := PairText(e);
      && MatchAt(s, 0).Some? && !LeftOpen(s, 0)
      && var m := MatchAt(s, 0).value;
         m.key == e.key && m.value.StrV? && '=' !in m.value.s && |m.value.s| < |e.value.s| && forall j :: m.end <= j < |s| ==> s[j] != '='
  {
    hide ValueAt, ValueText, Safe, KeyOk, OpenAt;
    var (s, p) := (PairText(e), |e.key| + 1);
    assert s[0..] == s && s == e.key + "=" + ValueText(e.value);
    KeyRead(s, 0, e.key, ValueText(e.value));
    Lengths(e);
    UnsafeCut(s, p, e.value);
    CutHasNoEquals(s, p, e.value);
  }

  lemma OnlyFirst(s: string, i: nat)
    requires i <= |s| && Begin(s, i) == |s|
    ensures Tame(s, i) && Stored(s, i) == []
  {
  }

  // Neither the cut string nor anything behind the first equals sign has another one
  lemma CutHasNoEquals(s: string, p: nat, v: Value)
    requires p <= |s| && s[p..] == ValueText(v) && v.StrV? && !Safe(v) && '=' !in v.s
    ensures !OpenAt(s, p) && forall j :: p <= j < |s| ==> s[j] != '='
    ensures ValueAt(s, p).Some? && ValueAt(s, p).value.value.StrV? && '=' !in ValueAt(s, p).value.value.s
  {
    hide Coerce, Strip, IndexOf;
    var t := ValueText(v);
    ValueCloses(s, p, v);
    assert forall j :: 0 <= j < |t| ==> t[j] != '=';
    assert forall j {:trigger s[j]} :: p <= j < |s| ==> s[j] == s[p..][j - p];
    assert s[p] == t[0] && (t[0] == '"' || t[0] == '(');
  }

  // ---------- One save more ----------

  // A string may keep to itself when it is printed, and yet leave another behind that does not
  const LATENT := Entry("ServerName", StrV("q\"y=a\"AdminPassword=x"))

  const LEFT := Entry("y", StrV("a\"AdminPassword=x\""))

  lemma BareAt(s: string, p: nat)
    requires p < |s| && s[p] != '"' && s[p] != '(' && ',' !in s[p..]
    requires !IsSpace(s[p]) && !IsSpace(s[|s| - 1])
    ensures ValueAt(s, p) == Some(Token(Coerce(s[p..]), |s|))
  {
    hide Coerce;
    forall j | p <= j < |s| ensures s[j] != ',' { assert s[j] == s[p..][j - p]; }
    IndexOfIs(s, ',', p, |s|);
    assert s[p..|s|] == s[p..];
    StripNothing(s[p..]);
  }

  // key="a"tail, with no quote in a
  lemma ClosedQuote(s: string, p: nat, q: nat)
    requires p < q < |s| && s[p] == '"' && s[q] == '"'
    ensures !OpenAt(s, p)
  {
    hide IndexOf;
    LastStops(s, p + 1, q);
  }

  lemma QuotedFirst(s: string, key: string, a: string, tail: string)
    requires KeyOk(key) && '"' !in a && s == key + "=" + ("\"" + a + "\"" + tail)
    ensures MatchAt(s, 0) == Some(Match(key, StrV(a), |key| + |a| + 3)) && !LeftOpen(s, 0) && s[|key| + |a| + 3..] == tail
  {
    hide ValueAt, OpenAt;
    var p := |key| + 1;
    assert s[0..] == s;
    KeyRead(s, 0, key, "\"" + a + "\"" + tail);
    assert s[p..] == "\"" + a + "\"" + tail;
    Piece(s, p, "\"" + a + "\"", tail);
    QuoteRead(s, p, a);
    assert s[p..p + |a| + 2][|a| + 1] == s[p + |a| + 1] && s[p..p + |a| + 2][0] == s[p];
    ClosedQuote(s, p, p + |a| + 1);
  }

  // key=raw behind a position, to the end
  lemma BareLast(s: string, p: nat, key: string, raw: string)
    requires p <= |s| && KeyOk(key) && s[p..] == key + "=" + raw && raw != ""
    requires raw[0] != '"' && raw[0] != '(' && ',' !in raw && !IsSpace(raw[0]) && !IsSpace(raw[|raw| - 1])
    ensures p < |s| && MatchAt(s, p) == Some(Match(key, Coerce(raw), |s|)) && !LeftOpen(s, p)
    ensures Stored(s, p) == [Entry(key, Coerce(raw))] && Tame(s, p)
  {
    hide Coerce, ValueAt;
    KeyRead(s, p, key, raw);
    var v := p + |key| + 1;
    assert s[v..] == raw && s[v] == raw[0] && s[|s| - 1] == raw[|raw| - 1];
    BareAt(s, v);
    assert Begin(s, p) == p && Begin(s, |s|) == |s|;
  }

  lemma LatentText()
    ensures PairText(LATENT) == "ServerName" + "=" + ("\"" + "q" + "\"" + ("y" + "=" + LEFT.value.s))
    ensures PairText(LEFT) == "y" + "=" + ("\"" + "a" + "\"" + ("AdminPassword" + "=" + "x\"\""))
  {
    assert LATENT.value.s == "q" + ("\"" + ("y" + ("=" + "a\"AdminPassword=x")));
    assert LEFT.value.s == "a" + ("\"" + ("AdminPassword" + ("=" + "x\"")));
  }

  lemma NotANumber(raw: string)
    requires raw != "" && 'a' <= raw[0] <= 'z' && '.' !in raw
    ensures Coerce(raw) == StrV(raw)
  {
  }

  // A pair whose string is cut at a quote, with one bare value behind
  lemma CutAndBare(e: Entry, a: string, key: string, raw: string)
    requires PairText(e) == e.key + "=" + ("\"" + a + "\"" + (key + "=" + raw))
    requires KeyOk(e.key) && KeyOk(key) && '"' !in a
    requires raw != "" && 'a' <= raw[0] <= 'z' && '.' !in raw && ',' !in raw && !IsSpace(raw[|raw| - 1])
    ensures Tame(PairText(e), 0) && Stored(PairText(e), 0) == [Entry(e.key, StrV(a)), Entry(key, StrV(raw))]
  {
    hide PairText, MatchAt, KeyOk, Coerce, LeftOpen;
    var s := PairText(e);
    QuotedFirst(s, e.key, a, key + "=" + raw);
    FirstStored(s);
    NotANumber(raw);
    BareLast(s, MatchAt(s, 0).value.end, key, raw);
  }

  // What the two pairs store
  lemma LatentStores()
    ensures Tame(PairText(LATENT), 0) && Stored(PairText(LATENT), 0) == [Entry("ServerName", StrV("q")), LEFT]
    ensures Tame(PairText(LEFT), 0) && Stored(PairText(LEFT), 0) == [Entry("y", StrV("a")), Entry("AdminPassword", StrV("x\"\""))]
  {
    hide PairText, Tame, Stored;
    LatentText();
    Words();
    assert KeyOk("y");
    CutAndBare(LATENT, "q", "y", LEFT.value.s);
    CutAndBare(LEFT, "a", "AdminPassword", "x\"\"");
  }

  lemma LatentSides()
    ensures !Protected("ServerName") && !Protected("y") && Protected("AdminPassword")
    ensures KeyOk("ServerName") && KeyOk("y") && !Safe(LATENT.value) && !Safe(LEFT.value)
  {
    assert LATENT.value.s[1] == '"' && LEFT.value.s[1] == '"';
  }

  // One save with LATENT keeps the keys of every file, but it is not harmless
  lemma OneSaveIsNotEnough()
    ensures Contained(LATENT) && !Harmless(LATENT)
  {
    hide PairText, Tame, Stored, Protected, KeyOk, Safe;
    LatentStores();
    LatentSides();
    assert Stored(PairText(LEFT), 0)[1].key == "AdminPassword";
    assert Stored(PairText(LATENT), 0)[1] == LEFT;
  }

  const FIRST := Entry("ServerName", StrV("q"))

  lemma FirstSave()
    ensures Parse(Render([])) == [] && Parse(Round(Render([]), [LATENT])) == [FIRST, LEFT]
  {
    hide PairText, Tame, Stored, Parse, Render, Round, KeyOk, Safe, Protected;
    LatentSides();
    LatentStores();
    RoundTrip([]);
    SavePrints(Render([]), [LATENT]);
    assert [LATENT][..0] == [] && [LATENT][1..] == [] && Part([LATENT], false) == [] + [LATENT] == [LATENT];
    PutAllFresh([LATENT]);
    TameReadBack([LATENT]);
    assert StoredAll([LATENT]) == [FIRST, LEFT] + StoredAll([]) == [FIRST, LEFT];
    PutAllFresh([FIRST, LEFT]);
  }

  const READ_THEN: Settings := [FIRST, Entry("y", StrV("a")), Entry("AdminPassword", StrV("x\"\""))]

  lemma SecondSave(text: string)
    requires Parse(text) == [FIRST, LEFT]
    ensures Parse(Round(text, [])) == READ_THEN
  {
    hide PairText, Tame, Stored, Parse, Render, Round, KeyOk, Protected;
    LatentSides();
    LatentStores();
    var d := [FIRST, LEFT];
    SavePrints(text, []);
    assert Part([], false) == [] && PutAll(d, []) == d;
    SafeTame(FIRST);
    TameReadBack(d);
    assert d[1..] == [LEFT] && [LEFT][1..] == [];
    assert StoredAll([LEFT]) == [READ_THEN[1], READ_THEN[2]] + StoredAll([]) == [READ_THEN[1], READ_THEN[2]];
    assert StoredAll(d) == [FIRST] + [READ_THEN[1], READ_THEN[2]] == READ_THEN;
    PutAllFresh(READ_THEN);
  }

  // Into an empty file it brings nothing protected, but the next save, of nothing at all, does
  lemma TheNextSaveBreaks()
    ensures var (text, saves) := (Render([]), [[LATENT], []]);
      Part(Parse(Rounds(text, saves[..1])), true) == Part(Parse(text), true) != Part(Parse(Rounds(text, saves)), true)
  {
    hide Parse, Render, Round, Protected;
    var (text, saves) := (Render([]), [[LATENT], []]);
    assert saves[..1] == [[LATENT]] && [[LATENT]][..0] == [];
    assert Rounds(text, [[LATENT]]) == Round(text, [LATENT]);
    FirstSave();
    SecondSave(Round(text, [LATENT]));
    LatentSides();
    PartNone([FIRST, LEFT]);
    InPart(READ_THEN, 2);
  }
}
