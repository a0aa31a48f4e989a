/**
  The protected merge (app/config_manager/pipeline.py): web edits are merged into the live file, and
  the administrative keys keep their values over any run of saves.
*/
module ConfigPipeline {
  import opened Text
  import opened IniCodec
  import opened IniRoundTrip
  import opened IniWalk

  const PROTECTED_ADMIN_KEYS: set<string> := {
    "AdminPassword", "ServerPassword", "BanListURL", "PublicPort", "PublicIP",
    "RCONEnabled", "RCONPort", "RESTAPIEnabled", "RESTAPIPort", "bUseAuth"
  }

  predicate Protected(k: string) { k in PROTECTED_ADMIN_KEYS }

  // The entries whose keys are protected, or are not
  function Part(d: Settings, protected: bool): Settings {
    if d == [] then []
    else
      var e := d[|d| - 1];
      var rest := Part(d[..|d| - 1], protected);
      if Protected(e.key) == protected then rest + [e] else rest
  }

  function Merged(full: Settings, incoming: Settings, liveProtected: Settings): Settings {
    PutAll(PutAll(full, Part(incoming, false)), liveProtected)
  }

  // parse_ini_file on the pipeline's path: a missing or unreadable file reads as an empty dictionary
  function ReadSettings(file: Option<string>, readable: bool): Settings {
    if file.Some? && readable then Parse(file.value) else []
  }

  // The settings a merge prints. The file is read twice, and either read may fail.
  function MergeOf(file: Option<string>, incoming: Settings, firstRead: bool, secondRead: bool): Settings {
    Merged(ReadSettings(file, secondRead), incoming, Part(ReadSettings(file, firstRead), true))
  }

  class Pipeline {
    var iniFile: Option<string>  // the text at ini_path, None when there is no file

    constructor (file: Option<string>)
      ensures iniFile == file
    {
      iniFile := file;
    }

    // None stands for FileNotFoundError
    method ReadToJson(readable: bool) returns (views: Option<(Settings, Settings)>)
      ensures views.None? <==> iniFile.None?
      ensures views.Some? ==>
        views.value == (Part(ReadSettings(iniFile, readable), false), Part(ReadSettings(iniFile, readable), true))
    {
      if iniFile.None? {
        return None;
      }
      var full: Settings := [];
      if readable {
        full := ParseIniText(iniFile.value);
      }
      views := Some((Part(full, false), Part(full, true)));
    }

    method MergeAndSerialize(incoming: Settings, firstRead: bool, secondRead: bool) returns (text: string)
      ensures text == Render(MergeOf(iniFile, incoming, firstRead, secondRead))
    {
      var liveProtected: Settings := [];
      var liveFull: Settings := [];
      if iniFile.Some? {
        var views := ReadToJson(firstRead);
        liveProtected := views.value.1;
        if secondRead {
          liveFull := ParseIniText(iniFile.value);
        }
      }
      ghost var full := liveFull;
      for i := 0 to |incoming|
        invariant liveFull == PutAll(full, Part(incoming[..i], false))
      {
        PartStep(incoming, i, false);
        if incoming[i].key !in PROTECTED_ADMIN_KEYS {
          PutAllStep(full, Part(incoming[..i], false), incoming[i]);
          liveFull := Put(liveFull, incoming[i].key, incoming[i].value);
        }
      }
      assert incoming[..|incoming|] == incoming;
      ghost var edited := liveFull;
      for i := 0 to |liveProtected|
        invariant liveFull == PutAll(edited, liveProtected[..i])
      {
        assert liveProtected[..i + 1] == liveProtected[..i] + [liveProtected[i]];
        PutAllStep(edited, liveProtected[..i], liveProtected[i]);
        liveFull := Put(liveFull, liveProtected[i].key, liveProtected[i].value);
      }
      assert liveProtected[..|liveProtected|] == liveProtected;
      text := SerializeIniSettings(liveFull);
    }

    // The write is atomic: when it fails the file stays as it was
    method SaveAndSerialize(incoming: Settings, firstRead: bool, secondRead: bool, written: bool)
      modifies this
      ensures iniFile == if written then Some(Render(MergeOf(old(iniFile), incoming, firstRead, secondRead)))
                         else old(iniFile)
    {
      var text := MergeAndSerialize(incoming, firstRead, secondRead);
      if written {
        iniFile := Some(text);
      }
    }
  }

  lemma PartStep(d: Settings, i: nat, protected: bool)
    requires i < |d|
    ensures Part(d[..i + 1], protected)
         == if Protected(d[i].key) == protected then Part(d[..i], protected) + [d[i]] else Part(d[..i], protected)
  {
    assert d[..i + 1][..i] == d[..i];
  }

  // ---------- The dictionary operations ----------

  lemma {:induction false} LookupPut(d: Settings, k: string, v: Value, q: string)
    ensures Lookup(Put(d, k, v), q) == if q == k then Some(v) else Lookup(d, q)
  {
    if d != [] && d[0].key != k { LookupPut(d[1..], k, v, q); }
  }

  lemma {:induction false} LookupHasKey(d: Settings, k: string)
    ensures Lookup(d, k).Some? <==> HasKey(d, k)
  {
    if d != [] {
      LookupHasKey(d[1..], k);
      if HasKey(d, k) && d[0].key != k {
        var i :| 0 <= i < |d| && d[i].key == k;
        assert d[1..][i - 1].key == k;
      }
      if HasKey(d[1..], k) {
        var i :| 0 <= i < |d[1..]| && d[1..][i].key == k;
        assert d[i + 1].key == k;
      }
    }
  }

  lemma {:induction false} LookupAt(d: Settings, i: nat)
    requires DistinctKeys(d) && i < |d|
    ensures Lookup(d, d[i].key) == Some(d[i].value)
  {
    if i > 0 {
      assert d[0].key != d[i].key;
      LookupAt(d[1..], i - 1);
    }
  }

  lemma {:induction false} LookupSnoc(d: Settings, e: Entry, q: string)
    ensures Lookup(d + [e], q) == if Lookup(d, q).Some? then Lookup(d, q)
                                  else if q == e.key then Some(e.value) else None
  {
    if d != [] {
      assert (d + [e])[1..] == d[1..] + [e];
      LookupSnoc(d[1..], e, q);
    }
  }

  lemma {:induction false} PutSame(d: Settings, k: string, v: Value)
    requires Lookup(d, k) == Some(v)
    ensures Put(d, k, v) == d
  {
    if d[0].key != k { PutSame(d[1..], k, v); }
  }

  lemma {:induction false} PutKeys(d: Settings, k: string, v: Value)
    ensures |d| <= |Put(d, k, v)| <= |d| + 1
    ensures forall i :: 0 <= i < |d| ==> Put(d, k, v)[i] == if d[i].key == k && Lookup(d[..i], k).None? then Entry(k, v) else d[i]
    ensures |Put(d, k, v)| > |d| ==> !HasKey(d, k) && Put(d, k, v)[|d|] == Entry(k, v)
  {
    if d != [] && d[0].key != k {
      PutKeys(d[1..], k, v);
      forall i | 0 < i < |d|
        ensures Put(d, k, v)[i] == if d[i].key == k && Lookup(d[..i], k).None? then Entry(k, v) else d[i]
      {
        assert d[..i][1..] == d[1..][..i - 1];
        assert Put(d, k, v)[i] == Put(d[1..], k, v)[i - 1];
      }
      if |Put(d, k, v)| > |d| && HasKey(d, k) {
        LookupHasKey(d, k);
        LookupHasKey(d[1..], k);
      }
    } else if d != [] {
      forall i | 0 < i < |d| ensures Lookup(d[..i], k).Some? {
        assert d[..i][0] == d[0];
      }
    }
  }

  lemma {:induction false} PutDistinct(d: Settings, k: string, v: Value)
    requires DistinctKeys(d)
    ensures DistinctKeys(Put(d, k, v))
  {
    hide Put, Lookup;
    PutKeys(d, k, v);
    var r := Put(d, k, v);
    forall i, j | 0 <= i < j < |r| ensures r[i].key != r[j].key {
      assert r[i].key == d[i].key;
      if j == |d| { assert !HasKey(d, k); }
    }
  }

  lemma {:induction false} PutAllDistinct(d: Settings, e: Settings)
    requires DistinctKeys(d)
    ensures DistinctKeys(PutAll(d, e))
  {
    if e != [] {
      PutAllDistinct(d, e[..|e| - 1]);
      PutDistinct(PutAll(d, e[..|e| - 1]), e[|e| - 1].key, e[|e| - 1].value);
    }
  }

  // The keys of whatever is read are words, once each
  lemma ParsedKeys(content: string)
    ensures DistinctKeys(Parse(content)) && forall i :: 0 <= i < |Parse(content)| ==> KeyOk(Parse(content)[i].key)
  {
    match Payload(content)
    case None =>
    case Some(group) =>
      var s := Strip(group);
      ScanAlone(s, []);
      StoredKeys(s, 0);
      PutAllDistinct([], Stored(s, 0));
      forall i | 0 <= i < |Parse(content)| ensures KeyOk(Parse(content)[i].key) {
        PutAllEntries([], Stored(s, 0), Parse(content)[i]);
      }
  }

  lemma PutSafe(d: Settings, k: string, v: Value)
    requires SafeSettings(d) && KeyOk(k) && Safe(v)
    ensures SafeSettings(Put(d, k, v))
  {
    hide Safe, KeyOk, Put, Lookup;
    PutKeys(d, k, v);
    var r := Put(d, k, v);
    forall i, j | 0 <= i < j < |r| ensures r[i].key != r[j].key {
      assert r[i].key == d[i].key;
      if j == |d| { assert !HasKey(d, k); }
    }
  }

  // A public edit leaves the protected entries where they are, and the other way round
  lemma {:induction false} PartPut(d: Settings, k: string, v: Value, protected: bool)
    requires Protected(k) != protected
    ensures Part(Put(d, k, v), protected) == Part(d, protected)
  {
    if d != [] {
      PartCons(d, protected);
      PartCons(Put(d, k, v), protected);
      if d[0].key != k {
        PartPut(d[1..], k, v, protected);
      } else {
        assert Put(d, k, v)[1..] == d[1..];
      }
    } else {
      assert Put(d, k, v)[..0] == [];
    }
  }

  lemma {:induction false} PartCons(d: Settings, protected: bool)
    requires d != []
    ensures Part(d, protected) == (if Protected(d[0].key) == protected then [d[0]] else []) + Part(d[1..], protected)
  {
    var n := |d| - 1;
    if n > 0 {
      PartCons(d[..n], protected);
      assert d[..n][1..] == d[1..][..n - 1];
    } else {
      assert d[..0] == [];
    }
  }

  lemma {:induction false} PartPutAll(d: Settings, e: Settings, protected: bool)
    requires forall i :: 0 <= i < |e| ==> Protected(e[i].key) != protected
    ensures Part(PutAll(d, e), protected) == Part(d, protected)
  {
    if e != [] {
      var n := |e| - 1;
      PartPutAll(d, e[..n], protected);
      PartPut(PutAll(d, e[..n]), e[n].key, e[n].value, protected);
    }
  }

  // The entries of a part are entries of the whole, in order
  lemma {:induction false} PartOf(d: Settings, protected: bool)
    ensures forall i :: 0 <= i < |Part(d, protected)| ==>
      Protected(Part(d, protected)[i].key) == protected && Part(d, protected)[i] in d
    ensures DistinctKeys(d) ==> DistinctKeys(Part(d, protected))
  {
    if d != [] { PartOf(d[..|d| - 1], protected); }
  }

  lemma {:induction false} LookupPart(d: Settings, protected: bool, q: string)
    ensures Lookup(Part(d, protected), q) == if Protected(q) == protected then Lookup(d, q) else None
  {
    if d != [] {
      var n := |d| - 1;
      LookupPart(d[..n], protected, q);
      LookupSnoc(d[..n], d[n], q);
      assert d[..n] + [d[n]] == d;
      if Protected(d[n].key) == protected {
        LookupSnoc(Part(d[..n], protected), d[n], q);
      }
    }
  }

  lemma {:induction false} LookupPutAll(d: Settings, e: Settings, q: string)
    requires DistinctKeys(e)
    ensures Lookup(PutAll(d, e), q) == if Lookup(e, q).Some? then Lookup(e, q) else Lookup(d, q)
  {
    if e != [] {
      var n := |e| - 1;
      LookupPutAll(d, e[..n], q);
      LookupPut(PutAll(d, e[..n]), e[n].key, e[n].value, q);
      LookupSnoc(e[..n], e[n], q);
      assert e[..n] + [e[n]] == e;
      LookupHasKey(e[..n], e[n].key);
    }
  }

  lemma {:induction false} PutAllSafe(d: Settings, e: Settings)
    requires SafeSettings(d) && forall i :: 0 <= i < |e| ==> KeyOk(e[i].key) && Safe(e[i].value)
    ensures SafeSettings(PutAll(d, e))
  {
    if e != [] {
      PutAllSafe(d, e[..|e| - 1]);
      PutSafe(PutAll(d, e[..|e| - 1]), e[|e| - 1].key, e[|e| - 1].value);
    }
  }

  // Writing entries a dictionary already holds changes nothing
  lemma {:induction false} PutAllSame(d: Settings, e: Settings)
    requires forall i :: 0 <= i < |e| ==> Lookup(d, e[i].key) == Some(e[i].value)
    ensures PutAll(d, e) == d
  {
    if e != [] {
      PutAllSame(d, e[..|e| - 1]);
      PutSame(d, e[|e| - 1].key, e[|e| - 1].value);
    }
  }

  // ---------- One merge ----------

  // Where every key of a merge takes its value from
  lemma MergedLookup(full: Settings, incoming: Settings, liveProtected: Settings, k: string)
    requires DistinctKeys(incoming) && DistinctKeys(liveProtected)
    requires forall i :: 0 <= i < |liveProtected| ==> Protected(liveProtected[i].key)
    ensures var newer := if Protected(k) then Lookup(liveProtected, k) else Lookup(incoming, k);
      Lookup(Merged(full, incoming, liveProtected), k) == if newer.Some? then newer else Lookup(full, k)
  {
    var edits := Part(incoming, false);
    PartOf(incoming, false);
    LookupPutAll(full, edits, k);
    LookupPutAll(PutAll(full, edits), liveProtected, k);
    LookupPart(incoming, false, k);
    LookupHasKey(liveProtected, k);
  }

  // With both reads good, the second loop only rewrites what is there
  lemma MergeIsEdit(full: Settings, incoming: Settings)
    requires DistinctKeys(full) && DistinctKeys(incoming)
    ensures Merged(full, incoming, Part(full, true)) == PutAll(full, Part(incoming, false))
  {
    var edits, prot := Part(incoming, false), Part(full, true);
    PartOf(incoming, false);
    PartOf(full, true);
    forall i | 0 <= i < |prot| ensures Lookup(PutAll(full, edits), prot[i].key) == Some(prot[i].value) {
      LookupPutAll(full, edits, prot[i].key);
      LookupPart(incoming, false, prot[i].key);
      LookupPart(full, true, prot[i].key);
      LookupAt(prot, i);
    }
    PutAllSame(PutAll(full, edits), prot);
  }

  lemma {:induction false} PartOfFreshPuts(d: Settings, e: Settings, protected: bool)
    requires DistinctKeys(e) && Part(d, protected) == []
    requires forall i :: 0 <= i < |e| ==> Protected(e[i].key) == protected
    ensures Part(PutAll(d, e), protected) == e
  {
    if e != [] {
      var n := |e| - 1;
      var x := PutAll(d, e[..n]);
      PartOfFreshPuts(d, e[..n], protected);
      LookupPart(x, protected, e[n].key);
      LookupHasKey(x, e[n].key);
      LookupHasKey(e[..n], e[n].key);
      PutNew(x, e[n].key, e[n].value);
      var y := x + [Entry(e[n].key, e[n].value)];
      assert y[..|x|] == x;
      assert e[..n] + [e[n]] == e;
    } else {
      assert PutAll(d, e) == d;
    }
  }

  // A merge of an existing file keeps the protected part exactly when one of its two reads
  // succeeds, or there is nothing to protect. When both fail, the administrative keys are gone.
  lemma ProtectedKeptIff(text: string, incoming: Settings, firstRead: bool, secondRead: bool)
    requires DistinctKeys(incoming)
    ensures Part(MergeOf(Some(text), incoming, firstRead, secondRead), true) == Part(Parse(text), true)
      <==> firstRead || secondRead || Part(Parse(text), true) == []
  {
    hide Parse;
    ParsedKeys(text);
    var live := Parse(text);
    var edits := Part(incoming, false);
    PartOf(incoming, false);
    PartOf(live, true);
    var full := if secondRead then live else [];
    PartPutAll(full, edits, true);
    if firstRead && secondRead {
      MergeIsEdit(live, incoming);
    } else if firstRead {
      PartOfFreshPuts(PutAll([], edits), Part(live, true), true);
    }
  }

  // ---------- Any run of saves ----------

  // The file after one save with good reads and a good write
  function Round(text: string, incoming: Settings): string {
    Render(MergeOf(Some(text), incoming, true, true))
  }

  function Rounds(text: string, saves: seq<Settings>): string {
    if saves == [] then text else Round(Rounds(text, saves[..|saves| - 1]), saves[|saves| - 1])
  }

  // The value the last save that set k gave it
  function LastSet(saves: seq<Settings>, k: string): Option<Value> {
    if saves == [] then None
    else
      var v := Lookup(saves[|saves| - 1], k);
      if v.Some? then v else LastSet(saves[..|saves| - 1], k)
  }

  // A save whose public keys are words and whose public strings do not close their own token. Its
  // protected entries are ignored, so they may hold anything.
  predicate GoodSave(d: Settings) {
    DistinctKeys(d) && forall i :: 0 <= i < |d| && !Protected(d[i].key) ==> KeyOk(d[i].key) && Safe(d[i].value)
  }

  function Shown(v: Option<Value>): Option<Value> {
    match v case None => None case Some(x) => Some(Norm(x))
  }

  lemma {:induction false} LookupNormAll(d: Settings, k: string)
    ensures Lookup(NormAll(d), k) == Shown(Lookup(d, k))
  {
    if d != [] {
      assert NormAll(d)[1..] == NormAll(d[1..]);
      LookupNormAll(d[1..], k);
    }
  }

  lemma {:induction false} PartNormAll(d: Settings)
    ensures Part(NormAll(d), true) == NormAll(Part(d, true))
  {
    if d != [] {
      var n := |d| - 1;
      assert NormAll(d)[..n] == NormAll(d[..n]);
      PartNormAll(d[..n]);
    }
  }

  // Every protected entry of d is an entry of its protected part
  lemma {:induction false} InPart(d: Settings, i: nat)
    requires i < |d| && Protected(d[i].key)
    ensures d[i] in Part(d, true)
  {
    if i < |d| - 1 { InPart(d[..|d| - 1], i); }
  }

  // The value a save asks for: the edit of a public key, or what the file holds
  function Asked(before: Settings, incoming: Settings, k: string): Option<Value> {
    if !Protected(k) && Lookup(incoming, k).Some? then Lookup(incoming, k) else Lookup(before, k)
  }

  lemma AskedOfMerge(before: Settings, incoming: Settings)
    requires DistinctKeys(before) && DistinctKeys(incoming)
    ensures var merged := PutAll(before, Part(incoming, false));
      && DistinctKeys(merged) && Part(merged, true) == Part(before, true)
      && Merged(before, incoming, Part(before, true)) == merged
      && forall k :: Lookup(merged, k) == Asked(before, incoming, k)
  {
    hide PutAll, Put, Lookup, Protected;
    var edits := Part(incoming, false);
    MergeIsEdit(before, incoming);
    PartOf(incoming, false);
    PutAllDistinct(before, edits);
    PartPutAll(before, edits, true);
    forall k ensures Lookup(PutAll(before, edits), k) == Asked(before, incoming, k) {
      LookupPutAll(before, edits, k);
      LookupPart(incoming, false, k);
    }
  }

  lemma NormTwice(d: Settings)
    ensures NormAll(NormAll(d)) == NormAll(d)
  {
    hide Norm;
    forall i | 0 <= i < |d| ensures NormAll(NormAll(d))[i] == NormAll(d)[i] { NormIdempotent(d[i].value); }
  }

  // One save: what is read back afterwards
  lemma RoundEffect(text: string, incoming: Settings)
    requires SafeSettings(Parse(text)) && GoodSave(incoming)
    ensures var before, after := Parse(text), Parse(Round(text, incoming));
      && SafeSettings(after)
      && Part(after, true) == NormAll(Part(before, true))
      && forall k :: Lookup(after, k) == Shown(Asked(before, incoming, k))
  {
    hide Parse, Render, Safe, KeyOk, Norm, PutAll, Put, Lookup, Asked, Shown;
    var before := Parse(text);
    var edits := Part(incoming, false);
    var merged := PutAll(before, edits);
    PartOf(incoming, false);
    PutAllSafe(before, edits);
    AskedOfMerge(before, incoming);
    RoundTrip(merged);
    SecondRoundTrip(merged);
    PartNormAll(merged);
    forall k ensures Lookup(NormAll(merged), k) == Shown(Asked(before, incoming, k)) { LookupNormAll(merged, k); }
  }

  // Every pair a save prints closes its tokens, and its keys are words
  predicate Closed(text: string, incoming: Settings) {
    && DistinctKeys(incoming)
    && AllTame(PutAll(Parse(text), Part(incoming, false)))
    && forall i :: 0 <= i < |incoming| && !Protected(incoming[i].key) ==> KeyOk(incoming[i].key)
  }

  // Such a save is read back as it was asked for, key for key and up to what printing drops, exactly
  // when no value it prints closes its own token early
  lemma TakenIff(text: string, incoming: Settings)
    requires Closed(text, incoming)
    ensures var merged := PutAll(Parse(text), Part(incoming, false));
      (forall k :: Lookup(Parse(Round(text, incoming)), k) == Shown(Asked(Parse(text), incoming, k)))
      <==> forall i :: 0 <= i < |merged| ==> Safe(merged[i].value)
  {
    hide Parse, Render, Safe, KeyOk, AllTame, PutAll, Lookup, Asked, Protected;
    var before := Parse(text);
    var merged := PutAll(before, Part(incoming, false));
    ParsedKeys(text);
    AskedOfMerge(before, incoming);
    PartOf(incoming, false);
    forall i | 0 <= i < |merged| ensures KeyOk(merged[i].key) { PutAllEntries(before, Part(incoming, false), merged[i]); }
    if k :| 0 <= k < |merged| && !Safe(merged[k].value) {
      var top := HeaviestUnsafe(merged, |merged|, k);
      CutIsLost(merged, top);
    } else {
      RoundTrip(merged);
      forall k ensures Lookup(NormAll(merged), k) == Shown(Asked(before, incoming, k)) { LookupNormAll(merged, k); }
    }
  }

  // The heaviest string that is cut is not read back under its key
  lemma CutIsLost(d: Settings, top: nat)
    requires AllTame(d) && DistinctKeys(d) && (forall i :: 0 <= i < |d| ==> KeyOk(d[i].key)) && top < |d| && !Safe(d[top].value)
    requires forall i :: 0 <= i < |d| && !Safe(d[i].value) ==> Weight(d[i]) <= Weight(d[top])
    ensures Lookup(d, d[top].key) == Some(d[top].value)
    ensures Lookup(Parse(Render(d)), d[top].key) != Some(Norm(d[top].value))
  {
    hide Parse, Render, Safe, KeyOk, AllTame, Lookup, StoredAll, Stored, PairText;
    LookupAt(d, top);
    TameReadBack(d);
    var (e, after) := (d[top], Parse(Render(d)));
    if Lookup(after, e.key) == Some(Norm(e.value)) {
      var x := LookupIn(after, e.key);
      PutAllEntries([], StoredAll(d), x);
      var j := StoredAllFrom(d, x);
      SameWeight(e);
      StoredBy(d[j], x);
    }
  }

  lemma {:induction false} LookupIn(d: Settings, k: string) returns (x: Entry)
    requires Lookup(d, k).Some?
    ensures x in d && x == Entry(k, Lookup(d, k).value)
  {
    if d[0].key == k { x := d[0]; } else { x := LookupIn(d[1..], k); }
  }

  lemma SameWeight(e: Entry)
    requires KeyOk(e.key)
    ensures Weight(Entry(e.key, Norm(e.value))) == Weight(e)
  {
    hide KeyOk;
  }

  // Over any run of good saves every public key holds the value of the last save that set it, or else
  // its original value, and every protected one its original value, to six decimals
  lemma {:induction false} PublicOverAnyRun(text: string, saves: seq<Settings>)
    requires SafeSettings(Parse(text)) && forall i :: 0 <= i < |saves| ==> GoodSave(saves[i])
    ensures var first, last := Parse(text), Parse(Rounds(text, saves));
      && SafeSettings(last)
      && Part(last, true) == (if saves == [] then Part(first, true) else NormAll(Part(first, true)))
      && forall k :: Shown(Lookup(last, k)) == Shown(if !Protected(k) && LastSet(saves, k).Some? then LastSet(saves, k) else Lookup(first, k))
  {
    hide Parse, Round, SafeSettings, GoodSave, Norm, Lookup, Protected;
    if saves != [] {
      var n := |saves| - 1;
      PublicOverAnyRun(text, saves[..n]);
      var mid := Rounds(text, saves[..n]);
      RoundEffect(mid, saves[n]);
      NormTwice(Part(Parse(text), true));
      forall k
        ensures Shown(Lookup(Parse(Rounds(text, saves)), k))
             == Shown(if !Protected(k) && LastSet(saves, k).Some? then LastSet(saves, k) else Lookup(Parse(text), k))
      {
        var v := Asked(Parse(mid), saves[n], k);
        assert Lookup(Parse(Rounds(text, saves)), k) == Shown(v);
        if v.Some? { NormIdempotent(v.value); }
        assert Shown(Shown(v)) == Shown(v);
      }
    }
  }
}
