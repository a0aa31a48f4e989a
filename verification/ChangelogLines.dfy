/**
  The four line patterns of the changelog parser (app/engine/changelog.py:22-28, 181-221), tried in the
  order in which the parser tries them.
*/
module ChangelogLines {
  import opened Text

  datatype Kind =
    | UnreleasedHeader
    | ReleaseHeader(version: string, date: Option<string>)
    | CategoryHeader(category: string)
    | Bullet(item: string)
    | Other
    | Blank

  // A line with its text; names and items are stripped, and may then be empty
  datatype Line = Line(kind: Kind, raw: string)

  function Lower(c: char): char { if 'A' <= c <= 'Z' then (c as int + 32) as char else c }

  // The letters of "unreleased" in either case at i
  predicate WordAt(s: string, i: nat, word: string) {
    i + |word| <= |s| && forall j :: 0 <= j < |word| ==> Lower(s[i + j]) == word[j]
  }

  // ^##\s+\[? : the position behind it
  function AfterHashes(s: string): (r: Option<nat>)
    ensures r.Some? ==> 3 <= r.value <= |s|
  {
    if |s| < 3 || s[0] != '#' || s[1] != '#' || !IsSpace(s[2]) then None
    else
      var i := SpacesEnd(s, 2);
      Some(if i < |s| && s[i] == '[' then i + 1 else i)
  }

  predicate OnlySpaces(s: string, i: nat)
    requires i <= |s|
  {
    SpacesEnd(s, i) == |s|
  }

  // \]? at i
  function AfterBracket(s: string, i: nat): (j: nat)
    requires i <= |s|
    ensures i <= j <= |s|
  {
    if i < |s| && s[i] == ']' then i + 1 else i
  }

  // ^##\s+\[?[Uu]nreleased\]?\s*$, ignoring case
  predicate IsUnreleased(s: string) {
    match AfterHashes(s)
    case None => false
    case Some(i) => WordAt(s, i, "unreleased") && OnlySpaces(s, AfterBracket(s, i + 10))
  }

  // ---------- Releases ----------

  // [0-9]{4}-[0-9]{2}-[0-9]{2} at i
  predicate DateAt(s: string, i: nat) {
    && i + 10 <= |s| && s[i + 4] == '-' && s[i + 7] == '-'
    && AllDigits(s[i..i + 4]) && AllDigits(s[i + 5..i + 7]) && AllDigits(s[i + 8..i + 10])
  }

  datatype Tail = Tail(date: Option<string>)

  // \]?(?:\s*-\s*(date))?\s*$ at i
  function TailAt(s: string, i: nat): Option<Tail>
    requires i <= |s|
  {
    var j := AfterBracket(s, i);
    var k := SpacesEnd(s, j);
    if k == |s| then Some(Tail(None))
    else if s[k] != '-' then None
    else
      var m := SpacesEnd(s, k + 1);
      if DateAt(s, m) && OnlySpaces(s, m + 10) then Some(Tail(Some(s[m..m + 10]))) else None
  }

  // [0-9]+\.[0-9]+(?:\.[0-9]+)? at p: the position behind it
  function NumbersEnd(s: string, p: nat): (r: Option<nat>)
    requires p <= |s|
    ensures r.Some? ==> p < r.value <= |s|
  {
    var a := DigitsEnd(s, p);
    if a == p || a == |s| || s[a] != '.' then None
    else
      var b := DigitsEnd(s, a + 1);
      if b == a + 1 then None
      else if b == |s| || s[b] != '.' then Some(b)
      else
        var c := DigitsEnd(s, b + 1);
        Some(if c == b + 1 then b else c)
  }

  predicate IsLabelChar(c: char) { IsWordChar(c) || c == '.' || c == '-' }

  function LabelEnd(s: string, i: nat): (e: nat)
    requires i <= |s|
    ensures i <= e <= |s|
    decreases |s| - i
  {
    if i < |s| && IsLabelChar(s[i]) then LabelEnd(s, i + 1) else i
  }

  // The end of (?:-[a-zA-Z0-9_.-]+)? behind the numbers, as far as it goes
  function VersionEnd(s: string, base: nat): (e: nat)
    requires base <= |s|
    ensures base <= e <= |s| && (e == base || e >= base + 2)
  {
    if base < |s| && s[base] == '-' && LabelEnd(s, base + 1) > base + 1 then LabelEnd(s, base + 1) else base
  }

  // The longest version that the rest of the pattern lets stand, tried from end on downwards
  function ReleaseFrom(s: string, p: nat, base: nat, end: nat): (r: Option<Kind>)
    requires p < base <= end <= |s|
    ensures r.Some? ==> r.value.ReleaseHeader? && r.value.version != ""
    decreases end
  {
    match TailAt(s, end)
    case Some(tail) => Some(ReleaseHeader(s[p..end], tail.date))
    case None => if end == base then None else ReleaseFrom(s, p, base, if end == base + 2 then base else end - 1)
  }

  // The release pattern
  function ReleaseOf(s: string): (r: Option<Kind>)
    ensures r.Some? ==> r.value.ReleaseHeader? && r.value.version != ""
  {
    match AfterHashes(s)
    case None => None
    case Some(i) =>
      var p := if i < |s| && (s[i] == 'v' || s[i] == 'V') then i + 1 else i;
      match NumbersEnd(s, p)
      case None => None
      case Some(base) => ReleaseFrom(s, p, base, VersionEnd(s, base))
  }

  // ---------- Categories and bullets ----------

  predicate IsCategoryChar(c: char) { IsWordChar(c) || c == '-' || c == ' ' }

  function CategoryEnd(s: string, i: nat): (e: nat)
    requires i <= |s|
    ensures i <= e <= |s|
    decreases |s| - i
  {
    if i < |s| && IsCategoryChar(s[i]) then CategoryEnd(s, i + 1) else i
  }

  // ^###\s+([A-Za-z0-9_\- ]+)\s*$, stripped. With nothing but white space behind the hashes, one blank
  // beyond the first white space will do.
  function CategoryOf(s: string): Option<string> {
    if |s| < 4 || s[0] != '#' || s[1] != '#' || s[2] != '#' || !IsSpace(s[3]) then None
    else
      var w := SpacesEnd(s, 3);
      if w == |s| then if ' ' in s[4..] then Some("") else None
      else
        var c := CategoryEnd(s, w);
        if c > w && OnlySpaces(s, c) then Some(Strip(s[w..c])) else None
  }

  // ^\s*[*-]\s+(.+)$, stripped
  function BulletOf(s: string): Option<string> {
    var i := SpacesEnd(s, 0);
    if i == |s| || (s[i] != '*' && s[i] != '-') then None
    else
      var w := SpacesEnd(s, i + 1);
      if w == i + 1 || '\n' in s[i + 1..] then None
      else if w < |s| then Some(Strip(s[w..]))
      else if w > i + 2 then Some("")
      else None
  }

  // rstrip("\r\n")
  function StripEol(s: string): string {
    if s != "" && (s[|s| - 1] == '\r' || s[|s| - 1] == '\n') then StripEol(s[..|s| - 1]) else s
  }

  function KindOf(s: string): (k: Kind)
    ensures k.ReleaseHeader? ==> k.version != ""
  {
    if IsUnreleased(s) then UnreleasedHeader
    else match ReleaseOf(s)
      case Some(k) => k
      case None =>
        match CategoryOf(s)
        case Some(name) => CategoryHeader(name)
        case None =>
          match BulletOf(s)
          case Some(item) => Bullet(item)
          case None => if OnlySpaces(s, 0) then Blank else Other
  }

  function LineOf(text: string): (l: Line)
    ensures l.kind.ReleaseHeader? ==> l.kind.version != ""
  {
    Line(KindOf(StripEol(text)), StripEol(text))
  }

  function Lines(texts: seq<string>): seq<Line> { seq(|texts|, i requires 0 <= i < |texts| => LineOf(texts[i])) }

  // ---------- Printed lines ----------

  // A version the pattern takes whole
  predicate VersionOk(v: string) { NumbersEnd(v, 0).Some? && VersionEnd(v, NumbersEnd(v, 0).value) == |v| }

  predicate DateOk(d: Option<string>) { d.Some? ==> |d.value| == 10 && DateAt(d.value, 0) }

  predicate NameOk(name: string) {
    name != "" && name[0] != ' ' && name[|name| - 1] != ' ' && forall i :: 0 <= i < |name| ==> IsCategoryChar(name[i])
  }

  predicate ItemOk(item: string) {
    item != "" && !IsSpace(item[0]) && !IsSpace(item[|item| - 1]) && '\n' !in item
  }

  const UNRELEASED_TEXT := "## [Unreleased]"

  function ReleaseText(version: string, date: Option<string>): string {
    "## [" + version + "]" + if date.Some? then " - " + date.value else ""
  }

  lemma UnreleasedIsRead()
    ensures LineOf(UNRELEASED_TEXT) == Line(UnreleasedHeader, UNRELEASED_TEXT)
  {
    var s := UNRELEASED_TEXT;
    assert StripEol(s) == s;
    assert SpacesEnd(s, 2) == 3 && AfterHashes(s) == Some(4);
    assert WordAt(s, 4, "unreleased");
  }

  lemma {:induction false} CategoryRuns(s: string, i: nat)
    requires i <= |s| && forall j :: i <= j < |s| ==> IsCategoryChar(s[j])
    ensures CategoryEnd(s, i) == |s|
    decreases |s| - i
  {
    if i < |s| { CategoryRuns(s, i + 1); }
  }

  lemma NoSpaceNoRun(s: string, i: nat)
    requires i < |s| && !IsSpace(s[i])
    ensures SpacesEnd(s, i) == i
  {
  }

  lemma OneSpace(s: string, i: nat)
    requires i < |s| && IsSpace(s[i])
    ensures SpacesEnd(s, i) == SpacesEnd(s, i + 1)
  {
  }

  lemma StripsNothing(s: string)
    requires s != "" && !IsSpace(s[0]) && !IsSpace(s[|s| - 1])
    ensures Strip(s) == s && StripEol(s) == s
  {
  }

  lemma NameRead(s: string, name: string)
    requires NameOk(name) && s == "### " + name
    ensures CategoryOf(s) == Some(name)
  {
    hide SpacesEnd, Strip, CategoryEnd, IsCategoryChar;
    NameEnds(name);
    assert s[3] == ' ' && s[4] == name[0] && s[4..] == name && s[4..|s|] == name;
    NoSpaceNoRun(s, 4);
    OneSpace(s, 3);
    forall j | 4 <= j < |s| ensures IsCategoryChar(s[j]) { assert s[j] == name[j - 4]; }
    CategoryRuns(s, 4);
    NoRunAtEnd(s);
    StripsNothing(name);
  }

  lemma NameEnds(name: string)
    requires NameOk(name)
    ensures !IsSpace(name[0]) && !IsSpace(name[|name| - 1])
  {
    assert IsCategoryChar(name[0]) && IsCategoryChar(name[|name| - 1]);
  }

  lemma NoRunAtEnd(s: string)
    ensures OnlySpaces(s, |s|)
  {
  }

  lemma CategoryIsRead(name: string)
    requires NameOk(name)
    ensures LineOf("### " + name) == Line(CategoryHeader(name), "### " + name)
  {
    hide CategoryOf, SpacesEnd, IsCategoryChar;
    var s := "### " + name;
    NameEnds(name);
    assert s[2] == '#' && s[0] == '#' && s[|s| - 1] == name[|name| - 1];
    StripsNothing(s);
    NameRead(s, name);
    assert AfterHashes(s) == None;
  }

  // The text behind the mark
  lemma ItemRead(s: string, item: string)
    requires ItemOk(item) && s == "- " + item
    ensures BulletOf(s) == Some(item)
  {
    hide SpacesEnd, Strip;
    assert s[0] == '-' && s[1] == ' ' && s[2] == item[0] && s[2..] == item && s[1..] == " " + item;
    NoSpaceNoRun(s, 0);
    NoSpaceNoRun(s, 2);
    assert SpacesEnd(s, 1) == SpacesEnd(s, 2) by { OneSpace(s, 1); }
    assert '\n' !in " " + item;
    StripsNothing(item);
  }

  lemma BulletIsRead(item: string)
    requires ItemOk(item)
    ensures LineOf("- " + item) == Line(Bullet(item), "- " + item)
  {
    hide BulletOf, SpacesEnd;
    var s := "- " + item;
    assert s[0] == '-' && s[|s| - 1] == item[|item| - 1];
    StripsNothing(s);
    ItemRead(s, item);
    assert AfterHashes(s) == None && CategoryOf(s) == None;
  }

  // The numbers and the label of v, inside a text where a bracket closes it
  lemma {:induction false} DigitsInside(s: string, p: nat, v: string, i: nat)
    requires i <= |v| && p + |v| < |s| && s[p..p + |v|] == v && s[p + |v|] == ']'
    ensures DigitsEnd(s, p + i) == p + DigitsEnd(v, i)
    decreases |v| - i
  {
    if i < |v| {
      assert s[p + i] == s[p..p + |v|][i];
      if IsDigit(v[i]) { DigitsInside(s, p, v, i + 1); }
    }
  }

  lemma {:induction false} LabelInside(s: string, p: nat, v: string, i: nat)
    requires i <= |v| && p + |v| < |s| && s[p..p + |v|] == v && s[p + |v|] == ']'
    ensures LabelEnd(s, p + i) == p + LabelEnd(v, i)
    decreases |v| - i
  {
    if i < |v| {
      assert s[p + i] == s[p..p + |v|][i];
      if IsLabelChar(v[i]) { LabelInside(s, p, v, i + 1); }
    }
  }

  // v stands at p in s, closed by a bracket
  predicate Inside(s: string, p: nat, v: string) { p + |v| < |s| && s[p..p + |v|] == v && s[p + |v|] == ']' }

  lemma CharInside(s: string, p: nat, v: string, i: nat)
    requires Inside(s, p, v) && i < |v|
    ensures s[p + i] == v[i]
  {
    assert s[p + i] == s[p..p + |v|][i];
  }

  lemma NumbersInside(s: string, p: nat, v: string)
    requires Inside(s, p, v) && NumbersEnd(v, 0).Some?
    ensures NumbersEnd(s, p) == Some(p + NumbersEnd(v, 0).value)
  {
    hide DigitsEnd;
    var a := DigitsEnd(v, 0);
    DigitsInside(s, p, v, 0);
    CharInside(s, p, v, a);
    DigitsInside(s, p, v, a + 1);
    var b := DigitsEnd(v, a + 1);
    if b < |v| {
      CharInside(s, p, v, b);
      DigitsInside(s, p, v, b + 1);
    }
  }

  lemma VersionInside(s: string, p: nat, v: string)
    requires Inside(s, p, v) && VersionOk(v)
    ensures NumbersEnd(s, p) == Some(p + NumbersEnd(v, 0).value)
    ensures VersionEnd(s, p + NumbersEnd(v, 0).value) == p + |v|
    ensures v != "" && IsDigit(v[0])
  {
    hide NumbersEnd, LabelEnd;
    NumbersInside(s, p, v);
    var base := NumbersEnd(v, 0).value;
    if base < |v| {
      CharInside(s, p, v, base);
      LabelInside(s, p, v, base + 1);
    }
    NumbersStart(v);
  }

  lemma NumbersStart(v: string)
    requires NumbersEnd(v, 0).Some?
    ensures v != "" && IsDigit(v[0])
  {
    FirstDigit(v);
  }

  lemma FirstDigit(v: string)
    requires DigitsEnd(v, 0) > 0
    ensures v != "" && IsDigit(v[0])
  {
  }

  lemma TailIsRead(s: string, i: nat, date: Option<string>)
    requires i <= |s| && DateOk(date) && s[i..] == "]" + if date.Some? then " - " + date.value else ""
    ensures TailAt(s, i) == Some(Tail(date))
  {
    assert s[i] == s[i..][0] == ']';
    if date.Some? {
      var d := date.value;
      assert |s| == i + 14;
      assert s[i + 1] == s[i..][1] == ' ' && s[i + 2] == s[i..][2] == '-' && s[i + 3] == s[i..][3] == ' ';
      assert s[i + 4..] == s[i..][4..] == d && s[i + 4..i + 14] == d;
      assert s[i + 4] == d[0] == d[0..4][0];
      NoSpaceNoRun(s, i + 2);
      OneSpace(s, i + 1);
      NoSpaceNoRun(s, i + 4);
      OneSpace(s, i + 3);
      DateInside(s, i + 4, d);
    } else {
      assert |s| == i + 1;
    }
  }

  lemma SlicesEqual(s: string, i: nat, d: string, a: nat, b: nat)
    requires a <= b <= |d| && i + |d| <= |s| && forall j :: 0 <= j < |d| ==> s[i + j] == d[j]
    ensures s[i + a..i + b] == d[a..b]
  {
    forall k | 0 <= k < b - a ensures s[i + a..i + b][k] == d[a..b][k] {
      assert s[i + (a + k)] == d[a + k];
    }
  }

  lemma DateInside(s: string, i: nat, d: string)
    requires |d| == 10 && DateAt(d, 0) && |s| == i + 10 && s[i..i + 10] == d
    ensures DateAt(s, i)
  {
    forall j | 0 <= j < 10 ensures s[i + j] == d[j] { assert s[i + j] == s[i..i + 10][j]; }
    SlicesEqual(s, i, d, 0, 4);
    SlicesEqual(s, i, d, 5, 7);
    SlicesEqual(s, i, d, 8, 10);
  }

  lemma ReleaseIsRead(version: string, date: Option<string>)
    requires VersionOk(version) && DateOk(date)
    ensures LineOf(ReleaseText(version, date)) == Line(ReleaseHeader(version, date), ReleaseText(version, date))
  {
    hide NumbersEnd, VersionEnd, TailAt, DateAt;
    var s := ReleaseText(version, date);
    var rest := "]" + if date.Some? then " - " + date.value else "";
    var p := 4 + |version|;
    assert s == "## [" + version + rest;
    assert s[4..p] == version && s[p] == ']' && s[p..] == rest;
    VersionInside(s, 4, version);
    TailIsRead(s, p, date);
    assert s[4] == s[4..p][0] == version[0];
    assert SpacesEnd(s, 2) == 3 && AfterHashes(s) == Some(4);
    assert Lower(s[4]) != "unreleased"[0];
    assert !WordAt(s, 4, "unreleased");
    LastOfRelease(s, version, date);
  }

  lemma LastOfRelease(s: string, version: string, date: Option<string>)
    requires DateOk(date) && s == ReleaseText(version, date)
    ensures StripEol(s) == s
  {
    if date.Some? {
      assert s[|s| - 1] == date.value[9] == date.value[8..10][1];
    } else {
      assert s[|s| - 1] == ']';
    }
  }
}
