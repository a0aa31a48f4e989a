/**
  The changelog parser (app/engine/changelog.py:58-100, 148-227).
*/
module Changelog {
  import opened Text
  import opened ChangelogLines

  datatype Category = Category(name: string, items: seq<string>)

  // raw_body is rawLines joined by line breaks
  datatype Release = Release(version: string, date: Option<string>, categories: seq<Category>, rawLines: seq<string>)

  predicate IsHeader(line: Line) { line.kind.UnreleasedHeader? || line.kind.ReleaseHeader? }

  // ---------- A dictionary of lists in order of insertion ----------

  predicate HasCategory(cats: seq<Category>, name: string) {
    cats != [] && (cats[0].name == name || HasCategory(cats[1..], name))
  }

  // cats.setdefault(name, [])
  function SetDefault(cats: seq<Category>, name: string): seq<Category> {
    if HasCategory(cats, name) then cats else cats + [Category(name, [])]
  }

  // cats.setdefault(name, []).append(item)
  function AddItem(cats: seq<Category>, name: string, item: string): seq<Category> {
    if cats == [] then [Category(name, [item])]
    else if cats[0].name == name then [Category(name, cats[0].items + [item])] + cats[1..]
    else [cats[0]] + AddItem(cats[1..], name, item)
  }

  // ---------- Sections: a header and the lines up to the next one ----------

  datatype Section = Section(header: Line, body: seq<Line>)

  // What stands before the first header belongs to no section
  function Sections(lines: seq<Line>): seq<Section> {
    if lines == [] then []
    else Extended(Sections(lines[..|lines| - 1]), lines[|lines| - 1])
  }

  function Extended(sections: seq<Section>, line: Line): seq<Section> {
    if IsHeader(line) then sections + [Section(line, [])]
    else if sections == [] then []
    else
      var last := sections[|sections| - 1];
      sections[..|sections| - 1] + [last.(body := last.body + [line])]
  }

  // The category in force at the end of these lines, "" for none
  function CurrentCategory(body: seq<Line>): string {
    if body == [] then ""
    else if body[|body| - 1].kind.CategoryHeader? then body[|body| - 1].kind.category
    else CurrentCategory(body[..|body| - 1])
  }

  function TargetCategory(body: seq<Line>, fallback: string): string {
    if CurrentCategory(body) == "" then fallback else CurrentCategory(body)
  }

  // What the lines of a section add to a dictionary
  function Collect(cats: seq<Category>, body: seq<Line>, fallback: string): seq<Category> {
    if body == [] then cats
    else
      var init := body[..|body| - 1];
      CollectLine(Collect(cats, init, fallback), body[|body| - 1], TargetCategory(init, fallback))
  }

  function CollectLine(cats: seq<Category>, line: Line, target: string): seq<Category> {
    match line.kind
    case CategoryHeader(name) => SetDefault(cats, name)
    case Bullet(item) => AddItem(cats, target, item)
    case _ => cats
  }

  function RawLines(body: seq<Line>): seq<string> {
    if body == [] then []
    else
      var before := RawLines(body[..|body| - 1]);
      if body[|body| - 1].kind.Blank? then before else before + [body[|body| - 1].raw]
  }

  function Built(s: Section): Release
    requires s.header.kind.ReleaseHeader?
  {
    Release(s.header.kind.version, s.header.kind.date, Collect([], s.body, "Other"), RawLines(s.body))
  }

  // How many Unreleased sections come before the next release
  function UnreleasedRun(sections: seq<Section>): (n: nat)
    ensures n <= |sections|
  {
    if sections == [] || sections[0].header.kind.ReleaseHeader? then 0 else 1 + UnreleasedRun(sections[1..])
  }

  function Copies(r: Release, n: nat): seq<Release> { if n == 0 then [] else [r] + Copies(r, n - 1) }

  // The releases the parser answers: every one once, and once more for each Unreleased section
  // between it and the next
  function Published(sections: seq<Section>): seq<Release> {
    if sections == [] then []
    else Repeated(sections[0], UnreleasedRun(sections[1..])) + Published(sections[1..])
  }

  function Repeated(s: Section, run: nat): seq<Release> {
    if s.header.kind.ReleaseHeader? then Copies(Built(s), 1 + run) else []
  }

  // All Unreleased sections fill one dictionary
  function Unreleased(sections: seq<Section>): seq<Category> {
    if sections == [] then []
    else
      var (before, s) := (Unreleased(sections[..|sections| - 1]), sections[|sections| - 1]);
      if s.header.kind.ReleaseHeader? then before else Collect(before, s.body, "Planned")
  }

  // The release that is still in the builder at the end of these sections
  function Open(sections: seq<Section>): seq<Release> {
    if sections == [] then []
    else
      var s := sections[|sections| - 1];
      if s.header.kind.ReleaseHeader? then [Built(s)] else Open(sections[..|sections| - 1])
  }

  // ---------- The parser ----------

  // _ReleaseState
  class ReleaseState {
    var version: string
    var date: Option<string>
    var categories: seq<Category>
    var rawLines: seq<string>

    constructor ()
      ensures Built() == []
      ensures version == "" && date.None? && categories == [] && rawLines == []
    {
      version, date, categories, rawLines := "", None, [], [];
    }

    // build_release, as a list of no or one release
    function Built(): seq<Release>
      reads this
    {
      if version == "" then [] else [Release(version, date, categories, rawLines)]
    }

    method Reset(version: string, date: Option<string>)
      modifies this
      ensures this.version == version && this.date == date && categories == [] && rawLines == []
    {
      this.version := version;
      this.date := date;
      categories := [];
      rawLines := [];
    }
  }

  datatype Active = Preamble | InUnreleased | InRelease

  function ActiveIn(sections: seq<Section>): Active {
    if sections == [] then Preamble
    else if sections[|sections| - 1].header.kind.ReleaseHeader? then InRelease else InUnreleased
  }

  function LastBody(sections: seq<Section>): seq<Line> { if sections == [] then [] else sections[|sections| - 1].body }

  // _parse_lines
  method ParseLines(texts: seq<string>) returns (releases: seq<Release>, unreleased: seq<Category>)
    ensures releases == Published(Sections(Lines(texts))) && unreleased == Unreleased(Sections(Lines(texts)))
  {
    hide LineOf, Published, Collect, RawLines, Closed, Open, Unreleased, Extended, AddItem, SetDefault;
    Beginning();
    releases, unreleased := [], [];
    var active := Preamble;
    var current: Option<string> := None;
    var state := new ReleaseState();
    ghost var (sections, lines) := ([], Lines(texts));
    for n := 0 to |texts|
      invariant sections == Sections(lines[..n])
      invariant releases == Closed(sections) && state.Built() == Open(sections)
      invariant unreleased == Unreleased(sections) && active == ActiveIn(sections)
      invariant active.InRelease? ==> state.version != ""
      invariant !active.Preamble? ==> CurrentCategory(LastBody(sections)) == (if current.Some? then current.value else "")
    {
      var line := LineOf(texts[n]);
      assert lines[..n + 1][..n] == lines[..n];
      if IsHeader(line) {
        GrowthHeader(sections, line);
      } else {
        GrowthBody(sections, line);
        GrowthKept(sections, line);
      }
      sections := Extended(sections, line);
      match line.kind {
        case UnreleasedHeader =>
          releases := releases + state.Built();
          active := InUnreleased;
          current := None;
        case ReleaseHeader(version, date) =>
          releases := releases + state.Built();
          active := InRelease;
          state.Reset(version, date);
          current := None;
        case CategoryHeader(name) =>
          current := Some(name);
          if active.InUnreleased? {
            unreleased := SetDefault(unreleased, name);
          } else if active.InRelease? {
            state.categories := SetDefault(state.categories, name);
            state.rawLines := state.rawLines + [line.raw];
          }
        case Bullet(item) =>
          var target := if current.Some? && current.value != "" then current.value
                        else if active.InUnreleased? then "Planned" else "Other";
          if active.InUnreleased? {
            unreleased := AddItem(unreleased, target, item);
          } else if active.InRelease? {
            state.categories := AddItem(state.categories, target, item);
            state.rawLines := state.rawLines + [line.raw];
          }
        case Other =>
          if active.InRelease? {
            state.rawLines := state.rawLines + [line.raw];
          }
        case Blank =>
      }
    }
    assert lines[..|lines|] == lines;
    SectionsHeaded(lines);
    ClosedAndOpen(Sections(lines));
    releases := releases + state.Built();
  }

  lemma Beginning()
    ensures Sections([]) == [] && Closed([]) == [] && Open([]) == [] && Unreleased([]) == []
  {
  }

  // A header hands over what is open, and opens a section of its own
  lemma GrowthHeader(sections: seq<Section>, line: Line)
    requires IsHeader(line)
    ensures var after := Extended(sections, line);
      && ActiveIn(after) == (if line.kind.ReleaseHeader? then InRelease else InUnreleased)
      && CurrentCategory(LastBody(after)) == "" && Unreleased(after) == Unreleased(sections)
      && Closed(after) == Closed(sections) + Open(sections)
      && Open(after) == if line.kind.ReleaseHeader? then [Release(line.kind.version, line.kind.date, [], [])] else Open(sections)
  {
    hide CollectLine;
    var after := Extended(sections, line);
    assert after[..|sections|] == sections;
  }

  // Another line goes where the active section says
  lemma GrowthBody(sections: seq<Section>, line: Line)
    requires !IsHeader(line)
    ensures var after := Extended(sections, line);
      && Closed(after) == Closed(sections) && ActiveIn(after) == ActiveIn(sections)
      && (sections != [] ==>
            CurrentCategory(LastBody(after)) == if line.kind.CategoryHeader? then line.kind.category else CurrentCategory(LastBody(sections)))
  {
    hide CollectLine, Collect, RawLines;
    var after := Extended(sections, line);
    if sections != [] {
      assert after[..|sections| - 1] == sections[..|sections| - 1];
      var body := LastBody(sections);
      assert (body + [line])[..|body|] == body;
    }
  }

  lemma GrowthKept(sections: seq<Section>, line: Line)
    requires !IsHeader(line)
    ensures var after := Extended(sections, line);
      && Unreleased(after) == (
           if ActiveIn(sections) == InUnreleased
           then CollectLine(Unreleased(sections), line, TargetCategory(LastBody(sections), "Planned")) else Unreleased(sections))
      && Open(after) == (
           if ActiveIn(sections) == InRelease && Open(sections) != []
           then var r := Open(sections)[0];
                [r.(categories := CollectLine(r.categories, line, TargetCategory(LastBody(sections), "Other")),
                    rawLines := if line.kind.Blank? then r.rawLines else r.rawLines + [line.raw])]
           else Open(sections))
  {
    hide CollectLine, Collect, RawLines;
    var after := Extended(sections, line);
    LongerBody(LastBody(sections), line);
    if sections != [] {
      assert after[..|sections| - 1] == sections[..|sections| - 1];
    }
  }

  lemma LongerBody(body: seq<Line>, line: Line)
    ensures RawLines(body + [line]) == if line.kind.Blank? then RawLines(body) else RawLines(body) + [line.raw]
    ensures forall cats, fallback :: Collect(cats, body + [line], fallback) ==
              CollectLine(Collect(cats, body, fallback), line, TargetCategory(body, fallback))
    ensures RawLines([]) == [] && forall cats, fallback :: Collect(cats, [], fallback) == cats
  {
    assert (body + [line])[..|body|] == body;
  }

  // ---------- The parser's list is the list of copies ----------

  lemma {:induction false} RunAppend(sections: seq<Section>, s: Section)
    ensures UnreleasedRun(sections + [s]) ==
            UnreleasedRun(sections) + if UnreleasedRun(sections) == |sections| && s.header.kind.UnreleasedHeader? then 1 else 0
    requires IsHeader(s.header) && WellHeaded(sections)
  {
    if sections == [] {
      assert [] + [s] == [s];
    } else {
      RunAppend(sections[1..], s);
      assert (sections + [s])[1..] == sections[1..] + [s];
    }
  }

  predicate WellHeaded(sections: seq<Section>) { forall i :: 0 <= i < |sections| ==> IsHeader(sections[i].header) }

  lemma {:induction false} SectionsHeaded(lines: seq<Line>)
    ensures WellHeaded(Sections(lines))
  {
    if lines != [] { SectionsHeaded(lines[..|lines| - 1]); }
  }

  lemma {:induction false} CopiesAppend(r: Release, n: nat)
    ensures Copies(r, n + 1) == Copies(r, n) + [r]
  {
    if n > 0 {
      CopiesAppend(r, n - 1);
      assert Copies(r, n + 1) == [r] + (Copies(r, n - 1) + [r]);
    } else {
      assert Copies(r, 1) == [r] + Copies(r, 0);
    }
  }

  // The release of a section, as a list of no or one release
  function Opened(s: Section): seq<Release> { if s.header.kind.ReleaseHeader? then [Built(s)] else [] }

  lemma RepeatedMore(s: Section, run: nat)
    ensures Repeated(s, run + 1) == Repeated(s, run) + Opened(s) && Repeated(s, 0) == Opened(s)
  {
    if s.header.kind.ReleaseHeader? {
      CopiesAppend(Built(s), 1 + run);
      CopiesAppend(Built(s), 0);
    }
  }

  lemma {:induction false} OpenTail(sections: seq<Section>)
    requires WellHeaded(sections) && sections != []
    ensures UnreleasedRun(sections[1..]) == |sections| - 1 ==>
      Published(sections[1..]) == [] && Open(sections) == Opened(sections[0])
    ensures UnreleasedRun(sections[1..]) != |sections| - 1 ==> Open(sections) == Open(sections[1..])
    decreases |sections|
  {
    if |sections| == 1 {
      assert sections == [sections[0]] && sections[1..] == [] && sections[..0] == [];
    } else {
      var (last, init) := (sections[|sections| - 1], sections[..|sections| - 1]);
      assert sections[1..][|sections| - 2] == last && sections[1..][..|sections| - 2] == init[1..];
      OpenTail(init);
      RunAppend(init[1..], last);
      assert init[1..] + [last] == sections[1..];
      if UnreleasedRun(sections[1..]) == |sections| - 1 { NonePublished(sections[1..]); }
    }
  }

  lemma {:induction false} NonePublished(sections: seq<Section>)
    requires UnreleasedRun(sections) == |sections|
    ensures Published(sections) == []
  {
    if sections != [] { NonePublished(sections[1..]); }
  }

  // A new section repeats the open release, or opens its own
  lemma {:induction false} AnotherSection(sections: seq<Section>, s: Section)
    requires WellHeaded(sections) && IsHeader(s.header)
    ensures Published(sections + [s]) == Published(sections) + if s.header.kind.ReleaseHeader? then [Built(s)] else Open(sections)
  {
    hide Built, Open, UnreleasedRun, Repeated, Published;
    if sections == [] {
      OpenNone();
      FirstSection(s);
    } else {
      var (first, rest) := (sections[0], sections[1..]);
      assert (sections + [s])[1..] == rest + [s];
      PublishedStep(sections);
      PublishedStep(sections + [s]);
      RunAppend(rest, s);
      OpenTail(sections);
      if UnreleasedRun(rest + [s]) == |rest| + 1 {
        RepeatedMore(first, UnreleasedRun(rest));
        NonePublished(rest + [s]);
      } else {
        AnotherSection(rest, s);
        var more := if s.header.kind.ReleaseHeader? then [Built(s)] else Open(sections);
        Regrouped(Repeated(first, UnreleasedRun(rest)), Published(rest), more);
      }
    }
  }

  lemma PublishedStep(sections: seq<Section>)
    requires sections != []
    ensures Published(sections) == Repeated(sections[0], UnreleasedRun(sections[1..])) + Published(sections[1..])
  {
  }

  lemma FirstSection(s: Section)
    ensures Published([] + [s]) == Opened(s) && Published([]) == []
  {
    assert [] + [s] == [s] && [s][1..] == [];
    RepeatedMore(s, 0);
  }

  lemma Regrouped(a: seq<Release>, b: seq<Release>, c: seq<Release>)
    ensures a + (b + c) == a + b + c
  {
  }

  lemma OpenNone()
    ensures Open([]) == [] && UnreleasedRun([]) == 0
  {
  }

  // What has been handed over when the last of these sections is open
  function Closed(sections: seq<Section>): seq<Release> {
    if sections == [] then [] else Closed(sections[..|sections| - 1]) + Open(sections[..|sections| - 1])
  }

  lemma {:induction false} ClosedAndOpen(sections: seq<Section>)
    requires WellHeaded(sections)
    ensures Published(sections) == Closed(sections) + Open(sections)
  {
    if sections != [] {
      var (init, s) := (sections[..|sections| - 1], sections[|sections| - 1]);
      ClosedAndOpen(init);
      AnotherSection(init, s);
      assert init + [s] == sections;
    }
  }
}
