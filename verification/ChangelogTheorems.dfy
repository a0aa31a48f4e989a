/**
  What the changelog parser answers: when each release appears once, where every bullet goes, and
  that a printed changelog is read back.
*/
module ChangelogTheorems {
  import opened Text
  import opened ChangelogLines
  import opened Changelog

  // ---------- One release per header ----------

  // The release sections, once each
  function Each(sections: seq<Section>): seq<Release> {
    if sections == [] then [] else Each(sections[..|sections| - 1]) + Opened(sections[|sections| - 1])
  }

  function ReleaseHeaders(lines: seq<Line>): nat {
    if lines == [] then 0
    else ReleaseHeaders(lines[..|lines| - 1]) + if lines[|lines| - 1].kind.ReleaseHeader? then 1 else 0
  }

  // The Unreleased headers with a release header somewhere before them
  function LateUnreleased(lines: seq<Line>): nat {
    if lines == [] then 0
    else
      var init := lines[..|lines| - 1];
      LateUnreleased(init) + if lines[|lines| - 1].kind.UnreleasedHeader? && ReleaseHeaders(init) > 0 then 1 else 0
  }

  function LateSections(sections: seq<Section>): nat {
    if sections == [] then 0
    else
      var init := sections[..|sections| - 1];
      LateSections(init) + if sections[|sections| - 1].header.kind.UnreleasedHeader? then |Open(init)| else 0
  }

  lemma {:induction false} SectionCounts(sections: seq<Section>)
    requires WellHeaded(sections)
    ensures |Published(sections)| == |Each(sections)| + LateSections(sections)
    ensures LateSections(sections) == 0 ==> Published(sections) == Each(sections)
    ensures |Open(sections)| == if |Each(sections)| > 0 then 1 else 0
  {
    if sections != [] {
      hide Published, Built;
      var (init, s) := (sections[..|sections| - 1], sections[|sections| - 1]);
      SectionCounts(init);
      AnotherSection(init, s);
      assert init + [s] == sections;
    }
  }

  lemma OneMore(sections: seq<Section>, s: Section)
    ensures Each(sections + [s]) == Each(sections) + Opened(s)
    ensures LateSections(sections + [s]) == LateSections(sections) + if s.header.kind.UnreleasedHeader? then |Open(sections)| else 0
    ensures Unreleased(sections + [s]) ==
            if s.header.kind.ReleaseHeader? then Unreleased(sections) else Collect(Unreleased(sections), s.body, "Planned")
  {
    assert (sections + [s])[..|sections|] == sections;
  }

  lemma Counted(sections: seq<Section>, line: Line)
    ensures var after := Extended(sections, line);
      && |Each(after)| == |Each(sections)| + (if line.kind.ReleaseHeader? then 1 else 0)
      && LateSections(after) == LateSections(sections) + if line.kind.UnreleasedHeader? then |Open(sections)| else 0
  {
    hide Built, Each, LateSections, Open;
    if IsHeader(line) {
      OneMore(sections, Section(line, []));
    } else if sections != [] {
      var (front, last) := (sections[..|sections| - 1], sections[|sections| - 1]);
      assert front + [last] == sections;
      OneMore(front, last);
      OneMore(front, last.(body := last.body + [line]));
    }
  }

  lemma {:induction false} LineCounts(lines: seq<Line>)
    ensures |Each(Sections(lines))| == ReleaseHeaders(lines) && LateSections(Sections(lines)) == LateUnreleased(lines)
  {
    if lines != [] {
      hide Extended, Published, Open;
      var init := lines[..|lines| - 1];
      LineCounts(init);
      SectionsHeaded(init);
      SectionCounts(Sections(init));
      Counted(Sections(init), lines[|lines| - 1]);
    }
  }

  // The answer has one release for every release header, and one more for every Unreleased header
  // that comes after a release header; without such a header, and only then, it is one per header,
  // each with its own version, date and section, in order
  lemma OncePerHeaderIff(lines: seq<Line>)
    ensures |Published(Sections(lines))| == ReleaseHeaders(lines) + LateUnreleased(lines)
    ensures |Each(Sections(lines))| == ReleaseHeaders(lines)
    ensures Published(Sections(lines)) == Each(Sections(lines)) <==> LateUnreleased(lines) == 0
  {
    SectionsHeaded(lines);
    SectionCounts(Sections(lines));
    LineCounts(lines);
  }

  // ---------- Where a bullet goes ----------

  function Items(cats: seq<Category>, name: string): seq<string> {
    if cats == [] then [] else if cats[0].name == name then cats[0].items else Items(cats[1..], name)
  }

  function Total(cats: seq<Category>): nat { if cats == [] then 0 else |cats[0].items| + Total(cats[1..]) }

  // The bullets of a section under one name: a bullet is under the last category named before it, or
  // under the fallback where there is none
  function Under(body: seq<Line>, name: string, fallback: string): seq<string> {
    if body == [] then []
    else
      var (init, line) := (body[..|body| - 1], body[|body| - 1]);
      Under(init, name, fallback) + if line.kind.Bullet? && TargetCategory(init, fallback) == name then [line.kind.item] else []
  }

  function Bullets(body: seq<Line>): nat {
    if body == [] then 0 else Bullets(body[..|body| - 1]) + if body[|body| - 1].kind.Bullet? then 1 else 0
  }

  lemma {:induction false} AddItemEffect(cats: seq<Category>, name: string, item: string, other: string)
    ensures var r := AddItem(cats, name, item);
      && Items(r, other) == Items(cats, other) + (if other == name then [item] else [])
      && Total(r) == Total(cats) + 1
  {
    if cats != [] && cats[0].name != name {
      AddItemEffect(cats[1..], name, item, other);
      assert AddItem(cats, name, item)[1..] == AddItem(cats[1..], name, item);
    } else if cats != [] {
      assert AddItem(cats, name, item)[1..] == cats[1..];
    }
  }

  lemma {:induction false} AppendEmpty(cats: seq<Category>, name: string, other: string)
    requires !HasCategory(cats, name)
    ensures var r := cats + [Category(name, [])]; Items(r, other) == Items(cats, other) && Total(r) == Total(cats)
  {
    if cats != [] {
      AppendEmpty(cats[1..], name, other);
      assert (cats + [Category(name, [])])[1..] == cats[1..] + [Category(name, [])];
    } else {
      assert [] + [Category(name, [])] == [Category(name, [])] && [Category(name, [])][1..] == [];
    }
  }

  // Every bullet of a section lands in exactly one list, the one of its category, in order
  lemma {:induction false} BulletsLandOnce(cats: seq<Category>, body: seq<Line>, fallback: string, name: string)
    ensures var r := Collect(cats, body, fallback);
      Items(r, name) == Items(cats, name) + Under(body, name, fallback) && Total(r) == Total(cats) + Bullets(body)
  {
    if body != [] {
      var (init, line) := (body[..|body| - 1], body[|body| - 1]);
      BulletsLandOnce(cats, init, fallback, name);
      var before := Collect(cats, init, fallback);
      match line.kind {
        case Bullet(item) => AddItemEffect(before, TargetCategory(init, fallback), item, name);
        case CategoryHeader(category) =>
          if !HasCategory(before, category) { AppendEmpty(before, category, name); }
        case _ =>
      }
    }
  }

  // The bullets after the first section header
  function SectionBullets(lines: seq<Line>): nat {
    if lines == [] then 0
    else
      var init := lines[..|lines| - 1];
      SectionBullets(init) + if lines[|lines| - 1].kind.Bullet? && Sections(init) != [] then 1 else 0
  }

  function ReleaseTotal(releases: seq<Release>): nat {
    if releases == [] then 0 else ReleaseTotal(releases[..|releases| - 1]) + Total(releases[|releases| - 1].categories)
  }

  function BodyBullets(sections: seq<Section>): nat {
    if sections == [] then 0 else BodyBullets(sections[..|sections| - 1]) + Bullets(sections[|sections| - 1].body)
  }

  lemma {:induction false} BulletsOfSections(sections: seq<Section>)
    ensures Total(Unreleased(sections)) + ReleaseTotal(Each(sections)) == BodyBullets(sections)
  {
    if sections != [] {
      hide Collect, RawLines;
      var (init, s) := (sections[..|sections| - 1], sections[|sections| - 1]);
      BulletsOfSections(init);
      if s.header.kind.ReleaseHeader? {
        BulletsLandOnce([], s.body, "Other", "");
        assert Each(sections)[..|Each(init)|] == Each(init);
      } else {
        BulletsLandOnce(Unreleased(init), s.body, "Planned", "");
        assert Each(init) + [] == Each(init);
      }
    }
  }

  // The bullets of releases that Unreleased headers hand over once more
  function RepeatedBullets(sections: seq<Section>): nat {
    if sections == [] then 0
    else
      var init := sections[..|sections| - 1];
      RepeatedBullets(init) + if sections[|sections| - 1].header.kind.ReleaseHeader? then 0 else ReleaseTotal(Open(init))
  }

  lemma TotalConcat(a: seq<Release>, b: seq<Release>)
    requires |b| <= 1
    ensures ReleaseTotal(a + b) == ReleaseTotal(a) + ReleaseTotal(b)
  {
    if b == [] {
      assert a + b == a;
    } else {
      assert (a + b)[..|a|] == a && b[..0] == [];
      assert ReleaseTotal(b) == ReleaseTotal([]) + Total(b[0].categories);
    }
  }

  lemma {:induction false} OpenIsOne(sections: seq<Section>)
    ensures |Open(sections)| <= 1
  {
    if sections != [] { OpenIsOne(sections[..|sections| - 1]); }
  }

  lemma OpenedIs(s: Section)
    ensures Opened(s) == if s.header.kind.ReleaseHeader? then [Built(s)] else []
  {
  }

  lemma NoTotal()
    ensures ReleaseTotal([]) == 0
  {
  }

  // What one more section adds to the three totals
  lemma TotalsStep(init: seq<Section>, s: Section)
    requires WellHeaded(init) && IsHeader(s.header)
    ensures var more := if s.header.kind.ReleaseHeader? then ReleaseTotal(Opened(s)) else ReleaseTotal(Open(init));
      && ReleaseTotal(Published(init + [s])) == ReleaseTotal(Published(init)) + more
      && ReleaseTotal(Each(init + [s])) == ReleaseTotal(Each(init)) + (if s.header.kind.ReleaseHeader? then more else 0)
      && RepeatedBullets(init + [s]) == RepeatedBullets(init) + (if s.header.kind.ReleaseHeader? then 0 else more)
  {
    hide Published, Built, Open, Total, ReleaseTotal, Opened, Each;
    AnotherSection(init, s);
    OneMore(init, s);
    OpenIsOne(init);
    OpenedIs(s);
    TotalConcat(Each(init), Opened(s));
    TotalConcat(Published(init), Opened(s));
    TotalConcat(Published(init), Open(init));
    NoTotal();
    assert (init + [s])[..|init|] == init;
  }

  // What the parser answers has every release once, and once more for each Unreleased header behind it
  lemma {:induction false} PublishedTotal(sections: seq<Section>)
    requires WellHeaded(sections)
    ensures ReleaseTotal(Published(sections)) == ReleaseTotal(Each(sections)) + RepeatedBullets(sections)
  {
    hide Published, ReleaseTotal, Each, RepeatedBullets, Open, Opened;
    if sections == [] {
      NothingTotal();
    } else {
      var (init, s) := (sections[..|sections| - 1], sections[|sections| - 1]);
      PublishedTotal(init);
      TotalsStep(init, s);
      assert init + [s] == sections;
    }
  }

  lemma NothingTotal()
    ensures Published([]) == [] && Each([]) == [] && RepeatedBullets([]) == 0
  {
  }

  // Counting each release section once, every bullet after the first section header is there once
  lemma EveryBulletOnce(lines: seq<Line>)
    ensures Total(Unreleased(Sections(lines))) + ReleaseTotal(Each(Sections(lines))) == SectionBullets(lines)
  {
    BulletsOfSections(Sections(lines));
    BulletsOfLines(lines);
  }

  // Over the whole file: no bullet after the first section header is lost, and exactly the bullets of
  // releases with an Unreleased header behind them are listed again, once for each such header; so
  // every bullet is listed once exactly when no Unreleased header repeats a release that has bullets
  lemma EveryBulletOnceIff(lines: seq<Line>)
    ensures var s := Sections(lines);
      && Total(Unreleased(s)) + ReleaseTotal(Published(s)) == SectionBullets(lines) + RepeatedBullets(s)
      && (Total(Unreleased(s)) + ReleaseTotal(Published(s)) == SectionBullets(lines) <==> NoneRepeated(s))
  {
    SectionsHeaded(lines);
    PublishedTotal(Sections(lines));
    EveryBulletOnce(lines);
    RepeatedIff(Sections(lines));
  }

  // The bullets of the latest release among these sections
  function LatestBullets(sections: seq<Section>): nat {
    if sections == [] then 0
    else
      var s := sections[|sections| - 1];
      if s.header.kind.ReleaseHeader? then Bullets(s.body) else LatestBullets(sections[..|sections| - 1])
  }

  predicate NoneRepeated(sections: seq<Section>) {
    forall i :: 0 <= i < |sections| && !sections[i].header.kind.ReleaseHeader? ==> LatestBullets(sections[..i]) == 0
  }

  lemma {:induction false} OpenBullets(sections: seq<Section>)
    ensures ReleaseTotal(Open(sections)) == LatestBullets(sections)
  {
    if sections != [] {
      var s := sections[|sections| - 1];
      if s.header.kind.ReleaseHeader? {
        BulletsLandOnce([], s.body, "Other", "");
        assert [Built(s)][..0] == [];
      } else {
        OpenBullets(sections[..|sections| - 1]);
      }
    }
  }

  lemma {:induction false} RepeatedIff(sections: seq<Section>)
    ensures RepeatedBullets(sections) == 0 <==> NoneRepeated(sections)
  {
    if sections != [] {
      hide Open, LatestBullets, ReleaseTotal;
      var n := |sections| - 1;
      var init := sections[..n];
      RepeatedIff(init);
      OpenBullets(init);
      assert forall i :: 0 <= i < n ==> sections[i] == init[i] && sections[..i] == init[..i];
      if NoneRepeated(init) && (sections[n].header.kind.ReleaseHeader? || LatestBullets(init) == 0) {
        forall i | 0 <= i < |sections| && !sections[i].header.kind.ReleaseHeader? ensures LatestBullets(sections[..i]) == 0 {
          if i < n { assert sections[..i] == init[..i]; } else { assert sections[..i] == init; }
        }
      }
      if NoneRepeated(sections) {
        forall i | 0 <= i < |init| && !init[i].header.kind.ReleaseHeader? ensures LatestBullets(init[..i]) == 0 {
          assert sections[i] == init[i] && sections[..i] == init[..i];
        }
      }
    }
  }

  lemma BulletsGrow(sections: seq<Section>, line: Line)
    ensures BodyBullets(Extended(sections, line)) == BodyBullets(sections) + if line.kind.Bullet? && sections != [] then 1 else 0
  {
    var after := Extended(sections, line);
    if IsHeader(line) {
      assert after[..|sections|] == sections;
    } else if sections != [] {
      assert after[..|sections| - 1] == sections[..|sections| - 1];
      var body := sections[|sections| - 1].body;
      assert (body + [line])[..|body|] == body;
    }
  }

  lemma {:induction false} BulletsOfLines(lines: seq<Line>)
    ensures BodyBullets(Sections(lines)) == SectionBullets(lines)
  {
    if lines != [] {
      hide Extended, BodyBullets;
      BulletsOfLines(lines[..|lines| - 1]);
      BulletsGrow(Sections(lines[..|lines| - 1]), lines[|lines| - 1]);
    } else {
      assert BodyBullets([]) == 0;
    }
  }

  // ---------- Printing and reading back ----------

  function BulletLines(items: seq<string>): seq<Line> {
    if items == [] then []
    else BulletLines(items[..|items| - 1]) + [Line(Bullet(items[|items| - 1]), "- " + items[|items| - 1])]
  }

  function PrintCategory(c: Category): seq<Line> {
    [Line(CategoryHeader(c.name), "### " + c.name)] + BulletLines(c.items)
  }

  function PrintCategories(cats: seq<Category>): seq<Line> {
    if cats == [] then [] else PrintCategories(cats[..|cats| - 1]) + PrintCategory(cats[|cats| - 1])
  }

  function ReleaseLine(r: Release): Line {
    Line(ReleaseHeader(r.version, r.date), ReleaseText(r.version, r.date))
  }

  function PrintReleases(releases: seq<Release>): seq<Line> {
    if releases == [] then []
    else
      var r := releases[|releases| - 1];
      PrintReleases(releases[..|releases| - 1]) + PrintRelease(r)
  }

  function PrintRelease(r: Release): seq<Line> { [ReleaseLine(r)] + PrintCategories(r.categories) }

  function Print(unreleased: seq<Category>, releases: seq<Release>): seq<Line> {
    [Line(UnreleasedHeader, UNRELEASED_TEXT)] + PrintCategories(unreleased) + PrintReleases(releases)
  }

  // The text of the changelog, line by line
  function PrintText(unreleased: seq<Category>, releases: seq<Release>): seq<string> { Texts(Print(unreleased, releases)) }

  function Texts(lines: seq<Line>): seq<string> { seq(|lines|, i requires 0 <= i < |lines| => lines[i].raw) }

  predicate ItemsOk(items: seq<string>) { forall i :: 0 <= i < |items| ==> ItemOk(items[i]) }

  // Names and items that the patterns take whole, and every name once
  predicate WellNamed(cats: seq<Category>) {
    cats == [] || (
      var (init, c) := (cats[..|cats| - 1], cats[|cats| - 1]);
      WellNamed(init) && NameOk(c.name) && ItemsOk(c.items) && !HasCategory(init, c.name))
  }

  predicate WellFormed(r: Release) {
    VersionOk(r.version) && DateOk(r.date) && WellNamed(r.categories) && r.rawLines == RawLines(PrintCategories(r.categories))
  }

  predicate AllWellFormed(releases: seq<Release>) { forall i :: 0 <= i < |releases| ==> WellFormed(releases[i]) }

  predicate NoHeaders(lines: seq<Line>) { forall i :: 0 <= i < |lines| ==> !IsHeader(lines[i]) }

  lemma {:induction false} AddToLast(cats: seq<Category>, c: Category, item: string)
    requires !HasCategory(cats, c.name)
    ensures AddItem(cats + [c], c.name, item) == cats + [c.(items := c.items + [item])]
  {
    var all := cats + [c];
    if cats == [] {
      assert all == [c] && all[1..] == [];
    } else {
      AddToLast(cats[1..], c, item);
      assert all[1..] == cats[1..] + [c];
    }
  }

  lemma {:induction false} CollectOne(before: seq<Line>, c: Category, fallback: string)
    requires c.name != "" && !HasCategory(Collect([], before, fallback), c.name)
    ensures var body := before + PrintCategory(c);
      Collect([], body, fallback) == Collect([], before, fallback) + [c] && CurrentCategory(body) == c.name
    decreases |c.items|
  {
    hide Collect, HasCategory, AddItem;
    var (n, body) := (|c.items|, before + PrintCategory(c));
    if n == 0 {
      var line := Line(CategoryHeader(c.name), "### " + c.name);
      assert body == before + [line];
      LongerBody(before, line);
    } else {
      var shorter := c.(items := c.items[..n - 1]);
      CollectOne(before, shorter, fallback);
      var item := c.items[n - 1];
      var line := Line(Bullet(item), "- " + item);
      assert body == before + PrintCategory(shorter) + [line];
      LongerBody(before + PrintCategory(shorter), line);
      assert body[..|body| - 1] == before + PrintCategory(shorter);
      AddToLast(Collect([], before, fallback), shorter, item);
      assert c.items == shorter.items + [item];
    }
  }

  // A printed dictionary is collected again, whatever the fallback
  lemma {:induction false} CollectPrinted(cats: seq<Category>, fallback: string)
    requires WellNamed(cats)
    ensures Collect([], PrintCategories(cats), fallback) == cats
  {
    hide Collect, PrintCategory, ItemsOk;
    if cats == [] {
      assert Collect([], [], fallback) == [] by { LongerBody([], Line(Blank, "")); }
    } else {
      CollectPrinted(cats[..|cats| - 1], fallback);
      CollectOne(PrintCategories(cats[..|cats| - 1]), cats[|cats| - 1], fallback);
    }
  }

  lemma {:induction false} BulletsNoHeaders(items: seq<string>)
    ensures NoHeaders(BulletLines(items))
  {
    if items != [] { BulletsNoHeaders(items[..|items| - 1]); }
  }

  lemma {:induction false} PrintedNoHeaders(cats: seq<Category>)
    ensures NoHeaders(PrintCategories(cats))
  {
    if cats != [] {
      PrintedNoHeaders(cats[..|cats| - 1]);
      BulletsNoHeaders(cats[|cats| - 1].items);
    }
  }

  lemma NextLine(lines: seq<Line>, line: Line)
    ensures Sections(lines + [line]) == Extended(Sections(lines), line)
    ensures IsHeader(line) ==> Extended(Sections(lines), line) == Sections(lines) + [Section(line, [])]
  {
    assert (lines + [line])[..|lines|] == lines;
  }

  lemma SectionLine(sections: seq<Section>, s: Section, line: Line)
    requires !IsHeader(line)
    ensures Extended(sections + [s], line) == sections + [s.(body := s.body + [line])]
  {
    assert (sections + [s])[..|sections|] == sections;
  }

  // A header and lines that are none make one section more
  lemma {:induction false} OneSection(before: seq<Line>, header: Line, body: seq<Line>)
    requires IsHeader(header) && NoHeaders(body)
    ensures Sections(before + [header] + body) == Sections(before) + [Section(header, body)]
    decreases |body|
  {
    hide Extended, Sections;
    if body == [] {
      assert before + [header] + [] == before + [header];
      NextLine(before, header);
    } else {
      var (init, line) := (body[..|body| - 1], body[|body| - 1]);
      OneSection(before, header, init);
      assert before + [header] + body == before + [header] + init + [line];
      NextLine(before + [header] + init, line);
      SectionLine(Sections(before), Section(header, init), line);
      assert body == init + [line];
    }
  }

  // One more printed release
  lemma PrintedRelease(before: seq<Line>, r: Release)
    requires WellFormed(r)
    ensures var (s, after) := (Sections(before), before + PrintRelease(r));
      && Unreleased(Sections(after)) == Unreleased(s) && Each(Sections(after)) == Each(s) + [r]
      && LateUnreleased(after) == LateUnreleased(before)
  {
    hide Sections, Each, Unreleased, LateUnreleased, PrintCategories;
    var (header, body) := (ReleaseLine(r), PrintCategories(r.categories));
    PrintedNoHeaders(r.categories);
    assert before + PrintRelease(r) == before + [header] + body;
    OneSection(before, header, body);
    NotLater(before, header, body);
    OneMore(Sections(before), Section(header, body));
    CollectPrinted(r.categories, "Other");
    assert Opened(Section(header, body)) == [r];
  }

  lemma {:induction false} PrintedSections(lines: seq<Line>, releases: seq<Release>)
    requires AllWellFormed(releases)
    ensures var (s, after) := (Sections(lines), lines + PrintReleases(releases));
      && Unreleased(Sections(after)) == Unreleased(s) && Each(Sections(after)) == Each(s) + releases
      && LateUnreleased(after) == LateUnreleased(lines)
  {
    hide Sections, Each, Unreleased, LateUnreleased, PrintRelease, WellFormed;
    if releases == [] {
      assert lines + PrintReleases([]) == lines;
    } else {
      var (init, r) := (releases[..|releases| - 1], releases[|releases| - 1]);
      PrintedSections(lines, init);
      var before := lines + PrintReleases(init);
      PrintedRelease(before, r);
      assert before + PrintRelease(r) == lines + PrintReleases(releases);
      Regroup(Each(Sections(lines)), init, r);
      assert releases == init + [r];
    }
  }

  lemma Regroup(a: seq<Release>, b: seq<Release>, r: Release)
    ensures a + b + [r] == a + (b + [r])
  {
  }

  lemma {:induction false} NotLater(before: seq<Line>, header: Line, body: seq<Line>)
    requires header.kind.ReleaseHeader? && NoHeaders(body)
    ensures LateUnreleased(before + [header] + body) == LateUnreleased(before)
    decreases |body|
  {
    var all := before + [header] + body;
    if body == [] {
      assert all[..|all| - 1] == before;
    } else {
      NotLater(before, header, body[..|body| - 1]);
      assert all[..|all| - 1] == before + [header] + body[..|body| - 1];
    }
  }

  lemma {:induction false} NoneLate(lines: seq<Line>)
    requires ReleaseHeaders(lines) == 0
    ensures LateUnreleased(lines) == 0
  {
    if lines != [] { NoneLate(lines[..|lines| - 1]); }
  }

  lemma {:induction false} NoReleases(header: Line, body: seq<Line>)
    requires header.kind.UnreleasedHeader? && NoHeaders(body)
    ensures ReleaseHeaders([header] + body) == 0
    decreases |body|
  {
    var all := [header] + body;
    if body == [] {
      assert all == [header] && all[..0] == [];
    } else {
      NoReleases(header, body[..|body| - 1]);
      assert all[..|all| - 1] == [header] + body[..|body| - 1];
    }
  }

  // The line is read again from its text
  predicate Readable(lines: seq<Line>) { forall i :: 0 <= i < |lines| ==> LineOf(lines[i].raw) == lines[i] }

  lemma ReadableConcat(a: seq<Line>, b: seq<Line>)
    requires Readable(a) && Readable(b)
    ensures Readable(a + b)
  {
    hide LineOf;
  }

  lemma {:induction false} BulletsReadable(items: seq<string>)
    requires ItemsOk(items)
    ensures Readable(BulletLines(items))
  {
    if items != [] {
      hide LineOf, ItemOk;
      BulletsReadable(items[..|items| - 1]);
      BulletIsRead(items[|items| - 1]);
    }
  }

  lemma {:induction false} CategoriesReadable(cats: seq<Category>)
    requires WellNamed(cats)
    ensures Readable(PrintCategories(cats))
  {
    if cats != [] {
      hide LineOf, ItemsOk, NameOk, BulletLines;
      var c := cats[|cats| - 1];
      CategoriesReadable(cats[..|cats| - 1]);
      CategoryIsRead(c.name);
      BulletsReadable(c.items);
      ReadableConcat([Line(CategoryHeader(c.name), "### " + c.name)], BulletLines(c.items));
      ReadableConcat(PrintCategories(cats[..|cats| - 1]), PrintCategory(c));
    }
  }

  lemma {:induction false} ReleasesReadable(releases: seq<Release>)
    requires AllWellFormed(releases)
    ensures Readable(PrintReleases(releases))
  {
    if releases != [] {
      hide LineOf, VersionOk, DateOk, PrintCategories, WellNamed, RawLines;
      var r := releases[|releases| - 1];
      ReleasesReadable(releases[..|releases| - 1]);
      ReleaseIsRead(r.version, r.date);
      CategoriesReadable(r.categories);
      ReadableConcat([ReleaseLine(r)], PrintCategories(r.categories));
      ReadableConcat(PrintReleases(releases[..|releases| - 1]), PrintRelease(r));
    }
  }

  lemma TextIsRead(unreleased: seq<Category>, releases: seq<Release>)
    requires WellNamed(unreleased) && AllWellFormed(releases)
    ensures Lines(PrintText(unreleased, releases)) == Print(unreleased, releases)
  {
    hide LineOf, PrintCategories, PrintReleases;
    UnreleasedIsRead();
    CategoriesReadable(unreleased);
    ReleasesReadable(releases);
    var header := [Line(UnreleasedHeader, UNRELEASED_TEXT)];
    ReadableConcat(header, PrintCategories(unreleased));
    ReadableConcat(header + PrintCategories(unreleased), PrintReleases(releases));
  }

  // The section of what is unreleased
  lemma UnreleasedSection(unreleased: seq<Category>)
    requires WellNamed(unreleased)
    ensures var lines := [Line(UnreleasedHeader, UNRELEASED_TEXT)] + PrintCategories(unreleased);
      && Unreleased(Sections(lines)) == unreleased && Each(Sections(lines)) == []
      && LateUnreleased(lines) == 0
  {
    hide Collect, PrintCategories, WellNamed, LateUnreleased, ReleaseHeaders;
    var (header, body) := (Line(UnreleasedHeader, UNRELEASED_TEXT), PrintCategories(unreleased));
    PrintedNoHeaders(unreleased);
    OneSection([], header, body);
    assert [] + [header] + body == [header] + body;
    var s := Section(header, body);
    assert Sections([]) == [] && [] + [s] == [s];
    OneMore([], s);
    CollectPrinted(unreleased, "Planned");
    NoReleases(header, body);
    NoneLate([header] + body);
  }

  // Whatever changelog is printed, parsing its text answers the same releases and unreleased items
  lemma PrintedIsReadBack(unreleased: seq<Category>, releases: seq<Release>)
    requires WellNamed(unreleased) && AllWellFormed(releases)
    ensures var sections := Sections(Lines(PrintText(unreleased, releases)));
      Published(sections) == releases && Unreleased(sections) == unreleased
  {
    hide Published, PrintCategories, PrintReleases, Sections, Each, Unreleased, LateUnreleased, WellNamed, AllWellFormed, Lines, PrintText;
    TextIsRead(unreleased, releases);
    UnreleasedSection(unreleased);
    PrintedSections([Line(UnreleasedHeader, UNRELEASED_TEXT)] + PrintCategories(unreleased), releases);
    OncePerHeaderIff(Print(unreleased, releases));
    assert [] + releases == releases;
  }
}
