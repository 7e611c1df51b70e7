/** The changelog's text, character by character: headings, bullets, the order and spacing of sections, and refusals. */
module ChangelogLayout {
  import opened Common
  import opened Text
  import opened Sorting
  import opened Changelog
  import opened ChangelogTheorems
  import opened ChangelogAssembly

  // ---------------------------------------------------------------------------------------
  // Lines
  // ---------------------------------------------------------------------------------------

  /** Three hashes, white space, a title and perhaps white space after it. */
  lemma HeadingSpelled(pad: string, title: string, trail: string)
    requires pad != "" && Blank(pad) && title != "" && Text.Trimmed(title) && Blank(trail)
    ensures IsHeading("###" + (pad + title + trail)) && TitleOf("###" + (pad + title + trail)) == title
  {
    var line := "###" + (pad + title + trail);
    assert line[..3] == "###" && line[3..] == pad + title + trail;
    assert line[3] == pad[0];
    TrimUndoesPadding(pad, title, trail);
  }

  /** A heading is three hashes, white space, and at least one character more. */
  lemma HeadingExactly(line: Line)
    ensures IsHeading(line) <==> |line| >= 5 && line[..3] == "###" && IsSpace(line[3])
    ensures IsHeading(line) && Blank(line[3..]) ==> TitleOf(line) == [line[|line| - 1]]
  {
    TrimIsTrimmed(if |line| > 3 then line[3..] else "");
  }

  /** One, two, or four and more hashes before white space. */
  lemma {:induction false} OtherHeadingSpelled(line: Line)
    ensures OtherHeading(line) <==>
              exists n :: 1 <= n < |line| && n != 3 && (forall i :: 0 <= i < n ==> line[i] == '#') && IsSpace(line[n])
  {
    HashesAre(line);
    if n :| 1 <= n < |line| && n != 3 && (forall i :: 0 <= i < n ==> line[i] == '#') && IsSpace(line[n]) {
      HashesIs(line, n);
    }
  }

  lemma {:induction false} HashesAre(line: Line)
    ensures forall i :: 0 <= i < Hashes(line) ==> line[i] == '#'
  {
    if line != [] && line[0] == '#' {
      HashesAre(line[1..]);
      assert forall i :: 1 <= i < |line| ==> line[i] == line[1..][i - 1];
    }
  }

  lemma {:induction false} HashesIs(line: Line, n: nat)
    requires n < |line| && (forall i :: 0 <= i < n ==> line[i] == '#') && line[n] != '#'
    ensures Hashes(line) == n
  {
    if n > 0 {
      HashesIs(line[1..], n - 1);
    }
  }

  predicate BulletOf(line: Line, name: string, text: string) {
    name != "" && text != "" && !IsSpace(text[0]) && line == "- **" + name + "** — " + text
  }

  ghost predicate SpelledAsBullet(line: Line) {
    exists name, text :: BulletOf(line, name, text)
  }

  lemma BulletIsShaped(line: Line, name: string, text: string)
    requires BulletOf(line, name, text)
    ensures BulletShape(line)
  {
    var k := 4 + |name|;
    assert |"** — "| == 5 && |"- **"| == 4;
    assert line == "- **" + (name + ("** — " + text));
    assert line[..4] == "- **" && line[k..] == "** — " + text;
    assert line[k..k + 5] == line[k..][..5] == "** — ";
    assert line[k + 5] == line[k..][5] == text[0];
    assert OccursAt(line, "** — ", k);
  }

  lemma CutInFour(line: Line, a: nat, b: nat, c: nat)
    requires a <= b <= c <= |line|
    ensures line == line[..a] + line[a..b] + line[b..c] + line[c..]
  {}

  lemma ShapeIsSpelled(line: Line, k: nat)
    requires "- **" <= line && 5 <= k < |line| - 5 && OccursAt(line, "** — ", k) && !IsSpace(line[k + 5])
    ensures SpelledAsBullet(line)
  {
    assert |"** — "| == 5 && |"- **"| == 4;
    CutInFour(line, 4, k, k + 5);
    assert line[..4] == "- **" && line[k..k + 5] == "** — ";
    assert BulletOf(line, line[4..k], line[k + 5..]);
  }

  /** A bullet is `- **name** — text`, with something for the name and a text that begins at once. */
  lemma BulletSpelled(line: Line)
    ensures BulletShape(line) <==> SpelledAsBullet(line)
  {
    if BulletShape(line) {
      var k :| 5 <= k < |line| - 5 && OccursAt(line, "** — ", k) && !IsSpace(line[k + 5]);
      ShapeIsSpelled(line, k);
    }
    if name, text :| BulletOf(line, name, text) {
      BulletIsShaped(line, name, text);
    }
  }

  predicate OneOfFive(title: string) {
    title == "Added" || title == "Changed" || title == "Fixed" || title == "Removed" || title == "Security"
  }

  lemma OneOfFiveIs(title: string)
    ensures title in SECTION_ORDER <==> OneOfFive(title)
  {
    assert SECTION_ORDER[0] == "Added" && SECTION_ORDER[1] == "Changed" && SECTION_ORDER[2] == "Fixed"
           && SECTION_ORDER[3] == "Removed" && SECTION_ORDER[4] == "Security";
  }

  predicate TitleAllowed(content: seq<Line>, i: nat)
    requires i < |content|
  {
    IsHeading(content[i]) ==>
      OneOfFive(TitleOf(content[i])) && LinesUnder(content, None, TitleOf(content[i])) != []
  }

  ghost predicate BulletAllowed(line: Line, words: Line -> nat) {
    !IsHeading(line) && !Blank(line) ==> SpelledAsBullet(line) && words(line) <= 15
  }

  predicate TitlesAllowed(content: seq<Line>) {
    forall i :: 0 <= i < |content| ==> TitleAllowed(content, i)
  }

  ghost predicate BulletsAllowed(content: seq<Line>, words: Line -> nat) {
    forall i :: 0 <= i < |content| ==> BulletAllowed(content[i], words)
  }

  lemma TitlesAllowedIs(content: seq<Line>)
    ensures TitlesAllowed(content) <==> TitlesSound(content)
  {
    if TitlesAllowed(content) {
      forall i | 0 <= i < |content| && IsHeading(content[i])
        ensures TitleOf(content[i]) in SECTION_ORDER && LinesUnder(content, None, TitleOf(content[i])) != []
      {
        assert TitleAllowed(content, i);
        OneOfFiveIs(TitleOf(content[i]));
      }
    }
    if TitlesSound(content) {
      forall i | 0 <= i < |content| ensures TitleAllowed(content, i) {
        if IsHeading(content[i]) {
          OneOfFiveIs(TitleOf(content[i]));
        }
      }
    }
  }

  lemma BulletsAllowedIs(content: seq<Line>, words: Line -> nat)
    ensures BulletsAllowed(content, words) <==> AllContentGood(content, words)
  {
    forall i | 0 <= i < |content|
      ensures BulletAllowed(content[i], words) <==> (IsContent(content[i]) ==> GoodBullet(content[i], words))
    {
      BulletSpelled(content[i]);
    }
  }

  /**
   A fragment is accepted exactly if it keeps the documented format: one of five headings, none of another
   level, bullets of at most fifteen words under each, and nothing else.
   */
  lemma ValidSpelled(content: seq<Line>, words: Line -> nat)
    ensures FragmentProblems(content, words) == [] <==>
              && (exists i :: 0 <= i < |content| && IsHeading(content[i])) && LinesOutside(content) == []
              && (forall i :: 0 <= i < |content| ==> !OtherHeading(content[i]))
              && TitlesAllowed(content) && BulletsAllowed(content, words)
  {
    ValidExactly(content, words);
    TitlesAllowedIs(content);
    BulletsAllowedIs(content, words);
    FormatParts(content, words);
  }

  lemma FormatParts(content: seq<Line>, words: Line -> nat)
    ensures WellFormed(content, words) <==>
              && (exists i :: 0 <= i < |content| && IsHeading(content[i])) && LinesOutside(content) == []
              && (forall i :: 0 <= i < |content| ==> !OtherHeading(content[i]))
              && TitlesSound(content) && AllContentGood(content, words)
  {}

  /** What is reported of one item. */
  predicate ItemTells(item: Item, words: Line -> nat, p: Problem) {
    || (|item| > 1 && p == ManyLines(item[0]))
    || (|item| == 1 && !BulletShape(item[0]) && p == BadBullet(item[0]))
    || (|item| == 1 && BulletShape(item[0]) && words(item[0]) > 15 && p == TooManyWords(item[0]))
  }

  lemma {:induction false} ItemProblemsTell(items: seq<Item>, words: Line -> nat, p: Problem)
    ensures p in ItemProblems(items, words) <==> exists i :: 0 <= i < |items| && ItemTells(items[i], words, p)
  {
    if items != [] {
      ItemProblemsTell(items[1..], words, p);
      assert forall i :: 0 <= i < |items[1..]| ==> items[1..][i] == items[i + 1];
      assert forall i :: 1 <= i < |items| ==> items[i] == items[1..][i - 1];
    }
  }

  /** What is reported of one section. */
  predicate SectionTells(s: Section, words: Line -> nat, p: Problem) {
    || (!OneOfFive(s.title) && p == UnknownSection(s.title))
    || (s.items == [] && p == EmptySection(s.title))
    || exists i :: 0 <= i < |s.items| && ItemTells(s.items[i], words, p)
  }

  lemma {:induction false} SectionProblemsTell(sections: seq<Section>, words: Line -> nat, p: Problem)
    ensures p in SectionProblems(sections, words) <==>
              exists k :: 0 <= k < |sections| && SectionTells(sections[k], words, p)
  {
    if sections != [] {
      OneOfFiveIs(sections[0].title);
      ItemProblemsTell(sections[0].items, words, p);
      SectionProblemsTell(sections[1..], words, p);
      assert forall k :: 0 <= k < |sections[1..]| ==> sections[1..][k] == sections[k + 1];
      assert forall k :: 1 <= k < |sections| ==> sections[k] == sections[1..][k - 1];
    }
  }

  lemma {:induction false} OutsideTells(stray: seq<Line>, p: Problem)
    ensures p in Outside(stray) <==> p.TextOutside? && p.line in stray
  {
    if stray != [] {
      OutsideTells(stray[1..], p);
    }
  }

  lemma {:induction false} WrongHeadingsTell(lines: seq<Line>, p: Problem)
    ensures p in WrongHeadings(lines) <==> p.WrongHeading? && p.line in lines && OtherHeading(p.line)
  {
    if lines != [] {
      WrongHeadingsTell(lines[1..], p);
    }
  }

  /** Which problems a fragment has, each with the line or title it is about. */
  lemma ProblemsTell(content: seq<Line>, words: Line -> nat, p: Problem)
    ensures p in FragmentProblems(content, words) <==>
              || (p.TextOutside? && p.line in LinesOutside(content))
              || (p.WrongHeading? && p.line in content && OtherHeading(p.line))
              || (p.NoSections? && LinesOutside(content) == []
                  && forall i :: 0 <= i < |content| ==> !IsHeading(content[i]))
              || (var sections := ScanAll(NOTHING, content).sections;
                  exists k :: 0 <= k < |sections| && SectionTells(sections[k], words, p))
  {
    ParseConserves(content, "");
    TitlesNamed(content);
    OutsideTells(LinesOutside(content), p);
    WrongHeadingsTell(content, p);
    SectionProblemsTell(ScanAll(NOTHING, content).sections, words, p);
    ProblemKinds(content, words, p);
  }

  lemma ProblemKinds(content: seq<Line>, words: Line -> nat, p: Problem)
    ensures var s := ScanAll(NOTHING, content);
            p in FragmentProblems(content, words) <==>
              p in Outside(s.stray) || p in WrongHeadings(content)
              || (p.NoSections? && s.sections == [] && s.stray == []) || p in SectionProblems(s.sections, words)
  {}

  // ---------------------------------------------------------------------------------------
  // Sections in order
  // ---------------------------------------------------------------------------------------

  function Rank(title: string): nat {
    if title == "Added" then 0
    else if title == "Changed" then 1
    else if title == "Fixed" then 2
    else if title == "Removed" then 3
    else if title == "Security" then 4
    else 5
  }

  lemma RankCons(title: string, first: string, rest: seq<string>)
    ensures RankFrom(title, [first] + rest) == if first == title then 0 else 1 + RankFrom(title, rest)
  {
    assert ([first] + rest)[1..] == rest;
  }

  lemma RankIs(title: string)
    ensures SectionRank(title) == Rank(title)
  {
    var r4: seq<string> := ["Security"];
    var r3: seq<string> := ["Removed"] + r4;
    var r2: seq<string> := ["Fixed"] + r3;
    var r1: seq<string> := ["Changed"] + r2;
    assert SECTION_ORDER == ["Added"] + r1 && r4 == ["Security"] + [];
    RankCons(title, "Security", []);
    RankCons(title, "Removed", r4);
    RankCons(title, "Fixed", r3);
    RankCons(title, "Changed", r2);
    RankCons(title, "Added", r1);
  }

  /** Of two sections that tie, the one listed first stays first. */
  predicate KeepsTies(sections: seq<Section>, sorted: seq<Section>) {
    forall i, j :: 0 <= i < j < |sorted| && SectionRank(sorted[i].title) == SectionRank(sorted[j].title)
                   && sorted[i].title != sorted[j].title ==>
      StandsBefore(sections, sorted[i].title, sorted[j].title)
  }

  /** Some section under `t` stands before every section under `u`. */
  predicate StandsBefore(sections: seq<Section>, t: string, u: string) {
    exists i :: 0 <= i < |sections| && sections[i].title == t
                && forall j :: 0 <= j < |sections| && sections[j].title == u ==> i < j
  }

  lemma {:induction false} InsertAt(x: Section, xs: seq<Section>) returns (p: nat)
    ensures p <= |xs| && Insert(RanksBefore, x, xs) == xs[..p] + [x] + xs[p..]
    ensures forall i :: 0 <= i < p ==> SectionRank(xs[i].title) < SectionRank(x.title)
  {
    if xs == [] || RanksBefore(x, xs[0]) {
      p := 0;
    } else {
      var q := InsertAt(x, xs[1..]);
      p := q + 1;
      assert xs[..p] == [xs[0]] + xs[1..][..q] && xs[p..] == xs[1..][q..];
    }
  }

  lemma StandsFirst(x: Section, xs: seq<Section>, u: string)
    requires x.title != u
    ensures StandsBefore([x] + xs, x.title, u)
  {
    assert ([x] + xs)[0] == x;
  }

  lemma StandsLater(x: Section, xs: seq<Section>, t: string, u: string)
    requires StandsBefore(xs, t, u) && x.title != u
    ensures StandsBefore([x] + xs, t, u)
  {
    var i :| 0 <= i < |xs| && xs[i].title == t && forall j :: 0 <= j < |xs| && xs[j].title == u ==> i < j;
    var all := [x] + xs;
    assert all[i + 1].title == t;
    forall j | 0 <= j < |all| && all[j].title == u ensures i + 1 < j {
      assert all[j] == xs[j - 1];
    }
  }

  lemma {:induction false} SortKeepsTies(sections: seq<Section>)
    requires DistinctTitles(sections)
    ensures KeepsTies(sections, Sort(RanksBefore, sections))
  {
    if sections != [] {
      var x, rest := sections[0], sections[1..];
      assert sections == [x] + rest;
      SortKeepsTies(rest);
      SameElements(Sort(RanksBefore, rest), rest);
      var xs := Sort(RanksBefore, rest);
      var p := InsertAt(x, xs);
      InsertKeepsTies(x, rest, xs, p);
    }
  }

  lemma InsertKeepsTies(x: Section, rest: seq<Section>, xs: seq<Section>, p: nat)
    requires DistinctTitles([x] + rest) && KeepsTies(rest, xs) && p <= |xs| && forall s :: s in xs <==> s in rest
    requires forall i :: 0 <= i < p ==> SectionRank(xs[i].title) < SectionRank(x.title)
    ensures KeepsTies([x] + rest, xs[..p] + [x] + xs[p..])
  {
    var out := xs[..p] + [x] + xs[p..];
    forall s | s in xs ensures s.title != x.title {
      var k :| 0 <= k < |rest| && rest[k] == s;
      assert ([x] + rest)[k + 1] == s && ([x] + rest)[0] == x;
    }
    forall i, j | 0 <= i < j < |out| && SectionRank(out[i].title) == SectionRank(out[j].title)
                  && out[i].title != out[j].title
      ensures StandsBefore([x] + rest, out[i].title, out[j].title)
    {
      if i == p {
        StandsFirst(x, rest, out[j].title);
      } else if j != p {
        var a, b := if i < p then i else i - 1, if j < p then j else j - 1;
        assert out[i] == xs[a] && out[j] == xs[b] && xs[b] in xs;
        StandsLater(x, rest, out[i].title, out[j].title);
      }
    }
  }

  lemma {:induction false} NonEmptyKeepsTies(sections: seq<Section>, xs: seq<Section>)
    requires KeepsTies(sections, xs)
    ensures KeepsTies(sections, NonEmptySections(xs))
  {
    if xs != [] {
      var rest := xs[1..];
      assert forall i :: 0 <= i < |rest| ==> rest[i] == xs[i + 1];
      NonEmptyKeepsTies(sections, rest);
      var kept := NonEmptySections(rest);
      if xs[0].items != [] {
        forall j | 0 <= j < |kept| && SectionRank(xs[0].title) == SectionRank(kept[j].title)
                   && xs[0].title != kept[j].title
          ensures StandsBefore(sections, xs[0].title, kept[j].title)
        {
          KeptAreMembers(rest);
          assert kept[j] in rest;
          var k :| 0 <= k < |rest| && rest[k] == kept[j];
          assert xs[k + 1] == kept[j];
        }
        assert NonEmptySections(xs) == [xs[0]] + kept;
      }
    }
  }

  lemma {:induction false} KeptAreMembers(xs: seq<Section>)
    ensures forall s :: s in NonEmptySections(xs) ==> s in xs
  {
    if xs != [] {
      KeptAreMembers(xs[1..]);
    }
  }

  /**
   The sections written: those with items, known titles in their fixed order, every other title after
   them in the order in which they were first seen.
   */
  lemma SectionsInOrder(sections: seq<Section>)
    requires GoodSections(sections)
    ensures var xs := Normal(sections);
            && (forall s :: s in xs <==> s in sections && s.items != [])
            && (forall i, j :: 0 <= i < j < |xs| ==>
                  && Rank(xs[i].title) <= Rank(xs[j].title)
                  && (Rank(xs[i].title) == Rank(xs[j].title) ==> StandsBefore(sections, xs[i].title, xs[j].title)))
            && RenderSections(sections) == JoinBlocks(xs)
  {
    var xs, sorted := Normal(sections), Sort(RanksBefore, sections);
    NormalKeeps(sections, "");
    SortKeepsTitles(sections);
    SortKeepsTies(sections);
    NonEmptyKeepsTies(sections, sorted);
    NonEmptyKeeps(sorted);
    SameElements(sorted, sections);
    forall i | 0 <= i < |xs| ensures SectionRank(xs[i].title) == Rank(xs[i].title) {
      RankIs(xs[i].title);
    }
    forall i, j | 0 <= i < j < |xs|
      ensures Rank(xs[i].title) <= Rank(xs[j].title)
      ensures Rank(xs[i].title) == Rank(xs[j].title) ==> StandsBefore(sections, xs[i].title, xs[j].title)
    {
      assert xs[i].title != xs[j].title;
    }
  }

  // ---------------------------------------------------------------------------------------
  // Spacing
  // ---------------------------------------------------------------------------------------

  /** A line is empty exactly after a heading and before one. */
  predicate SpacedAt(body: seq<Line>, i: nat)
    requires i < |body|
  {
    body[i] == "" <==> (i > 0 && IsHeading(body[i - 1])) || (i + 1 < |body| && IsHeading(body[i + 1]))
  }

  predicate WellSpaced(body: seq<Line>) {
    && (forall i :: 0 <= i < |body| ==> SpacedAt(body, i))
    && (body != [] ==> IsHeading(body[0]) && IsContent(body[|body| - 1]))
  }

  predicate AllContent(lines: seq<Line>) {
    forall i :: 0 <= i < |lines| ==> IsContent(lines[i])
  }

  lemma {:induction false} ItemsAreContent(items: seq<Item>)
    requires GoodItems(items)
    ensures AllContent(Flatten(items)) && (items != [] ==> Flatten(items) != [])
  {
    if items != [] {
      assert forall i :: 0 <= i < |items[1..]| ==> items[1..][i] == items[i + 1];
      ItemsAreContent(items[1..]);
      assert GoodItem(items[0]);
    }
  }

  lemma BlockSpaced(heading: Line, content: seq<Line>)
    requires IsHeading(heading) && AllContent(content) && content != []
    ensures WellSpaced([heading, ""] + content)
  {
    var body := [heading, ""] + content;
    BlankIsNoHeading();
    assert body[|body| - 1] == content[|content| - 1];
    forall i | 0 <= i < |body| ensures SpacedAt(body, i) {
      if i >= 2 {
        assert body[i] == content[i - 2] && IsContent(content[i - 2]);
        assert i + 1 < |body| ==> body[i + 1] == content[i - 1] && IsContent(content[i - 1]);
        assert i > 2 ==> body[i - 1] == content[i - 3] && IsContent(content[i - 3]);
      } else {
        assert body[2] == content[0] && IsContent(content[0]);
      }
    }
  }

  lemma BlankIsNoHeading()
    ensures !IsHeading("") && Blank("")
  {}

  lemma JoinSpaced(a: seq<Line>, b: seq<Line>)
    requires WellSpaced(a) && WellSpaced(b) && a != [] && b != []
    ensures WellSpaced(a + [""] + b)
  {
    var body := a + [""] + b;
    BlankIsNoHeading();
    forall i | 0 <= i < |body| ensures SpacedAt(body, i) {
      if i < |a| {
        assert SpacedAt(a, i) && body[i] == a[i];
        assert i + 1 < |a| ==> body[i + 1] == a[i + 1];
      } else if i > |a| {
        assert SpacedAt(b, i - |a| - 1) && body[i] == b[i - |a| - 1];
        assert i + 1 < |body| ==> body[i + 1] == b[i - |a|];
      }
    }
  }

  lemma {:induction false} BlocksSpaced(xs: seq<Section>)
    requires GoodSections(xs) && AllNonEmpty(xs)
    ensures WellSpaced(JoinBlocks(xs)) && (xs != [] ==> JoinBlocks(xs) != [])
  {
    if xs != [] {
      HeadingReads(xs[0].title);
      ItemsAreContent(xs[0].items);
      BlockSpaced(HeadingLine(xs[0].title), Flatten(xs[0].items));
      if |xs| > 1 {
        GoodTail(xs);
        assert forall i :: 0 <= i < |xs[1..]| ==> xs[1..][i] == xs[i + 1];
        BlocksSpaced(xs[1..]);
        JoinSpaced(BlockLines(xs[0]), JoinBlocks(xs[1..]));
      }
    }
  }

  /** One blank line after every heading and before every heading but the first, and none elsewhere. */
  lemma RenderedIsSpaced(sections: seq<Section>)
    requires GoodSections(sections)
    ensures WellSpaced(RenderSections(sections))
  {
    NormalKeeps(sections, "");
    BlocksSpaced(Normal(sections));
  }

  // ---------------------------------------------------------------------------------------
  // The whole text
  // ---------------------------------------------------------------------------------------

  /** The release heading as it is written. */
  lemma HeadingText(version: string, date: string, name: string)
    ensures ReleaseHeading(Release(version, date, name)) == "## [" + version + "] — " + date + " — \"" + name + "\""
    ensures ReleaseHeading(Release("1.2.3", "2026-01-31", "Ada")) == "## [1.2.3] — 2026-01-31 — \"Ada\""
    ensures HeadingLine("Added") == "### Added" && UNRELEASED == "## [Unreleased]"
  {}

  function BlankThen(body: seq<Line>): seq<Line> {
    if body == [] then [] else [""] + body
  }

  /** The old text with the Unreleased block replaced, and the new release under its heading if there is one. */
  lemma AssembledText(lines: seq<Line>, fragments: seq<Fragment>, release: Option<Release>, collate: string -> int,
                      words: Line -> nat)
    requires Assembled(lines, fragments, release, collate, words).Ok?
    ensures var body, b := RenderSections(MergedSections(lines, fragments, collate)), BoundsOf(lines);
            Assembled(lines, fragments, release, collate, words).value
            == (if b.start == 0 then [""] else lines[..b.start]) + ["## [Unreleased]"]
               + (if release.None? then [] else ["", ReleaseHeading(release.value)])
               + BlankThen(body) + [""] + lines[b.end..]
  {
    OutputIs(lines, fragments, release, collate, words);
    ReplacementText(Before(lines, BoundsOf(lines).start), RenderSections(MergedSections(lines, fragments, collate)),
                    release, lines[BoundsOf(lines).end..]);
  }

  lemma ReplacementText(before: seq<Line>, body: seq<Line>, release: Option<Release>, after: seq<Line>)
    ensures before + Replacement(body, release) + [""] + after
         == before + ["## [Unreleased]"] + (if release.None? then [] else ["", ReleaseHeading(release.value)])
            + BlankThen(body) + [""] + after
  {
    var head := if release.None? then [] else ["", ReleaseHeading(release.value)];
    ReplacementParts(body, release);
    Grouped(before, ["## [Unreleased]"], head, BlankThen(body));
  }

  lemma ReplacementParts(body: seq<Line>, release: Option<Release>)
    ensures Replacement(body, release)
         == ["## [Unreleased]"] + (if release.None? then [] else ["", ReleaseHeading(release.value)]) + BlankThen(body)
  {}

  lemma Grouped<T>(a: seq<T>, b: seq<T>, c: seq<T>, d: seq<T>)
    ensures a + (b + c + d) == a + b + c + d
  {}

  /** The first line that is the Unreleased heading, white space aside; the block ends at the next release heading. */
  lemma BlockFound(lines: seq<Line>)
    ensures var b := BoundsOf(lines);
            && (forall k :: 0 <= k < b.start ==> Trim(lines[k]) != "## [Unreleased]")
            && (b.start < |lines| ==>
                  && Trim(lines[b.start]) == "## [Unreleased]"
                  && (forall k :: b.start < k < b.end ==> !("## [" <= lines[k]))
                  && (b.end < |lines| ==> "## [" <= lines[b.end]))
  {}

  /** Some line begins with these characters. */
  predicate HeadedBy(lines: seq<Line>, start: string) {
    exists k :: 0 <= k < |lines| && start <= lines[k]
  }

  /** What is refused, and as what, in the order it is looked for. */
  lemma RefusedExactly(lines: seq<Line>, fragments: seq<Fragment>, release: Option<Release>, collate: string -> int,
                       words: Line -> nat)
    ensures var r := Assembled(lines, fragments, release, collate, words);
            var invalid := exists i :: 0 <= i < |fragments| && FragmentProblems(fragments[i].content, words) != [];
            var unreleased := exists k :: 0 <= k < |lines| && Trim(lines[k]) == "## [Unreleased]";
            var released := release.Some? && HeadedBy(lines, "## [" + release.value.version + "]");
            && (r == Err(InvalidFragments) <==> invalid)
            && (r == Err(NoUnreleased) <==> !invalid && !unreleased)
            && (r == Err(AlreadyReleased) <==> !invalid && unreleased && released)
            && (r == Err(StrayText) <==> !invalid && unreleased && !released && LinesOutside(OldBlock(lines)) != [])
  {
    ParseConserves(OldBlock(lines), "");
    var b := BoundsOf(lines);
    if b.start == |lines| {
      forall k | 0 <= k < |lines| ensures Trim(lines[k]) != "## [Unreleased]" {
        assert !IsUnreleased(lines[k]);
      }
    } else {
      assert IsUnreleased(lines[b.start]);
    }
  }
}
