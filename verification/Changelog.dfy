/**
 Folding changelog fragments into CHANGELOG.md.  A text is the list `split('\n')` gives; the rules
 that need a word count or collation take them as functions.
 */
module Changelog {
  import opened Common
  import opened Text
  import opened Sorting

  type Line = string
  type Item = seq<Line>

  datatype Section = Section(title: string, items: seq<Item>)

  const UNRELEASED := "## [Unreleased]"
  const RELEASE_PREFIX := "## ["
  const DASH := "- "
  const HASHES := "###"
  const SECTION_ORDER := ["Added", "Changed", "Fixed", "Removed", "Security"]
  const MAX_BULLET_WORDS := 15

  // ---------------------------------------------------------------------------------------
  // Lines
  // ---------------------------------------------------------------------------------------

  /** `/^###\s+(.+?)\s*$/`; a title of white space alone needs two of them. */
  predicate IsHeading(line: Line) {
    && StartsWith(line, HASHES) && |line| > 3 && IsSpace(line[3])
    && (Trim(line[3..]) != "" || |line| > 4)
  }

  function TitleOf(line: Line): string
    requires IsHeading(line)
  {
    if Trim(line[3..]) != "" then Trim(line[3..]) else [line[|line| - 1]]
  }

  predicate IsBullet(line: Line) {
    StartsWith(line, DASH)
  }

  // ---------------------------------------------------------------------------------------
  // Parsing
  // ---------------------------------------------------------------------------------------

  function IndexOf(sections: seq<Section>, title: string): Option<nat> {
    if sections == [] then None
    else if sections[0].title == title then Some(0)
    else
      match IndexOf(sections[1..], title)
      case None => None
      case Some(i) => Some(i + 1)
  }

  lemma {:induction false} IndexInside(sections: seq<Section>, title: string)
    ensures IndexOf(sections, title).Some? ==>
              IndexOf(sections, title).value < |sections| && sections[IndexOf(sections, title).value].title == title
    ensures IndexOf(sections, title).None? ==> forall i :: 0 <= i < |sections| ==> sections[i].title != title
  {
    if sections != [] && sections[0].title != title {
      IndexInside(sections[1..], title);
      assert forall i :: 0 < i < |sections| ==> sections[i] == sections[1..][i - 1];
    }
  }

  function ItemsOf(sections: seq<Section>, title: string): seq<Item> {
    match IndexOf(sections, title)
    case None => []
    case Some(i) => IndexInside(sections, title); sections[i].items
  }

  /** The loop's variables: the map, the current section, and whether a bullet is open. */
  datatype Scan = Scan(sections: seq<Section>, current: Option<nat>, open: bool, stray: seq<Line>)

  predicate Sane(s: Scan) {
    && (s.current.Some? ==> s.current.value < |s.sections|)
    && (s.open ==> s.current.Some? && s.sections[s.current.value].items != [])
  }

  function PushItem(s: Scan, line: Line): Scan
    requires Sane(s) && s.current.Some?
  {
    var i := s.current.value;
    s.(sections := s.sections[i := Section(s.sections[i].title, s.sections[i].items + [[line]])], open := true)
  }

  function ExtendItem(s: Scan, line: Line): Scan
    requires Sane(s) && s.open
  {
    var i := s.current.value;
    var items := s.sections[i].items;
    s.(sections := s.sections[i := Section(s.sections[i].title, items[|items| - 1 := items[|items| - 1] + [line]])])
  }

  function OpenSection(s: Scan, title: string): Scan {
    match IndexOf(s.sections, title)
    case Some(i) => s.(current := Some(i), open := false)
    case None => s.(sections := s.sections + [Section(title, [])], current := Some(|s.sections|), open := false)
  }

  function Step(s: Scan, line: Line): (r: Scan)
    requires Sane(s)
    ensures Sane(r)
  {
    if IsHeading(line) then IndexInside(s.sections, TitleOf(line)); OpenSection(s, TitleOf(line))
    else if Blank(line) then s.(open := false)
    else if s.current.None? then s.(stray := s.stray + [line])
    else if IsBullet(line) || !s.open then PushItem(s, line)
    else ExtendItem(s, line)
  }

  function ScanAll(s: Scan, lines: seq<Line>): (r: Scan)
    requires Sane(s)
    ensures Sane(r)
    decreases |lines|
  {
    if lines == [] then s else ScanAll(Step(s, lines[0]), lines[1..])
  }

  const NOTHING := Scan([], None, false, [])

  method ParseSections(lines: seq<Line>) returns (sections: seq<Section>, stray: seq<Line>)
    ensures sections == ScanAll(NOTHING, lines).sections && stray == ScanAll(NOTHING, lines).stray
  {
    sections, stray := [], [];
    var current: Option<nat> := None;
    var item := false;
    for i := 0 to |lines|
      invariant Sane(Scan(sections, current, item, stray))
      invariant ScanAll(Scan(sections, current, item, stray), lines[i..]) == ScanAll(NOTHING, lines)
    {
      var line := lines[i];
      assert lines[i..][1..] == lines[i + 1..];
      if IsHeading(line) {
        IndexInside(sections, TitleOf(line));
        match IndexOf(sections, TitleOf(line)) {
          case Some(k) => current := Some(k);
          case None =>
            current := Some(|sections|);
            sections := sections + [Section(TitleOf(line), [])];
        }
        item := false;
        continue;
      }
      if Blank(line) {
        item := false;
        continue;
      }
      if current.None? {
        stray := stray + [line];
        continue;
      }
      var k := current.value;
      var items := sections[k].items;
      if IsBullet(line) || !item {
        sections := sections[k := Section(sections[k].title, items + [[line]])];
        item := true;
      } else {
        sections := sections[k := Section(sections[k].title, items[|items| - 1 := items[|items| - 1] + [line]])];
      }
    }
  }

  // ---------------------------------------------------------------------------------------
  // Fragment rules
  // ---------------------------------------------------------------------------------------

  datatype Problem =
    | TextOutside(line: Line) | WrongHeading(line: Line) | NoSections
    | UnknownSection(title: string) | EmptySection(title: string)
    | ManyLines(line: Line) | BadBullet(line: Line) | TooManyWords(line: Line)

  function Hashes(line: Line): (n: nat)
    ensures n <= |line|
  {
    if line != [] && line[0] == '#' then 1 + Hashes(line[1..]) else 0
  }

  /** `/^#{1,2}\s/` or `/^#{4,}\s/`. */
  predicate OtherHeading(line: Line) {
    var n := Hashes(line);
    n < |line| && IsSpace(line[n]) && (n == 1 || n == 2 || n >= 4)
  }

  /** `/^- \*\*.+?\*\* — \S/`. */
  predicate BulletShape(line: Line) {
    StartsWith(line, "- **")
    && exists k :: 5 <= k < |line| - 5 && OccursAt(line, "** — ", k) && !IsSpace(line[k + 5])
  }

  function ItemProblems(items: seq<Item>, words: Line -> nat): seq<Problem> {
    if items == [] then []
    else
      (if |items[0]| == 0 then []
       else if |items[0]| > 1 then [ManyLines(items[0][0])]
       else if !BulletShape(items[0][0]) then [BadBullet(items[0][0])]
       else if words(items[0][0]) > MAX_BULLET_WORDS then [TooManyWords(items[0][0])]
       else [])
      + ItemProblems(items[1..], words)
  }

  function SectionProblems(sections: seq<Section>, words: Line -> nat): seq<Problem> {
    if sections == [] then []
    else
      (if sections[0].title in SECTION_ORDER then [] else [UnknownSection(sections[0].title)])
      + (if sections[0].items == [] then [EmptySection(sections[0].title)] else [])
      + ItemProblems(sections[0].items, words)
      + SectionProblems(sections[1..], words)
  }

  function Outside(stray: seq<Line>): seq<Problem> {
    if stray == [] then [] else [TextOutside(stray[0])] + Outside(stray[1..])
  }

  function WrongHeadings(lines: seq<Line>): seq<Problem> {
    if lines == [] then []
    else (if OtherHeading(lines[0]) then [WrongHeading(lines[0])] else []) + WrongHeadings(lines[1..])
  }

  function FragmentProblems(content: seq<Line>, words: Line -> nat): seq<Problem> {
    var p := ScanAll(NOTHING, content);
    Outside(p.stray) + WrongHeadings(content)
    + (if p.sections == [] && p.stray == [] then [NoSections] else [])
    + SectionProblems(p.sections, words)
  }

  // ---------------------------------------------------------------------------------------
  // Rendering
  // ---------------------------------------------------------------------------------------

  function RankFrom(title: string, order: seq<string>): nat {
    if order == [] || order[0] == title then 0 else 1 + RankFrom(title, order[1..])
  }

  /** Known sections in their fixed order, every other title after them. */
  function SectionRank(title: string): nat {
    RankFrom(title, SECTION_ORDER)
  }

  predicate RanksBefore(a: Section, b: Section) {
    SectionRank(a.title) <= SectionRank(b.title)
  }

  function NonEmptySections(sections: seq<Section>): seq<Section> {
    if sections == [] then []
    else (if sections[0].items != [] then [sections[0]] else []) + NonEmptySections(sections[1..])
  }

  function HeadingLine(title: string): Line {
    "### " + title
  }

  function BlockLines(s: Section): seq<Line> {
    [HeadingLine(s.title), ""] + Flatten(s.items)
  }

  /** Blocks with one blank line between them. */
  function JoinBlocks(sections: seq<Section>): seq<Line> {
    if sections == [] then []
    else if |sections| == 1 then BlockLines(sections[0])
    else BlockLines(sections[0]) + [""] + JoinBlocks(sections[1..])
  }

  function RenderSections(sections: seq<Section>): seq<Line> {
    JoinBlocks(NonEmptySections(Sort(RanksBefore, sections)))
  }

  // ---------------------------------------------------------------------------------------
  // Assembly
  // ---------------------------------------------------------------------------------------

  datatype Fragment = Fragment(name: string, content: seq<Line>)

  datatype Release = Release(version: string, date: string, name: string)

  function ReleaseHeading(r: Release): Line {
    "## [" + r.version + "] — " + r.date + " — \"" + r.name + "\""
  }

  datatype AssembleError = InvalidFragments | NoUnreleased | AlreadyReleased | StrayText

  function FirstIndex(p: Line -> bool, lines: seq<Line>, from: nat): (i: nat)
    requires from <= |lines|
    ensures from <= i <= |lines|
    ensures i < |lines| ==> p(lines[i])
    ensures forall k :: from <= k < i ==> !p(lines[k])
    decreases |lines| - from
  {
    if from == |lines| || p(lines[from]) then from else FirstIndex(p, lines, from + 1)
  }

  predicate IsUnreleased(line: Line) {
    Trim(line) == UNRELEASED
  }

  predicate IsRelease(line: Line) {
    StartsWith(line, RELEASE_PREFIX)
  }

  predicate AllValid(fragments: seq<Fragment>, words: Line -> nat) {
    forall i :: 0 <= i < |fragments| ==> FragmentProblems(fragments[i].content, words) == []
  }

  /** `merged.set(title, [...existing, ...items])`. */
  function AddItems(merged: seq<Section>, title: string, items: seq<Item>): seq<Section> {
    match IndexOf(merged, title)
    case None => merged + [Section(title, items)]
    case Some(i) => IndexInside(merged, title); merged[i := Section(title, merged[i].items + items)]
  }

  function AddSections(merged: seq<Section>, sections: seq<Section>): seq<Section>
    decreases |sections|
  {
    if sections == [] then merged
    else AddSections(AddItems(merged, sections[0].title, sections[0].items), sections[1..])
  }

  function AddFragments(merged: seq<Section>, ordered: seq<Fragment>): seq<Section>
    decreases |ordered|
  {
    if ordered == [] then merged
    else AddFragments(AddSections(merged, ScanAll(NOTHING, ordered[0].content).sections), ordered[1..])
  }

  /** Fragments by file name, as `localeCompare` orders names. */
  function Ordered(fragments: seq<Fragment>, collate: string -> int): seq<Fragment> {
    Sort((a: Fragment, b: Fragment) => collate(a.name) <= collate(b.name), fragments)
  }

  /** The replacement with its trailing line breaks collapsed to one. */
  function Replacement(body: seq<Line>, release: Option<Release>): seq<Line> {
    match release
    case None => if body == [] then [UNRELEASED] else [UNRELEASED, ""] + body
    case Some(r) => [UNRELEASED, ""] + (if body == [] then [ReleaseHeading(r)] else [ReleaseHeading(r), ""] + body)
  }

  predicate HasRelease(lines: seq<Line>, version: string) {
    exists i :: 0 <= i < |lines| && StartsWith(lines[i], RELEASE_PREFIX + version + "]")
  }

  /** Where the Unreleased block lies: its heading, and the next release heading or the end. */
  datatype Bounds = Bounds(start: nat, end: nat)

  function BoundsOf(lines: seq<Line>): (b: Bounds)
    ensures b.start <= |lines| && b.end <= |lines|
    ensures b.start < |lines| ==> b.start < b.end
  {
    var start := FirstIndex(IsUnreleased, lines, 0);
    if start == |lines| then Bounds(start, start) else Bounds(start, FirstIndex(IsRelease, lines, start + 1))
  }

  /** Text before the heading; a heading on the first line is given a blank line before it. */
  function Before(lines: seq<Line>, start: nat): seq<Line>
    requires start <= |lines|
  {
    if start == 0 then [""] else lines[..start]
  }

  function OldBlock(lines: seq<Line>): seq<Line> {
    var b := BoundsOf(lines);
    if b.start == |lines| then [] else lines[b.start + 1..b.end]
  }

  function MergedSections(lines: seq<Line>, fragments: seq<Fragment>, collate: string -> int): seq<Section> {
    AddSections(AddFragments([], Ordered(fragments, collate)), ScanAll(NOTHING, OldBlock(lines)).sections)
  }

  function Assembled(lines: seq<Line>, fragments: seq<Fragment>, release: Option<Release>, collate: string -> int,
                     words: Line -> nat)
    : Result<seq<Line>, AssembleError>
  {
    var b := BoundsOf(lines);
    if !AllValid(fragments, words) then Err(InvalidFragments)
    else if b.start == |lines| then Err(NoUnreleased)
    else if release.Some? && HasRelease(lines, release.value.version) then Err(AlreadyReleased)
    else if ScanAll(NOTHING, OldBlock(lines)).stray != [] then Err(StrayText)
    else
      var body := RenderSections(MergedSections(lines, fragments, collate));
      Ok(Before(lines, b.start) + Replacement(body, release) + [""] + lines[b.end..])
  }

  method Assemble(lines: seq<Line>, fragments: seq<Fragment>, release: Option<Release>, collate: string -> int,
                  words: Line -> nat)
    returns (r: Result<seq<Line>, AssembleError>)
    ensures r == Assembled(lines, fragments, release, collate, words)
  {
    if !AllValid(fragments, words) {
      return Err(InvalidFragments);
    }
    var b := BoundsOf(lines);
    if b.start == |lines| {
      return Err(NoUnreleased);
    }
    if release.Some? && HasRelease(lines, release.value.version) {
      return Err(AlreadyReleased);
    }
    var oldSections, stray := ParseSections(lines[b.start + 1..b.end]);
    if |stray| > 0 {
      return Err(StrayText);
    }
    var merged := MergeAll(Ordered(fragments, collate), oldSections);
    r := Ok(Before(lines, b.start) + Replacement(RenderSections(merged), release) + [""] + lines[b.end..]);
  }

  /** Fragments first, in order, then what was already there. */
  method MergeAll(ordered: seq<Fragment>, oldSections: seq<Section>) returns (merged: seq<Section>)
    ensures merged == AddSections(AddFragments([], ordered), oldSections)
  {
    merged := [];
    for f := 0 to |ordered|
      invariant AddFragments(merged, ordered[f..]) == AddFragments([], ordered)
    {
      assert ordered[f..][1..] == ordered[f + 1..];
      var sections, _ := ParseSections(ordered[f].content);
      merged := AddMap(merged, sections);
    }
    merged := AddMap(merged, oldSections);
  }

  /** The loop over one parsed map. */
  method AddMap(start: seq<Section>, sections: seq<Section>) returns (merged: seq<Section>)
    ensures merged == AddSections(start, sections)
  {
    merged := start;
    for i := 0 to |sections|
      invariant AddSections(merged, sections[i..]) == AddSections(start, sections)
    {
      assert sections[i..][1..] == sections[i + 1..];
      merged := AddItems(merged, sections[i].title, sections[i].items);
    }
  }
}
