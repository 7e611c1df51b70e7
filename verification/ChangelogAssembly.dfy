/** What one assembly conserves, that it is idempotent, and what a valid fragment looks like. */
module ChangelogAssembly {
  import opened Common
  import opened Text
  import opened Sorting
  import opened Changelog
  import opened ChangelogTheorems

  // ---------------------------------------------------------------------------------------
  // Merging the parsed maps
  // ---------------------------------------------------------------------------------------

  lemma AddItemsKeeps(merged: seq<Section>, title: string, items: seq<Item>, t: string)
    requires GoodSections(merged) && GoodTitle(title) && GoodItems(items)
    ensures GoodSections(AddItems(merged, title, items))
    ensures ItemsOf(AddItems(merged, title, items), t) == ItemsOf(merged, t) + (if t == title then items else [])
    ensures HasTitle(AddItems(merged, title, items), t) <==> HasTitle(merged, t) || t == title
  {
    IndexInside(merged, title);
    IndexPresent(merged, title);
    match IndexOf(merged, title)
    case None =>
      ItemsAppend(merged, title, items, t);
      ItemsAbsent(merged, title);
    case Some(i) =>
      ItemsAt(merged, i);
      UpdateGood(merged, i, merged[i].items + items);
      ItemsUpdate(merged, i, merged[i].items + items, t);
  }

  lemma ConsItems(sections: seq<Section>, t: string)
    requires GoodSections(sections) && sections != []
    ensures ItemsOf(sections, t)
            == (if t == sections[0].title then sections[0].items else []) + ItemsOf(sections[1..], t)
  {
    GoodCons(sections);
    if t == sections[0].title {
      ItemsAt(sections, 0);
      ItemsAbsent(sections[1..], t);
    } else {
      OtherItems(sections, t);
    }
  }

  lemma {:induction false} AddSectionsKeeps(merged: seq<Section>, sections: seq<Section>, t: string)
    requires GoodSections(merged) && GoodSections(sections)
    ensures GoodSections(AddSections(merged, sections))
    ensures ItemsOf(AddSections(merged, sections), t) == ItemsOf(merged, t) + ItemsOf(sections, t)
    decreases |sections|
  {
    if sections != [] {
      var first, rest := sections[0], sections[1..];
      GoodCons(sections);
      AddItemsKeeps(merged, first.title, first.items, t);
      AddSectionsKeeps(AddItems(merged, first.title, first.items), rest, t);
      ConsItems(sections, t);
      Regroup(ItemsOf(AddSections(merged, sections), t), ItemsOf(merged, t),
              if t == first.title then first.items else [],
              ItemsOf(rest, t), ItemsOf(sections, t));
    } else {
      ItemsAbsent(sections, t);
    }
  }

  lemma OtherItems(sections: seq<Section>, t: string)
    requires sections != [] && sections[0].title != t
    ensures ItemsOf(sections, t) == ItemsOf(sections[1..], t)
  {
    IndexInside(sections, t);
    IndexInside(sections[1..], t);
  }

  /** The lines every fragment holds under `t`, in the order of the fragments. */
  function FragmentLines(fragments: seq<Fragment>, t: string): seq<Line> {
    if fragments == [] then [] else LinesUnder(fragments[0].content, None, t) + FragmentLines(fragments[1..], t)
  }

  lemma {:induction false} AddFragmentsKeeps(merged: seq<Section>, fragments: seq<Fragment>, t: string)
    requires GoodSections(merged)
    ensures GoodSections(AddFragments(merged, fragments))
    ensures Content(AddFragments(merged, fragments), t) == Content(merged, t) + FragmentLines(fragments, t)
    decreases |fragments|
  {
    if fragments != [] {
      var p := ScanAll(NOTHING, fragments[0].content).sections;
      ParseConserves(fragments[0].content, t);
      AddSectionsKeeps(merged, p, t);
      FlattenAppend(ItemsOf(merged, t), ItemsOf(p, t));
      AddFragmentsKeeps(AddSections(merged, p), fragments[1..], t);
      Regroup(Content(AddFragments(merged, fragments), t), Content(merged, t),
              LinesUnder(fragments[0].content, None, t),
              FragmentLines(fragments[1..], t), FragmentLines(fragments, t));
    }
  }

  lemma AddMeans(merged: seq<Section>, sections: seq<Section>, t: string)
    requires GoodSections(merged) && GoodSections(sections)
    ensures GoodSections(AddSections(merged, sections))
    ensures Content(AddSections(merged, sections), t) == Content(merged, t) + Content(sections, t)
  {
    AddSectionsKeeps(merged, sections, t);
    FlattenAppend(ItemsOf(merged, t), ItemsOf(sections, t));
  }

  lemma NothingIsGood(t: string)
    ensures GoodSections([]) && Content([], t) == []
  {
    var none: seq<Section> := [];
    ItemsAbsent(none, t);
  }

  lemma FragmentsMean(ordered: seq<Fragment>, t: string)
    ensures GoodSections(AddFragments([], ordered))
            && Content(AddFragments([], ordered), t) == FragmentLines(ordered, t)
  {
    NothingIsGood(t);
    AddFragmentsKeeps([], ordered, t);
    assert [] + FragmentLines(ordered, t) == FragmentLines(ordered, t);
  }

  lemma MergeMeans(ordered: seq<Fragment>, block: seq<Line>, t: string)
    ensures GoodSections(AddSections(AddFragments([], ordered), ScanAll(NOTHING, block).sections))
    ensures Content(AddSections(AddFragments([], ordered), ScanAll(NOTHING, block).sections), t)
         == FragmentLines(ordered, t) + LinesUnder(block, None, t)
  {
    FragmentsMean(ordered, t);
    ParseConserves(block, t);
    AddMeans(AddFragments([], ordered), ScanAll(NOTHING, block).sections, t);
  }

  lemma MergedKeeps(lines: seq<Line>, fragments: seq<Fragment>, collate: string -> int, t: string)
    ensures GoodSections(MergedSections(lines, fragments, collate))
    ensures Content(MergedSections(lines, fragments, collate), t)
         == FragmentLines(Ordered(fragments, collate), t) + LinesUnder(OldBlock(lines), None, t)
  {
    MergeMeans(Ordered(fragments, collate), OldBlock(lines), t);
  }

  /** `Ordered` only rearranges the fragments, by name. */
  lemma OrderedByName(fragments: seq<Fragment>, collate: string -> int)
    ensures multiset(Ordered(fragments, collate)) == multiset(fragments)
    ensures forall i, j :: 0 <= i < j < |fragments| ==>
              collate(Ordered(fragments, collate)[i].name) <= collate(Ordered(fragments, collate)[j].name)
  {
    var leq := (a: Fragment, b: Fragment) => collate(a.name) <= collate(b.name);
    assert TotalPreorder(leq);
    SortSorts(leq, fragments);
    var o := Ordered(fragments, collate);
    assert o == Sort(leq, fragments);
    forall i, j | 0 <= i < j < |fragments| ensures collate(o[i].name) <= collate(o[j].name) {
      assert leq(o[i], o[j]);
    }
  }

  // ---------------------------------------------------------------------------------------
  // Which lines a rendered block can hold
  // ---------------------------------------------------------------------------------------

  predicate NoRelease(lines: seq<Line>) {
    forall i :: 0 <= i < |lines| ==> !IsRelease(lines[i])
  }

  lemma {:induction false} UnderIsPart(lines: seq<Line>, cur: Option<string>, t: string)
    requires NoRelease(lines)
    ensures NoRelease(LinesUnder(lines, cur, t))
  {
    if lines != [] {
      assert forall i :: 0 <= i < |lines[1..]| ==> lines[1..][i] == lines[i + 1];
      UnderIsPart(lines[1..], if IsHeading(lines[0]) then Some(TitleOf(lines[0])) else cur, t);
    }
  }

  lemma {:induction false} NoWrongHeadings(lines: seq<Line>)
    ensures WrongHeadings(lines) == [] <==> forall i :: 0 <= i < |lines| ==> !OtherHeading(lines[i])
  {
    if lines != [] {
      NoWrongHeadings(lines[1..]);
      assert forall i :: 1 <= i < |lines| ==> lines[i] == lines[1..][i - 1];
      assert forall i :: 0 <= i < |lines[1..]| ==> lines[1..][i] == lines[i + 1];
    }
  }

  lemma ReleaseIsOtherHeading(line: Line)
    requires IsRelease(line)
    ensures OtherHeading(line)
  {
    assert line[0] == RELEASE_PREFIX[0] && line[1] == RELEASE_PREFIX[1] && line[2] == RELEASE_PREFIX[2];
    assert line[1..][0] == '#' && line[1..][1..][0] == ' ';
    assert Hashes(line[1..][1..]) == 0 && Hashes(line[1..]) == 1;
  }

  lemma ValidHasNoRelease(content: seq<Line>, words: Line -> nat)
    requires FragmentProblems(content, words) == []
    ensures NoRelease(content)
  {
    var p := ScanAll(NOTHING, content);
    assert |FragmentProblems(content, words)| >= |WrongHeadings(content)|;
    NoWrongHeadings(content);
    forall i | 0 <= i < |content| ensures !IsRelease(content[i]) {
      if IsRelease(content[i]) {
        ReleaseIsOtherHeading(content[i]);
      }
    }
  }

  lemma {:induction false} FragmentLinesOrdinary(fragments: seq<Fragment>, t: string)
    requires forall i :: 0 <= i < |fragments| ==> NoRelease(fragments[i].content)
    ensures NoRelease(FragmentLines(fragments, t))
  {
    if fragments != [] {
      UnderIsPart(fragments[0].content, None, t);
      assert forall i :: 0 <= i < |fragments[1..]| ==> fragments[1..][i] == fragments[i + 1];
      FragmentLinesOrdinary(fragments[1..], t);
    }
  }

  lemma HeadingNotRelease(title: string)
    ensures !IsRelease(HeadingLine(title))
  {
    assert HeadingLine(title)[2] == '#';
    assert RELEASE_PREFIX[2] == ' ';
  }

  lemma {:induction false} BlocksHaveNoRelease(sections: seq<Section>)
    requires forall i :: 0 <= i < |sections| ==> NoRelease(Flatten(sections[i].items))
    ensures NoRelease(JoinBlocks(sections))
  {
    if sections != [] {
      HeadingNotRelease(sections[0].title);
      assert NoRelease(BlockLines(sections[0]));
      assert forall i :: 0 <= i < |sections[1..]| ==> sections[1..][i] == sections[i + 1];
      BlocksHaveNoRelease(sections[1..]);
    }
  }

  lemma RenderedHasNoRelease(sections: seq<Section>)
    requires GoodSections(sections) && forall t :: HasTitle(sections, t) ==> NoRelease(Content(sections, t))
    ensures NoRelease(RenderSections(sections))
  {
    NormalKeeps(sections, "");
    var xs := Normal(sections);
    forall i | 0 <= i < |xs| ensures NoRelease(Flatten(xs[i].items)) {
      var t := xs[i].title;
      NormalKeeps(sections, t);
      ItemsAt(xs, i);
      ItemsAbsentOr(sections, t);
    }
    BlocksHaveNoRelease(xs);
  }

  lemma ItemsAbsentOr(sections: seq<Section>, t: string)
    ensures HasTitle(sections, t) || ItemsOf(sections, t) == []
  {
    if !HasTitle(sections, t) {
      ItemsAbsent(sections, t);
    }
  }

  lemma OrderedHaveNoRelease(fragments: seq<Fragment>, collate: string -> int, words: Line -> nat)
    requires AllValid(fragments, words)
    ensures forall i :: 0 <= i < |Ordered(fragments, collate)| ==> NoRelease(Ordered(fragments, collate)[i].content)
  {
    var o := Ordered(fragments, collate);
    SameElements(o, fragments);
    forall i | 0 <= i < |o| ensures NoRelease(o[i].content) {
      assert o[i] in fragments;
      ValidHasNoRelease(o[i].content, words);
    }
  }

  lemma OldHasNoRelease(lines: seq<Line>)
    ensures NoRelease(OldBlock(lines))
  {}

  lemma NoReleaseAppend(a: seq<Line>, b: seq<Line>)
    requires NoRelease(a) && NoRelease(b)
    ensures NoRelease(a + b)
  {}

  lemma BodyHasNoRelease(lines: seq<Line>, fragments: seq<Fragment>, collate: string -> int, words: Line -> nat)
    requires AllValid(fragments, words)
    ensures NoRelease(RenderSections(MergedSections(lines, fragments, collate)))
  {
    var m := MergedSections(lines, fragments, collate);
    MergedKeeps(lines, fragments, collate, "");
    OrderedHaveNoRelease(fragments, collate, words);
    OldHasNoRelease(lines);
    forall t ensures NoRelease(Content(m, t)) {
      MergedKeeps(lines, fragments, collate, t);
      FragmentLinesOrdinary(Ordered(fragments, collate), t);
      UnderIsPart(OldBlock(lines), None, t);
      NoReleaseAppend(FragmentLines(Ordered(fragments, collate), t), LinesUnder(OldBlock(lines), None, t));
    }
    RenderedHasNoRelease(m);
  }

  // ---------------------------------------------------------------------------------------
  // Finding the blocks again
  // ---------------------------------------------------------------------------------------

  /** The lines after the heading at `start`, up to the next release heading. */
  function BlockAt(lines: seq<Line>, start: nat): seq<Line>
    requires start < |lines|
  {
    lines[start + 1..FirstIndex(IsRelease, lines, start + 1)]
  }

  lemma {:induction false} FirstIndexIs(p: Line -> bool, lines: seq<Line>, from: nat, at: nat)
    requires from <= at <= |lines|
    requires forall k :: from <= k < at ==> !p(lines[k])
    requires at < |lines| ==> p(lines[at])
    ensures FirstIndex(p, lines, from) == at
    decreases at - from
  {
    if from < at {
      FirstIndexIs(p, lines, from + 1, at);
    }
  }

  /** The heading line, the block under it, and what follows. */
  function Laid(before: seq<Line>, heading: Line, block: seq<Line>, after: seq<Line>): seq<Line> {
    before + ([heading] + (block + after))
  }

  lemma LaidParts(before: seq<Line>, heading: Line, block: seq<Line>, after: seq<Line>)
    ensures var out, at := Laid(before, heading, block, after), |before|;
            && |out| == at + 1 + |block| + |after|
            && out[..at] == before && out[at] == heading
            && out[at + 1..at + 1 + |block|] == block && out[at + 1 + |block|..] == after
            && (forall k :: 0 <= k < |block| ==> out[at + 1 + k] == block[k])
  {
    var rest := [heading] + (block + after);
    assert rest[0] == heading && rest[1..] == block + after;
    var out, at := before + rest, |before|;
    assert out[at..] == rest && out[..at] == before;
    assert out[at + 1..] == rest[1..];
    assert out[at + 1..at + 1 + |block|] == block;
    forall k | 0 <= k < |block| ensures out[at + 1 + k] == block[k] {
      assert out[at + 1 + k] == out[at + 1..at + 1 + |block|][k];
    }
    assert out[at + 1 + |block|..] == after;
  }

  lemma BlockFound(before: seq<Line>, heading: Line, block: seq<Line>, after: seq<Line>)
    requires NoRelease(block) && (after != [] ==> IsRelease(after[0]))
    ensures var out, at := Laid(before, heading, block, after), |before|;
            && at < |out| && out[at] == heading && out[..at] == before
            && FirstIndex(IsRelease, out, at + 1) == at + 1 + |block|
            && BlockAt(out, at) == block
            && out[FirstIndex(IsRelease, out, at + 1)..] == after
  {
    LaidParts(before, heading, block, after);
    var out, at := Laid(before, heading, block, after), |before|;
    var end := at + 1 + |block|;
    forall k | at + 1 <= k < end ensures !IsRelease(out[k]) {
      assert out[at + 1 + (k - at - 1)] == block[k - at - 1];
    }
    if after != [] {
      assert out[end] == after[0];
    }
    FirstIndexIs(IsRelease, out, at + 1, end);
  }

  lemma UnreleasedIsFound()
    ensures IsUnreleased(UNRELEASED) && IsRelease(UNRELEASED)
  {
    var u := UNRELEASED;
    assert Text.Trimmed(u) by {
      assert u[0] == '#' && u[|u| - 1] == ']';
    }
    TrimUndoesPadding("", u, "");
    assert "" + u + "" == u;
    assert u[..4] == RELEASE_PREFIX;
  }

  lemma BeforeHasNone(lines: seq<Line>)
    ensures var start := BoundsOf(lines).start;
            forall k :: 0 <= k < |Before(lines, start)| ==> !IsUnreleased(Before(lines, start)[k])
  {
    assert Trim("") == "";
    assert |UNRELEASED| > 0;
  }

  lemma ReleaseHeadingIsRelease(r: Release)
    ensures IsRelease(ReleaseHeading(r)) && StartsWith(ReleaseHeading(r), RELEASE_PREFIX + r.version + "]")
  {
    var tail := " — " + r.date + " — \"" + r.name + "\"";
    assert "## [" + r.version + "] — " + r.date + " — \"" + r.name + "\""
        == (RELEASE_PREFIX + r.version + "]") + tail;
    var h := ReleaseHeading(r);
    assert h == (RELEASE_PREFIX + r.version + "]") + tail;
    assert h[..|RELEASE_PREFIX|] == RELEASE_PREFIX;
  }

  /** A body as it stands under its heading. */
  function Under(body: seq<Line>): seq<Line> {
    (if body == [] then [] else [""] + body) + [""]
  }

  lemma UnderReads(body: seq<Line>, t: string)
    ensures LinesUnder(Under(body), None, t) == LinesUnder(body, None, t)
    ensures LinesOutside(Under(body)) == LinesOutside(body)
    ensures ScanAll(NOTHING, Under(body)).sections == ScanAll(NOTHING, body).sections
    ensures ScanAll(NOTHING, Under(body)).stray == ScanAll(NOTHING, body).stray
  {
    assert !IsHeading("") && Blank("");
    ScanTrailingBlank(NOTHING, body);
    if body != [] {
      var u := [""] + (body + [""]);
      assert Under(body) == u;
      assert u[0] == "" && u[1..] == body + [""];
      assert Step(NOTHING, "") == NOTHING;
      assert ScanAll(NOTHING, u) == ScanAll(NOTHING, body + [""]);
    } else {
      assert Under(body) == body + [""];
    }
    ParseConserves(Under(body), t);
    ParseConserves(body, t);
  }

  lemma ScanTrailingBlank(s: Scan, body: seq<Line>)
    requires Sane(s)
    ensures ScanAll(s, body + [""]) == ScanAll(s, body).(open := false)
  {
    ScanAppend(s, body, [""]);
    var m := ScanAll(s, body);
    assert !IsHeading("") && Blank("");
    assert [""][1..] == [];
    assert ScanAll(m, [""]) == ScanAll(Step(m, ""), []);
  }

  // ---------------------------------------------------------------------------------------
  // Conservation
  // ---------------------------------------------------------------------------------------

  /** The output as the Unreleased heading, its block and the rest; a release puts its own block first in the rest. */
  function Shape(before: seq<Line>, body: seq<Line>, release: Option<Release>, after: seq<Line>): seq<Line> {
    match release
    case None => Laid(before, UNRELEASED, Under(body), after)
    case Some(r) => Laid(before, UNRELEASED, [""], Laid([], ReleaseHeading(r), Under(body), after))
  }

  lemma ReplacementShape(before: seq<Line>, body: seq<Line>, release: Option<Release>, after: seq<Line>)
    ensures before + Replacement(body, release) + [""] + after == Shape(before, body, release, after)
  {
    match release
    case None =>
      assert Replacement(body, release) + [""] == [UNRELEASED] + Under(body);
      ReplacementLaid(before, Replacement(body, release), after, [UNRELEASED], Under(body));
    case Some(r) =>
      var h := ReleaseHeading(r);
      assert Replacement(body, release) + [""] == [UNRELEASED] + ([""] + ([h] + Under(body)));
      ReplacementLaid(before, Replacement(body, release), after, [UNRELEASED], [""] + ([h] + Under(body)));
      assert [""] + ([h] + Under(body)) + after == [""] + ([h] + (Under(body) + after));
      assert [] + ([h] + (Under(body) + after)) == [h] + (Under(body) + after);
  }

  lemma ReplacementLaid(before: seq<Line>, replacement: seq<Line>, after: seq<Line>, head: seq<Line>, block: seq<Line>)
    requires replacement + [""] == head + block
    ensures before + replacement + [""] + after == before + (head + (block + after))
  {
    assert before + replacement + [""] + after == before + (replacement + [""]) + after;
    assert head + block + after == head + (block + after);
  }

  /** Searching for the Unreleased heading in the output finds the one that was written. */
  lemma HeadingFound(before: seq<Line>, out: seq<Line>)
    requires |before| < |out| && out[..|before|] == before && out[|before|] == UNRELEASED
    requires forall k :: 0 <= k < |before| ==> !IsUnreleased(before[k])
    ensures BoundsOf(out) == Bounds(|before|, FirstIndex(IsRelease, out, |before| + 1))
    ensures OldBlock(out) == BlockAt(out, |before|)
  {
    UnreleasedIsFound();
    assert forall k :: 0 <= k < |before| ==> out[k] == before[k];
    FirstIndexIs(IsUnreleased, out, 0, |before|);
  }

  lemma BlankHasNoRelease()
    ensures NoRelease([""])
  {}

  lemma UnderHasNoRelease(body: seq<Line>)
    requires NoRelease(body)
    ensures NoRelease(Under(body))
  {}

  /** Where the pieces of a shape are. */
  predicate Placed(out: seq<Line>, before: seq<Line>, body: seq<Line>, release: Option<Release>, after: seq<Line>) {
    var h := |before| + (if release.None? then 0 else 2);
    && h < |out| && out[h] == (if release.None? then UNRELEASED else ReleaseHeading(release.value))
    && BlockAt(out, h) == Under(body)
    && out[FirstIndex(IsRelease, out, h + 1)..] == after
    && out[..|before|] == before && out[|before|] == UNRELEASED
    && BoundsOf(out).start == |before|
    && OldBlock(out) == if release.None? then BlockAt(out, h) else [""]
  }

  lemma UnreleasedPlaced(before: seq<Line>, body: seq<Line>, after: seq<Line>)
    requires NoRelease(body) && (after != [] ==> IsRelease(after[0]))
    requires forall k :: 0 <= k < |before| ==> !IsUnreleased(before[k])
    ensures Placed(Laid(before, UNRELEASED, Under(body), after), before, body, None, after)
  {
    UnderHasNoRelease(body);
    BlockFound(before, UNRELEASED, Under(body), after);
    HeadingFound(before, Laid(before, UNRELEASED, Under(body), after));
  }

  lemma ReleasePlaced(before: seq<Line>, body: seq<Line>, r: Release, after: seq<Line>)
    requires NoRelease(body) && (after != [] ==> IsRelease(after[0]))
    requires forall k :: 0 <= k < |before| ==> !IsUnreleased(before[k])
    ensures Placed(Laid(before, UNRELEASED, [""], Laid([], ReleaseHeading(r), Under(body), after)), before, body,
                   Some(r), after)
  {
    UnderHasNoRelease(body);
    BlankHasNoRelease();
    ReleaseHeadingIsRelease(r);
    var inner := Laid([], ReleaseHeading(r), Under(body), after);
    LaidShift(before, ReleaseHeading(r), Under(body), after);
    BlockFound(before, UNRELEASED, [""], inner);
    HeadingFound(before, Laid(before, UNRELEASED, [""], inner));
    BlockFound(before + [UNRELEASED, ""], ReleaseHeading(r), Under(body), after);
  }

  lemma ShapePlaced(before: seq<Line>, body: seq<Line>, release: Option<Release>, after: seq<Line>)
    requires NoRelease(body) && (after != [] ==> IsRelease(after[0]))
    requires forall k :: 0 <= k < |before| ==> !IsUnreleased(before[k])
    ensures Placed(Shape(before, body, release, after), before, body, release, after)
  {
    match release
    case None => UnreleasedPlaced(before, body, after);
    case Some(r) => ReleasePlaced(before, body, r, after);
  }

  lemma LaidShift(before: seq<Line>, heading: Line, block: seq<Line>, after: seq<Line>)
    ensures Laid(before, UNRELEASED, [""], Laid([], heading, block, after))
            == Laid(before + [UNRELEASED, ""], heading, block, after)
    ensures Laid([], heading, block, after)[0] == heading
  {
    var x := [heading] + (block + after);
    assert [] + x == x;
    assert before + ([UNRELEASED] + ([""] + x)) == before + [UNRELEASED, ""] + x;
  }

  /** The block the assembly wrote, and where it lies. */
  lemma NewBlockFound(lines: seq<Line>, fragments: seq<Fragment>, release: Option<Release>, collate: string -> int,
                      words: Line -> nat)
    requires Assembled(lines, fragments, release, collate, words).Ok?
    ensures Placed(Assembled(lines, fragments, release, collate, words).value, Before(lines, BoundsOf(lines).start),
                   RenderSections(MergedSections(lines, fragments, collate)), release, lines[BoundsOf(lines).end..])
  {
    var body := RenderSections(MergedSections(lines, fragments, collate));
    var before, after := Before(lines, BoundsOf(lines).start), lines[BoundsOf(lines).end..];
    OutputIs(lines, fragments, release, collate, words);
    BodyHasNoRelease(lines, fragments, collate, words);
    BeforeHasNone(lines);
    AfterIsRelease(lines);
    ReplacementShape(before, body, release, after);
    ShapePlaced(before, body, release, after);
  }

  lemma OutputIs(lines: seq<Line>, fragments: seq<Fragment>, release: Option<Release>, collate: string -> int,
                 words: Line -> nat)
    requires Assembled(lines, fragments, release, collate, words).Ok?
    ensures AllValid(fragments, words) && BoundsOf(lines).start < |lines|
    ensures Assembled(lines, fragments, release, collate, words).value
         == Before(lines, BoundsOf(lines).start)
            + Replacement(RenderSections(MergedSections(lines, fragments, collate)), release)
            + [""] + lines[BoundsOf(lines).end..]
  {}

  lemma AfterIsRelease(lines: seq<Line>)
    ensures lines[BoundsOf(lines).end..] != [] ==> IsRelease(lines[BoundsOf(lines).end..][0])
  {}

  /**
   What an assembly must keep.  The new block holds under `t` the fragments' lines, in the order
   given, then the old Unreleased lines, and nothing outside a section; the text before the heading
   and everything from the next release heading on is unchanged; a release leaves Unreleased empty.
   */
  predicate Conserved(lines: seq<Line>, ordered: seq<Fragment>, release: Option<Release>, out: seq<Line>, t: string) {
    var b := BoundsOf(lines);
    var u := BoundsOf(out).start;
    var h := u + (if release.None? then 0 else 2);
    && b.start < |lines| && u == Max(b.start, 1) && h < |out|
    && out[h] == (if release.None? then UNRELEASED else ReleaseHeading(release.value))
    && LinesUnder(BlockAt(out, h), None, t) == FragmentLines(ordered, t) + LinesUnder(BlockAt(lines, b.start), None, t)
    && LinesOutside(BlockAt(out, h)) == []
    && out[..u] == (if b.start == 0 then [""] else lines[..b.start])
    && out[FirstIndex(IsRelease, out, h + 1)..] == lines[b.end..]
    && (release.Some? ==> LinesUnder(OldBlock(out), None, t) == [])
  }

  lemma AssemblyConserves(lines: seq<Line>, fragments: seq<Fragment>, release: Option<Release>, collate: string -> int,
                          words: Line -> nat,
                          t: string)
    requires Assembled(lines, fragments, release, collate, words).Ok?
    ensures Conserved(lines, Ordered(fragments, collate), release,
                      Assembled(lines, fragments, release, collate, words).value, t)
  {
    OutputIs(lines, fragments, release, collate, words);
    NewBlockFound(lines, fragments, release, collate, words);
    BodyConserves(lines, fragments, collate, t);
    PlacedConserves(lines, Ordered(fragments, collate), release,
                    Assembled(lines, fragments, release, collate, words).value,
                    RenderSections(MergedSections(lines, fragments, collate)), t);
  }

  lemma OldIsBlock(lines: seq<Line>)
    requires BoundsOf(lines).start < |lines|
    ensures OldBlock(lines) == BlockAt(lines, BoundsOf(lines).start)
  {}

  lemma BeforeIs(lines: seq<Line>)
    ensures var start := BoundsOf(lines).start;
            && |Before(lines, start)| == Max(start, 1)
            && Before(lines, start) == if start == 0 then [""] else lines[..start]
  {}

  lemma PlacedConserves(lines: seq<Line>, ordered: seq<Fragment>, release: Option<Release>, out: seq<Line>,
                        body: seq<Line>, t: string)
    requires BoundsOf(lines).start < |lines|
    requires Placed(out, Before(lines, BoundsOf(lines).start), body, release, lines[BoundsOf(lines).end..])
    requires LinesUnder(Under(body), None, t) == FragmentLines(ordered, t) + LinesUnder(OldBlock(lines), None, t)
    requires LinesOutside(Under(body)) == []
    ensures Conserved(lines, ordered, release, out, t)
  {
    BlankReads(t);
    OldIsBlock(lines);
    BeforeIs(lines);
  }

  lemma BlankReads(t: string)
    ensures LinesUnder([""], None, t) == []
  {
    assert !IsHeading("") && [""][1..] == [];
  }

  lemma BodyConserves(lines: seq<Line>, fragments: seq<Fragment>, collate: string -> int, t: string)
    ensures var body := Under(RenderSections(MergedSections(lines, fragments, collate)));
            && LinesUnder(body, None, t)
               == FragmentLines(Ordered(fragments, collate), t) + LinesUnder(OldBlock(lines), None, t)
            && LinesOutside(body) == []
  {
    var m := MergedSections(lines, fragments, collate);
    MergedKeeps(lines, fragments, collate, t);
    RenderIsNormalForm(m, t);
    UnderReads(RenderSections(m), t);
  }

  // ---------------------------------------------------------------------------------------
  // Assembling again
  // ---------------------------------------------------------------------------------------

  lemma {:induction false} AddToNothing(done: seq<Section>, sections: seq<Section>)
    requires DistinctTitles(done + sections)
    ensures AddSections(done, sections) == done + sections
    decreases |sections|
  {
    if sections == [] {
      assert done + sections == done;
    } else {
      var first, rest := sections[0], sections[1..];
      assert (done + [first]) + rest == done + sections;
      forall i | 0 <= i < |done| ensures done[i].title != first.title {
        assert (done + sections)[i] == done[i] && (done + sections)[|done|] == first;
      }
      ItemsAbsent(done, first.title);
      AddToNothing(done + [first], rest);
    }
  }

  /** Running the assembler on its own output with no fragments left changes nothing. */
  lemma AssemblingAgain(lines: seq<Line>, fragments: seq<Fragment>, release: Option<Release>, collate: string -> int,
                        words: Line -> nat)
    requires Assembled(lines, fragments, release, collate, words).Ok?
    ensures var out := Assembled(lines, fragments, release, collate, words).value;
            Assembled(out, [], None, collate, words) == Ok(out)
  {
    var out := Assembled(lines, fragments, release, collate, words).value;
    var body := if release.None? then RenderSections(MergedSections(lines, fragments, collate)) else [];
    NewBlockFound(lines, fragments, release, collate, words);
    if release.None? {
      MergedKeeps(lines, fragments, collate, "");
      RenderIsNormalForm(MergedSections(lines, fragments, collate), "");
    }
    NormalBodyAgain(out, body, collate, words);
  }

  /** A text whose Unreleased block is already in normal form. */
  lemma NormalBodyAgain(out: seq<Line>, body: seq<Line>, collate: string -> int, words: Line -> nat)
    requires 0 < BoundsOf(out).start < |out| && out[BoundsOf(out).start] == UNRELEASED && OldBlock(out) == Under(body)
    requires RenderSections(ScanAll(NOTHING, body).sections) == body && LinesOutside(body) == []
    ensures Assembled(out, [], None, collate, words) == Ok(out)
  {
    UnderReads(body, "");
    ParseConserves(body, "");
    NothingToMerge(out, body, collate);
    RewrittenInPlace(out, body);
  }

  lemma NothingToMerge(out: seq<Line>, body: seq<Line>, collate: string -> int)
    requires OldBlock(out) == Under(body)
    ensures MergedSections(out, [], collate) == ScanAll(NOTHING, body).sections
  {
    var p := ScanAll(NOTHING, body);
    UnderReads(body, "");
    ParseConserves(body, "");
    var none: seq<Section> := [];
    assert none + p.sections == p.sections;
    AddToNothing(none, p.sections);
  }

  /** Writing the same body back under the Unreleased heading gives the same text. */
  lemma RewrittenInPlace(out: seq<Line>, body: seq<Line>)
    requires 0 < BoundsOf(out).start < |out| && out[BoundsOf(out).start] == UNRELEASED && OldBlock(out) == Under(body)
    ensures var b := BoundsOf(out); Before(out, b.start) + Replacement(body, None) + [""] + out[b.end..] == out
  {
    var b := BoundsOf(out);
    assert Replacement(body, None) + [""] == [UNRELEASED] + Under(body);
    CutAndJoin(out, b.start, b.end);
    ReplacementLaid(out[..b.start], Replacement(body, None), out[b.end..], [UNRELEASED], Under(body));
  }

  lemma CutAndJoin(out: seq<Line>, start: nat, end: nat)
    requires start < end <= |out|
    ensures out[..start] + ([out[start]] + (out[start + 1..end] + out[end..])) == out
  {
    assert out[start + 1..end] + out[end..] == out[start + 1..];
    assert [out[start]] + out[start + 1..] == out[start..];
  }

  /** A version that was just assembled cannot be assembled a second time. */
  lemma SameReleaseRefused(lines: seq<Line>, fragments: seq<Fragment>, release: Release, collate: string -> int,
                           words: Line -> nat,
                           later: seq<Fragment>, again: Release)
    requires Assembled(lines, fragments, Some(release), collate, words).Ok?
    requires again.version == release.version && AllValid(later, words)
    ensures Assembled(Assembled(lines, fragments, Some(release), collate, words).value, later, Some(again), collate,
                      words)
         == Err(AlreadyReleased)
  {
    NewBlockFound(lines, fragments, Some(release), collate, words);
    ReleaseHeadingIsRelease(release);
  }

  // ---------------------------------------------------------------------------------------
  // Valid fragments
  // ---------------------------------------------------------------------------------------

  predicate GoodBullet(line: Line, words: Line -> nat) {
    BulletShape(line) && words(line) <= MAX_BULLET_WORDS
  }

  /** The documented format, line by line. */
  predicate WellFormed(content: seq<Line>, words: Line -> nat) {
    && (exists i :: 0 <= i < |content| && IsHeading(content[i]))
    && LinesOutside(content) == []
    && (forall i :: 0 <= i < |content| ==> !OtherHeading(content[i]))
    && (forall i :: 0 <= i < |content| && IsHeading(content[i]) ==>
          TitleOf(content[i]) in SECTION_ORDER && LinesUnder(content, None, TitleOf(content[i])) != [])
    && (forall i :: 0 <= i < |content| && IsContent(content[i]) ==> GoodBullet(content[i], words))
  }

  predicate SingleBullet(item: Item, words: Line -> nat) {
    |item| == 1 && GoodBullet(item[0], words)
  }

  predicate SoundSection(s: Section, words: Line -> nat) {
    && s.title in SECTION_ORDER && s.items != []
    && forall i :: 0 <= i < |s.items| ==> SingleBullet(s.items[i], words)
  }

  lemma {:induction false} ItemsSound(items: seq<Item>, words: Line -> nat)
    requires GoodItems(items)
    ensures ItemProblems(items, words) == [] <==> forall i :: 0 <= i < |items| ==> SingleBullet(items[i], words)
  {
    if items != [] {
      assert forall i :: 0 <= i < |items[1..]| ==> items[1..][i] == items[i + 1];
      assert forall i :: 1 <= i < |items| ==> items[i] == items[1..][i - 1];
      ItemsSound(items[1..], words);
    }
  }

  predicate AllSound(sections: seq<Section>, words: Line -> nat) {
    forall i :: 0 <= i < |sections| ==> SoundSection(sections[i], words)
  }

  lemma AllSoundCons(sections: seq<Section>, words: Line -> nat)
    requires sections != []
    ensures AllSound(sections, words) <==> SoundSection(sections[0], words) && AllSound(sections[1..], words)
  {
    assert forall i :: 0 <= i < |sections[1..]| ==> sections[1..][i] == sections[i + 1];
    assert forall i :: 1 <= i < |sections| ==> sections[i] == sections[1..][i - 1];
  }

  lemma FirstSectionSound(sections: seq<Section>, words: Line -> nat)
    requires sections != [] && GoodItems(sections[0].items)
    ensures SectionProblems(sections, words) == []
       <==> SoundSection(sections[0], words) && SectionProblems(sections[1..], words) == []
  {
    ItemsSound(sections[0].items, words);
  }

  lemma {:induction false} SectionsSound(sections: seq<Section>, words: Line -> nat)
    requires forall i :: 0 <= i < |sections| ==> GoodItems(sections[i].items)
    ensures SectionProblems(sections, words) == [] <==> AllSound(sections, words)
  {
    if sections != [] {
      assert forall i :: 0 <= i < |sections[1..]| ==> sections[1..][i] == sections[i + 1];
      SectionsSound(sections[1..], words);
      FirstSectionSound(sections, words);
      AllSoundCons(sections, words);
    }
  }

  predicate AllGood(lines: seq<Line>, words: Line -> nat) {
    forall i :: 0 <= i < |lines| ==> GoodBullet(lines[i], words)
  }

  lemma ShapeIsBullet(line: Line)
    requires BulletShape(line)
    ensures IsBullet(line)
  {
    assert line[..4] == "- **";
    assert line[..2] == line[..4][..2];
  }

  lemma FirstItem(item: Item, words: Line -> nat)
    requires GoodItem(item)
    ensures AllGood(item, words) <==> SingleBullet(item, words)
  {
    if AllGood(item, words) && |item| > 1 {
      ShapeIsBullet(item[1]);
    }
  }

  /** Continuation lines are never bullets, so a section all of whose lines are bullets has one-line items. */
  lemma {:induction false} ItemsFromLines(items: seq<Item>, words: Line -> nat)
    requires GoodItems(items)
    ensures AllGood(Flatten(items), words) <==> forall i :: 0 <= i < |items| ==> SingleBullet(items[i], words)
  {
    if items != [] {
      var first, rest := items[0], items[1..];
      assert forall i :: 0 <= i < |rest| ==> rest[i] == items[i + 1];
      assert forall i :: 1 <= i < |items| ==> items[i] == rest[i - 1];
      ItemsFromLines(rest, words);
      AllGoodAppend(first, Flatten(rest), words);
      FirstItem(first, words);
    }
  }

  lemma AllGoodAppend(a: seq<Line>, b: seq<Line>, words: Line -> nat)
    ensures AllGood(a + b, words) <==> AllGood(a, words) && AllGood(b, words)
  {
    forall i | 0 <= i < |b| ensures (a + b)[|a| + i] == b[i] {}
    forall i | 0 <= i < |a| ensures (a + b)[i] == a[i] {}
  }

  /** All text lines are well-formed bullets iff those outside and those under each heading are. */
  predicate AllContentGood(lines: seq<Line>, words: Line -> nat) {
    forall i :: 0 <= i < |lines| && IsContent(lines[i]) ==> GoodBullet(lines[i], words)
  }

  ghost predicate GoodUnderAll(lines: seq<Line>, cur: Option<string>, words: Line -> nat) {
    forall t :: AllGood(LinesUnder(lines, cur, t), words)
  }

  lemma {:induction false} ContentUnder(lines: seq<Line>, cur: Option<string>, words: Line -> nat)
    requires cur.None? ==> LinesOutside(lines) == []
    ensures AllContentGood(lines, words) <==> GoodUnderAll(lines, cur, words)
    decreases |lines|
  {
    if lines != [] {
      var line, rest, cur' := lines[0], lines[1..], Next(cur, lines[0]);
      assert forall i :: 0 <= i < |rest| ==> rest[i] == lines[i + 1];
      assert forall i :: 1 <= i < |lines| ==> lines[i] == rest[i - 1];
      ContentUnder(rest, cur', words);
      assert AllContentGood(lines, words)
             <==> (IsContent(line) ==> GoodBullet(line, words)) && AllContentGood(rest, words);
      forall t ensures AllGood(LinesUnder(lines, cur, t), words)
                  <==> AllGood(Share(cur, line, t), words) && AllGood(LinesUnder(rest, cur', t), words) {
        LinesUnderCons(lines, cur, t);
        AllGoodAppend(Share(cur, line, t), LinesUnder(rest, cur', t), words);
      }
      if IsContent(line) {
        assert cur.Some?;
        assert Share(cur, line, cur.value) == [line];
        assert AllGood([line], words) <==> GoodBullet(line, words) by {
          assert [line][0] == line;
        }
      }
    }
  }

  lemma {:induction false} OutsideProblems(stray: seq<Line>)
    ensures Outside(stray) == [] <==> stray == []
  {}

  /** Nothing but headings of the first section on: a heading exists iff the map is not empty. */
  lemma TitlesNamed(content: seq<Line>)
    ensures ScanAll(NOTHING, content).sections == [] <==> !(exists i :: 0 <= i < |content| && IsHeading(content[i]))
  {
    var p := ScanAll(NOTHING, content);
    if p.sections != [] {
      ParseConserves(content, p.sections[0].title);
      assert HasTitle(p.sections, p.sections[0].title);
    }
    if i :| 0 <= i < |content| && IsHeading(content[i]) {
      ParseConserves(content, TitleOf(content[i]));
      assert NamesHeading(content, TitleOf(content[i]));
    }
  }

  predicate TitlesSound(content: seq<Line>) {
    forall i :: 0 <= i < |content| && IsHeading(content[i]) ==>
      TitleOf(content[i]) in SECTION_ORDER && LinesUnder(content, None, TitleOf(content[i])) != []
  }

  lemma {:induction false} FlattenEmpty(items: seq<Item>)
    requires GoodItems(items)
    ensures Flatten(items) == [] <==> items == []
  {}

  lemma SoundForward(content: seq<Line>, words: Line -> nat)
    requires AllSound(ScanAll(NOTHING, content).sections, words) && LinesOutside(content) == []
    ensures TitlesSound(content) && AllContentGood(content, words)
  {
    var p := ScanAll(NOTHING, content);
    ParseConserves(content, "");
    forall i | 0 <= i < |content| && IsHeading(content[i])
      ensures TitleOf(content[i]) in SECTION_ORDER && LinesUnder(content, None, TitleOf(content[i])) != []
    {
      var t := TitleOf(content[i]);
      ParseConserves(content, t);
      assert NamesHeading(content, t);
      var k :| 0 <= k < |p.sections| && p.sections[k].title == t;
      ItemsAt(p.sections, k);
      FlattenEmpty(p.sections[k].items);
    }
    forall t ensures AllGood(LinesUnder(content, None, t), words) {
      ParseConserves(content, t);
      if HasTitle(p.sections, t) {
        var k :| 0 <= k < |p.sections| && p.sections[k].title == t;
        ItemsAt(p.sections, k);
        ItemsFromLines(p.sections[k].items, words);
      } else {
        ItemsAbsent(p.sections, t);
      }
    }
    ContentUnder(content, None, words);
  }

  lemma SoundBackward(content: seq<Line>, words: Line -> nat)
    requires TitlesSound(content) && AllContentGood(content, words) && LinesOutside(content) == []
    ensures AllSound(ScanAll(NOTHING, content).sections, words)
  {
    var p := ScanAll(NOTHING, content);
    ParseConserves(content, "");
    ContentUnder(content, None, words);
    forall k | 0 <= k < |p.sections| ensures SoundSection(p.sections[k], words) {
      var s := p.sections[k];
      ParseConserves(content, s.title);
      assert HasTitle(p.sections, s.title);
      var i :| 0 <= i < |content| && IsHeading(content[i]) && TitleOf(content[i]) == s.title;
      ItemsAt(p.sections, k);
      ItemsFromLines(s.items, words);
      FlattenEmpty(s.items);
    }
  }

  /** The validator reports nothing exactly for fragments in the documented format. */
  lemma ValidExactly(content: seq<Line>, words: Line -> nat)
    ensures FragmentProblems(content, words) == [] <==> WellFormed(content, words)
  {
    var p := ScanAll(NOTHING, content);
    ParseConserves(content, "");
    OutsideProblems(p.stray);
    NoWrongHeadings(content);
    TitlesNamed(content);
    SectionsSound(p.sections, words);
    if AllSound(p.sections, words) && LinesOutside(content) == [] {
      SoundForward(content, words);
    }
    if TitlesSound(content) && AllContentGood(content, words) && LinesOutside(content) == [] {
      SoundBackward(content, words);
    }
    ProblemsSplit(content, words);
  }

  lemma ProblemsSplit(content: seq<Line>, words: Line -> nat)
    ensures var p := ScanAll(NOTHING, content);
            FragmentProblems(content, words) == [] <==>
              Outside(p.stray) == [] && WrongHeadings(content) == [] && !(p.sections == [] && p.stray == [])
              && SectionProblems(p.sections, words) == []
  {}
}
