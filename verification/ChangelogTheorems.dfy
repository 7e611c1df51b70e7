/** Parsing and rendering a block: what is conserved, and what survives the round trip. */
module ChangelogTheorems {
  import opened Common
  import opened Text
  import opened Sorting
  import opened Changelog

  // ---------------------------------------------------------------------------------------
  // An independent reading of a block
  // ---------------------------------------------------------------------------------------

  predicate IsContent(line: Line) {
    !IsHeading(line) && !Blank(line)
  }

  /** The text lines that stand under the heading `t`, in document order. */
  function LinesUnder(lines: seq<Line>, cur: Option<string>, t: string): seq<Line> {
    if lines == [] then []
    else if IsHeading(lines[0]) then LinesUnder(lines[1..], Some(TitleOf(lines[0])), t)
    else (if IsContent(lines[0]) && cur == Some(t) then [lines[0]] else []) + LinesUnder(lines[1..], cur, t)
  }

  /** The text lines before any heading. */
  function LinesOutside(lines: seq<Line>): seq<Line> {
    if lines == [] || IsHeading(lines[0]) then []
    else (if IsContent(lines[0]) then [lines[0]] else []) + LinesOutside(lines[1..])
  }

  function Content(sections: seq<Section>, t: string): seq<Line> {
    Flatten(ItemsOf(sections, t))
  }

  // ---------------------------------------------------------------------------------------
  // The section map
  // ---------------------------------------------------------------------------------------

  predicate DistinctTitles(sections: seq<Section>) {
    forall i, j :: 0 <= i < j < |sections| ==> sections[i].title != sections[j].title
  }

  predicate HasTitle(sections: seq<Section>, t: string) {
    exists i :: 0 <= i < |sections| && sections[i].title == t
  }

  lemma {:induction false} IndexAt(sections: seq<Section>, i: nat)
    requires DistinctTitles(sections) && i < |sections|
    ensures IndexOf(sections, sections[i].title) == Some(i)
  {
    IndexInside(sections, sections[i].title);
  }

  lemma ItemsAt(sections: seq<Section>, i: nat)
    requires DistinctTitles(sections) && i < |sections|
    ensures ItemsOf(sections, sections[i].title) == sections[i].items
  {
    IndexAt(sections, i);
  }

  lemma ItemsAbsent(sections: seq<Section>, t: string)
    requires !HasTitle(sections, t)
    ensures ItemsOf(sections, t) == [] && IndexOf(sections, t).None?
  {
    IndexInside(sections, t);
  }

  lemma IndexPresent(sections: seq<Section>, t: string)
    ensures IndexOf(sections, t).Some? <==> HasTitle(sections, t)
  {
    IndexInside(sections, t);
  }

  lemma ItemsUpdate(sections: seq<Section>, i: nat, items: seq<Item>, t: string)
    requires DistinctTitles(sections) && i < |sections|
    ensures var s' := sections[i := Section(sections[i].title, items)];
            && DistinctTitles(s') && (HasTitle(s', t) <==> HasTitle(sections, t))
            && ItemsOf(s', t) == if t == sections[i].title then items else ItemsOf(sections, t)
  {
    var s' := sections[i := Section(sections[i].title, items)];
    assert forall k :: 0 <= k < |sections| ==> s'[k].title == sections[k].title;
    if t == sections[i].title {
      ItemsAt(s', i);
    } else if HasTitle(sections, t) {
      var k :| 0 <= k < |sections| && sections[k].title == t;
      ItemsAt(sections, k);
      ItemsAt(s', k);
    } else {
      ItemsAbsent(sections, t);
      ItemsAbsent(s', t);
    }
  }

  lemma ItemsAppend(sections: seq<Section>, title: string, items: seq<Item>, t: string)
    requires DistinctTitles(sections) && !HasTitle(sections, title)
    ensures var s' := sections + [Section(title, items)];
            && DistinctTitles(s') && (HasTitle(s', t) <==> HasTitle(sections, t) || t == title)
            && ItemsOf(s', t) == if t == title then items else ItemsOf(sections, t)
  {
    var s' := sections + [Section(title, items)];
    assert forall k :: 0 <= k < |sections| ==> s'[k] == sections[k];
    assert s'[|sections|].title == title;
    assert DistinctTitles(s');
    if t == title {
      ItemsAt(s', |sections|);
    } else if HasTitle(sections, t) {
      var k :| 0 <= k < |sections| && sections[k].title == t;
      ItemsAt(sections, k);
      ItemsAt(s', k);
    } else {
      ItemsAbsent(sections, t);
      ItemsAbsent(s', t);
    }
  }

  // ---------------------------------------------------------------------------------------
  // Parsing conserves
  // ---------------------------------------------------------------------------------------

  /** A bullet with its continuation lines. */
  predicate GoodItem(item: Item) {
    && item != []
    && (forall k :: 0 <= k < |item| ==> IsContent(item[k]))
    && (forall k :: 1 <= k < |item| ==> !IsBullet(item[k]))
  }

  predicate GoodTitle(t: string) {
    (t != "" && Text.Trimmed(t)) || (|t| == 1 && IsSpace(t[0]))
  }

  predicate GoodItems(items: seq<Item>) {
    forall i :: 0 <= i < |items| ==> GoodItem(items[i])
  }

  predicate GoodSections(sections: seq<Section>) {
    && DistinctTitles(sections)
    && (forall i :: 0 <= i < |sections| ==> GoodTitle(sections[i].title) && GoodItems(sections[i].items))
  }

  function CurrentTitle(s: Scan): Option<string>
    requires Sane(s)
  {
    if s.current.None? then None else Some(s.sections[s.current.value].title)
  }

  lemma TitleIsGood(line: Line)
    requires IsHeading(line)
    ensures GoodTitle(TitleOf(line))
  {
    TrimIsTrimmed(line[3..]);
    if Trim(line[3..]) == "" {
      assert Blank(line[3..]);
      assert line[3..][|line| - 4] == line[|line| - 1];
    }
  }

  lemma {:induction false} ExtendFlatten(items: seq<Item>, line: Line)
    requires items != []
    ensures Flatten(items[|items| - 1 := items[|items| - 1] + [line]]) == Flatten(items) + [line]
  {
    var last := items[|items| - 1];
    var front := items[..|items| - 1];
    assert items == front + [last];
    assert items[|items| - 1 := last + [line]] == front + [last + [line]];
    FlattenSnoc(front, last);
    FlattenSnoc(front, last + [line]);
  }

  lemma PushConserves(s: Scan, line: Line, t: string)
    requires Sane(s) && GoodSections(s.sections) && s.current.Some? && IsContent(line)
    ensures GoodSections(PushItem(s, line).sections) && CurrentTitle(PushItem(s, line)) == CurrentTitle(s)
    ensures HasTitle(PushItem(s, line).sections, t) <==> HasTitle(s.sections, t)
    ensures Content(PushItem(s, line).sections, t)
         == Content(s.sections, t) + (if CurrentTitle(s) == Some(t) then [line] else [])
  {
    var i := s.current.value;
    var items := s.sections[i].items;
    ItemsUpdate(s.sections, i, items + [[line]], t);
    ItemsAt(s.sections, i);
    FlattenSnoc(items, [line]);
    assert GoodItem([line]);
  }

  lemma ExtendConserves(s: Scan, line: Line, t: string)
    requires Sane(s) && GoodSections(s.sections) && s.open && IsContent(line) && !IsBullet(line)
    ensures GoodSections(ExtendItem(s, line).sections) && CurrentTitle(ExtendItem(s, line)) == CurrentTitle(s)
    ensures HasTitle(ExtendItem(s, line).sections, t) <==> HasTitle(s.sections, t)
    ensures Content(ExtendItem(s, line).sections, t)
         == Content(s.sections, t) + (if CurrentTitle(s) == Some(t) then [line] else [])
  {
    var i := s.current.value;
    var items := s.sections[i].items;
    var items' := items[|items| - 1 := items[|items| - 1] + [line]];
    ExtendGood(items, line);
    UpdateGood(s.sections, i, items');
    ItemsUpdate(s.sections, i, items', t);
    ItemsAt(s.sections, i);
    ExtendFlatten(items, line);
  }

  lemma ExtendGood(items: seq<Item>, line: Line)
    requires GoodItems(items) && items != [] && IsContent(line) && !IsBullet(line)
    ensures GoodItems(items[|items| - 1 := items[|items| - 1] + [line]])
  {
    assert GoodItem(items[|items| - 1] + [line]);
  }

  lemma UpdateGood(sections: seq<Section>, i: nat, items: seq<Item>)
    requires GoodSections(sections) && i < |sections| && GoodItems(items)
    ensures GoodSections(sections[i := Section(sections[i].title, items)])
  {}

  lemma OpenConserves(s: Scan, title: string, t: string)
    requires Sane(s) && GoodSections(s.sections) && GoodTitle(title)
    ensures Sane(OpenSection(s, title)) && GoodSections(OpenSection(s, title).sections)
    ensures CurrentTitle(OpenSection(s, title)) == Some(title)
    ensures HasTitle(OpenSection(s, title).sections, t) <==> HasTitle(s.sections, t) || t == title
    ensures ItemsOf(OpenSection(s, title).sections, t) == ItemsOf(s.sections, t)
  {
    IndexInside(s.sections, title);
    IndexPresent(s.sections, title);
    if IndexOf(s.sections, title).None? {
      ItemsAppend(s.sections, title, [], t);
      ItemsAbsent(s.sections, title);
    }
  }

  /** The heading in force after `line`, and what `line` contributes to the section `t`. */
  function Next(cur: Option<string>, line: Line): Option<string> {
    if IsHeading(line) then Some(TitleOf(line)) else cur
  }

  function Share(cur: Option<string>, line: Line, t: string): seq<Line> {
    if IsContent(line) && cur == Some(t) then [line] else []
  }

  function Loose(cur: Option<string>, line: Line): seq<Line> {
    if IsContent(line) && cur.None? then [line] else []
  }

  lemma StepConserves(s: Scan, line: Line, t: string)
    requires Sane(s) && GoodSections(s.sections)
    ensures GoodSections(Step(s, line).sections)
    ensures CurrentTitle(Step(s, line)) == Next(CurrentTitle(s), line)
    ensures HasTitle(Step(s, line).sections, t) <==> HasTitle(s.sections, t) || (IsHeading(line) && t == TitleOf(line))
    ensures Content(Step(s, line).sections, t) == Content(s.sections, t) + Share(CurrentTitle(s), line, t)
    ensures Step(s, line).stray == s.stray + Loose(CurrentTitle(s), line)
  {
    if IsHeading(line) {
      TitleIsGood(line);
      OpenConserves(s, TitleOf(line), t);
    } else if !Blank(line) && s.current.Some? {
      if IsBullet(line) || !s.open {
        PushConserves(s, line, t);
      } else {
        ExtendConserves(s, line, t);
      }
    }
  }

  lemma LinesUnderCons(lines: seq<Line>, cur: Option<string>, t: string)
    requires lines != []
    ensures LinesUnder(lines, cur, t) == Share(cur, lines[0], t) + LinesUnder(lines[1..], Next(cur, lines[0]), t)
  {}

  function LooseFrom(lines: seq<Line>, cur: Option<string>): seq<Line> {
    if cur.None? then LinesOutside(lines) else []
  }

  lemma LooseCons(lines: seq<Line>, cur: Option<string>)
    requires lines != []
    ensures LooseFrom(lines, cur) == Loose(cur, lines[0]) + LooseFrom(lines[1..], Next(cur, lines[0]))
  {}

  predicate NamesHeading(lines: seq<Line>, t: string) {
    exists i :: 0 <= i < |lines| && IsHeading(lines[i]) && TitleOf(lines[i]) == t
  }

  lemma NamesHeadingCons(lines: seq<Line>, t: string)
    requires lines != []
    ensures NamesHeading(lines, t) <==> (IsHeading(lines[0]) && TitleOf(lines[0]) == t) || NamesHeading(lines[1..], t)
  {
    if NamesHeading(lines[1..], t) {
      var i :| 0 <= i < |lines[1..]| && IsHeading(lines[1..][i]) && TitleOf(lines[1..][i]) == t;
      assert lines[i + 1] == lines[1..][i];
    }
    if NamesHeading(lines, t) {
      var i :| 0 <= i < |lines| && IsHeading(lines[i]) && TitleOf(lines[i]) == t;
      assert i > 0 ==> lines[1..][i - 1] == lines[i];
    }
  }

  lemma {:induction false} ScanKeepsGood(s: Scan, lines: seq<Line>)
    requires Sane(s) && GoodSections(s.sections)
    ensures GoodSections(ScanAll(s, lines).sections)
    decreases |lines|
  {
    if lines != [] {
      StepConserves(s, lines[0], "");
      ScanKeepsGood(Step(s, lines[0]), lines[1..]);
    }
  }

  lemma {:induction false} ScanContent(s: Scan, lines: seq<Line>, t: string)
    requires Sane(s) && GoodSections(s.sections)
    ensures Content(ScanAll(s, lines).sections, t) == Content(s.sections, t) + LinesUnder(lines, CurrentTitle(s), t)
    decreases |lines|
  {
    if lines != [] {
      var s', cur, rest := Step(s, lines[0]), CurrentTitle(s), lines[1..];
      StepConserves(s, lines[0], t);
      ScanContent(s', rest, t);
      LinesUnderCons(lines, cur, t);
      Regroup(Content(ScanAll(s', rest).sections, t), Content(s.sections, t), Share(cur, lines[0], t),
              LinesUnder(rest, CurrentTitle(s'), t), LinesUnder(lines, cur, t));
    }
  }

  lemma {:induction false} ScanTitles(s: Scan, lines: seq<Line>, t: string)
    requires Sane(s) && GoodSections(s.sections)
    ensures HasTitle(ScanAll(s, lines).sections, t) <==> HasTitle(s.sections, t) || NamesHeading(lines, t)
    decreases |lines|
  {
    if lines != [] {
      StepConserves(s, lines[0], t);
      ScanTitles(Step(s, lines[0]), lines[1..], t);
      NamesHeadingCons(lines, t);
    }
  }

  lemma {:induction false} ScanStray(s: Scan, lines: seq<Line>)
    requires Sane(s) && GoodSections(s.sections)
    ensures ScanAll(s, lines).stray == s.stray + LooseFrom(lines, CurrentTitle(s))
    decreases |lines|
  {
    if lines != [] {
      var s', cur, rest := Step(s, lines[0]), CurrentTitle(s), lines[1..];
      StepConserves(s, lines[0], "");
      ScanStray(s', rest);
      LooseCons(lines, cur);
      Regroup(ScanAll(s', rest).stray, s.stray, Loose(cur, lines[0]), LooseFrom(rest, CurrentTitle(s')),
              LooseFrom(lines, cur));
    }
  }

  /**
   Parsing loses and moves no text: under every title the items, read in order, are exactly the
   lines under that heading (all its occurrences merged), and the stray lines are those before any.
   */
  lemma ParseConserves(lines: seq<Line>, t: string)
    ensures var p := ScanAll(NOTHING, lines);
            && GoodSections(p.sections)
            && Content(p.sections, t) == LinesUnder(lines, None, t)
            && (HasTitle(p.sections, t) <==> NamesHeading(lines, t))
            && p.stray == LinesOutside(lines)
  {
    var none: seq<Section> := [];
    ItemsAbsent(none, t);
    ScanKeepsGood(NOTHING, lines);
    ScanContent(NOTHING, lines, t);
    ScanTitles(NOTHING, lines, t);
    ScanStray(NOTHING, lines);
  }

  // ---------------------------------------------------------------------------------------
  // Parsing what was rendered
  // ---------------------------------------------------------------------------------------

  lemma {:induction false} ScanAppend(s: Scan, a: seq<Line>, b: seq<Line>)
    requires Sane(s)
    ensures ScanAll(s, a + b) == ScanAll(ScanAll(s, a), b)
    decreases |a|
  {
    if a == [] {
      assert a + b == b;
    } else {
      assert (a + b)[0] == a[0] && (a + b)[1..] == a[1..] + b;
      ScanAppend(Step(s, a[0]), a[1..], b);
    }
  }

  /** Rendered text has no blank line between items, so a plain-text item joins the one before it. */
  function MergeOnto(acc: seq<Item>, items: seq<Item>): seq<Item>
    requires GoodItems(items)
    decreases |items|
  {
    if items == [] then acc
    else if acc == [] || IsBullet(items[0][0]) then MergeOnto(acc + [items[0]], items[1..])
    else MergeOnto(acc[|acc| - 1 := acc[|acc| - 1] + items[0]], items[1..])
  }

  function Merged(items: seq<Item>): seq<Item>
    requires GoodItems(items)
  {
    MergeOnto([], items)
  }

  /** The parser inside one section: `acc` is what it has collected there so far. */
  function InSection(done: seq<Section>, title: string, acc: seq<Item>, open: bool, stray: seq<Line>): Scan {
    Scan(done + [Section(title, acc)], Some(|done|), open, stray)
  }

  lemma {:induction false} ScanContinuation(done: seq<Section>, title: string, acc: seq<Item>, stray: seq<Line>,
                                            lines: seq<Line>)
    requires acc != [] && forall k :: 0 <= k < |lines| ==> IsContent(lines[k]) && !IsBullet(lines[k])
    ensures ScanAll(InSection(done, title, acc, true, stray), lines)
         == InSection(done, title, acc[|acc| - 1 := acc[|acc| - 1] + lines], true, stray)
    decreases |lines|
  {
    var s := InSection(done, title, acc, true, stray);
    if lines == [] {
      assert acc[|acc| - 1] + lines == acc[|acc| - 1];
      assert acc[|acc| - 1 := acc[|acc| - 1]] == acc;
    } else {
      var acc' := acc[|acc| - 1 := acc[|acc| - 1] + [lines[0]]];
      assert Step(s, lines[0]).sections == done + [Section(title, acc')];
      ScanContinuation(done, title, acc', stray, lines[1..]);
      assert acc[|acc| - 1] + [lines[0]] + lines[1..] == acc[|acc| - 1] + lines;
      assert acc'[|acc| - 1 := acc[|acc| - 1] + lines] == acc[|acc| - 1 := acc[|acc| - 1] + lines];
    }
  }

  lemma ScanNewItem(done: seq<Section>, title: string, acc: seq<Item>, stray: seq<Line>, item: Item)
    requires GoodItem(item) && (acc == [] || IsBullet(item[0]))
    ensures ScanAll(InSection(done, title, acc, acc != [], stray), item)
            == InSection(done, title, acc + [item], true, stray)
  {
    var s := InSection(done, title, acc, acc != [], stray);
    var acc' := acc + [[item[0]]];
    assert Step(s, item[0]) == InSection(done, title, acc', true, stray) by {
      assert Step(s, item[0]).sections == done + [Section(title, acc')];
    }
    ScanContinuation(done, title, acc', stray, item[1..]);
    assert [item[0]] + item[1..] == item;
    assert acc'[|acc'| - 1 := item] == acc + [item];
  }

  lemma ScanItem(done: seq<Section>, title: string, acc: seq<Item>, stray: seq<Line>, item: Item)
    requires GoodItem(item)
    ensures ScanAll(InSection(done, title, acc, acc != [], stray), item)
         == InSection(done, title,
                      if acc == [] || IsBullet(item[0]) then acc + [item] else acc[|acc| - 1 := acc[|acc| - 1] + item],
                      true, stray)
  {
    if acc == [] || IsBullet(item[0]) {
      ScanNewItem(done, title, acc, stray, item);
    } else {
      ScanContinuation(done, title, acc, stray, item);
    }
  }

  lemma {:induction false} ScanItems(done: seq<Section>, title: string, acc: seq<Item>, stray: seq<Line>,
                                     items: seq<Item>)
    requires GoodItems(items)
    ensures ScanAll(InSection(done, title, acc, acc != [], stray), Flatten(items))
         == InSection(done, title, MergeOnto(acc, items), acc != [] || items != [], stray)
    decreases |items|
  {
    if items != [] {
      ScanAppend(InSection(done, title, acc, acc != [], stray), items[0], Flatten(items[1..]));
      ScanItem(done, title, acc, stray, items[0]);
      var acc' := if acc == [] || IsBullet(items[0][0]) then acc + [items[0]]
                  else acc[|acc| - 1 := acc[|acc| - 1] + items[0]];
      ScanItems(done, title, acc', stray, items[1..]);
    }
  }

  lemma HeadingReads(title: string)
    requires GoodTitle(title)
    ensures IsHeading(HeadingLine(title)) && TitleOf(HeadingLine(title)) == title
  {
    var line := HeadingLine(title);
    assert line == "### " + title;
    assert line[..3] == HASHES;
    assert line[3..] == " " + title;
    if Text.Trimmed(title) && title != "" {
      TrimUndoesPadding(" ", title, "");
      assert " " + title + "" == " " + title;
    } else {
      assert Blank(" " + title);
      TrimIsTrimmed(" " + title);
      assert [line[|line| - 1]] == title;
    }
  }

  /** Reading one rendered block opens its section and collects its items. */
  lemma ScanBlock(done: seq<Section>, current: Option<nat>, stray: seq<Line>, sec: Section)
    requires GoodTitle(sec.title) && GoodItems(sec.items) && sec.items != [] && !HasTitle(done, sec.title)
    requires current.Some? ==> current.value < |done|
    ensures ScanAll(Scan(done, current, false, stray), BlockLines(sec))
         == InSection(done, sec.title, Merged(sec.items), true, stray)
  {
    var s := Scan(done, current, false, stray);
    var head := [HeadingLine(sec.title), ""];
    HeadingReads(sec.title);
    ItemsAbsent(done, sec.title);
    var s1 := Step(s, HeadingLine(sec.title));
    assert s1 == InSection(done, sec.title, [], false, stray);
    assert !IsHeading("") && Blank("");
    assert Step(s1, "") == s1;
    assert head[1..] == [""] && [""][1..] == [];
    assert ScanAll(s1, [""]) == ScanAll(Step(s1, ""), []);
    assert ScanAll(s, head) == s1;
    ScanAppend(s, head, Flatten(sec.items));
    ScanItems(done, sec.title, [], stray, sec.items);
  }

  /** What parsing the rendered blocks gives. */
  function MergedAll(sections: seq<Section>): seq<Section>
    requires GoodSections(sections)
  {
    if sections == [] then [] else [Section(sections[0].title, Merged(sections[0].items))] + MergedAll(sections[1..])
  }

  predicate Disjoint(a: seq<Section>, b: seq<Section>) {
    forall i :: 0 <= i < |b| ==> !HasTitle(a, b[i].title)
  }

  predicate AllNonEmpty(sections: seq<Section>) {
    forall i :: 0 <= i < |sections| ==> sections[i].items != []
  }

  lemma GoodTail(sections: seq<Section>)
    requires GoodSections(sections) && sections != []
    ensures GoodSections(sections[1..])
  {
    assert forall i :: 0 <= i < |sections[1..]| ==> sections[1..][i] == sections[i + 1];
  }

  /** One block and the blank line after it. */
  lemma ScanBlockGap(done: seq<Section>, current: Option<nat>, stray: seq<Line>, sec: Section)
    requires GoodTitle(sec.title) && GoodItems(sec.items) && sec.items != [] && !HasTitle(done, sec.title)
    requires current.Some? ==> current.value < |done|
    ensures ScanAll(Scan(done, current, false, stray), BlockLines(sec) + [""])
         == Scan(done + [Section(sec.title, Merged(sec.items))], Some(|done|), false, stray)
  {
    var s1 := InSection(done, sec.title, Merged(sec.items), true, stray);
    ScanBlock(done, current, stray, sec);
    ScanAppend(Scan(done, current, false, stray), BlockLines(sec), [""]);
    assert !IsHeading("") && Blank("");
    assert [""][1..] == [];
    assert ScanAll(s1, [""]) == ScanAll(Step(s1, ""), []);
  }

  /** The first of several blocks. */
  lemma ScanFirstBlock(done: seq<Section>, current: Option<nat>, stray: seq<Line>, sections: seq<Section>)
    requires GoodSections(sections) && AllNonEmpty(sections) && Disjoint(done, sections) && |sections| > 1
    requires current.Some? ==> current.value < |done|
    ensures ScanAll(Scan(done, current, false, stray), JoinBlocks(sections))
         == ScanAll(Scan(done + [Section(sections[0].title, Merged(sections[0].items))], Some(|done|), false, stray),
                    JoinBlocks(sections[1..]))
  {
    ScanBlockGap(done, current, stray, sections[0]);
    ScanAppend(Scan(done, current, false, stray), BlockLines(sections[0]) + [""], JoinBlocks(sections[1..]));
  }

  lemma ScanLastBlock(done: seq<Section>, current: Option<nat>, stray: seq<Line>, sections: seq<Section>)
    requires GoodSections(sections) && AllNonEmpty(sections) && Disjoint(done, sections) && |sections| == 1
    requires current.Some? ==> current.value < |done|
    ensures ScanAll(Scan(done, current, false, stray), JoinBlocks(sections)).sections == done + MergedAll(sections)
    ensures ScanAll(Scan(done, current, false, stray), JoinBlocks(sections)).stray == stray
  {
    ScanBlock(done, current, stray, sections[0]);
    assert MergedAll(sections) == [Section(sections[0].title, Merged(sections[0].items))] + [];
  }

  lemma {:induction false} ScanBlocks(done: seq<Section>, current: Option<nat>, stray: seq<Line>,
                                      sections: seq<Section>)
    requires GoodSections(sections) && AllNonEmpty(sections) && Disjoint(done, sections)
    requires current.Some? ==> current.value < |done|
    ensures ScanAll(Scan(done, current, false, stray), JoinBlocks(sections)).sections == done + MergedAll(sections)
    ensures ScanAll(Scan(done, current, false, stray), JoinBlocks(sections)).stray == stray
    decreases |sections|
  {
    if sections == [] {
      assert done + [] == done;
    } else if |sections| == 1 {
      ScanLastBlock(done, current, stray, sections);
    } else {
      var first, rest := Section(sections[0].title, Merged(sections[0].items)), sections[1..];
      GoodTail(sections);
      DisjointNext(done, sections, first.items);
      ScanFirstBlock(done, current, stray, sections);
      ScanBlocks(done + [first], Some(|done|), stray, rest);
      Regroup((done + [first]) + MergedAll(rest), done, [first], MergedAll(rest), MergedAll(sections));
    }
  }

  lemma DisjointNext(done: seq<Section>, sections: seq<Section>, items: seq<Item>)
    requires GoodSections(sections) && sections != [] && AllNonEmpty(sections) && Disjoint(done, sections)
    ensures Disjoint(done + [Section(sections[0].title, items)], sections[1..]) && AllNonEmpty(sections[1..])
  {
    var done' := done + [Section(sections[0].title, items)];
    assert forall i :: 0 <= i < |sections[1..]| ==> sections[1..][i] == sections[i + 1];
    forall i | 0 <= i < |sections[1..]| ensures !HasTitle(done', sections[1..][i].title) {
      assert !HasTitle(done, sections[i + 1].title);
      assert sections[0].title != sections[i + 1].title;
      forall k | 0 <= k < |done'| ensures done'[k].title != sections[i + 1].title {
        if k < |done| {
          assert done'[k] == done[k];
        }
      }
    }
  }

  // ---------------------------------------------------------------------------------------
  // Joining items
  // ---------------------------------------------------------------------------------------

  /** Items the rendered form keeps apart: each one that follows another starts with a bullet. */
  predicate Regular(after: bool, items: seq<Item>)
    requires GoodItems(items)
  {
    forall i :: 0 <= i < |items| && (after || i > 0) ==> IsBullet(items[i][0])
  }

  lemma RegularCons(after: bool, items: seq<Item>)
    requires GoodItems(items) && items != []
    ensures GoodItems(items[1..])
    ensures Regular(after, items) <==> (!after || IsBullet(items[0][0])) && Regular(true, items[1..])
  {
    assert forall i :: 0 <= i < |items[1..]| ==> items[1..][i] == items[i + 1];
    assert forall i :: 1 <= i < |items| ==> items[i] == items[1..][i - 1];
  }

  /** Joining shortens the list exactly when some later item is plain text. */
  lemma {:induction false} MergeLength(acc: seq<Item>, items: seq<Item>)
    requires GoodItems(items)
    ensures |MergeOnto(acc, items)| <= |acc| + |items|
    ensures |MergeOnto(acc, items)| == |acc| + |items| <==> Regular(acc != [], items)
    ensures Regular(acc != [], items) ==> MergeOnto(acc, items) == acc + items
    decreases |items|
  {
    if items == [] {
      assert acc + items == acc;
    } else {
      RegularCons(acc != [], items);
      if acc == [] || IsBullet(items[0][0]) {
        MergeLength(acc + [items[0]], items[1..]);
        assert (acc + [items[0]]) + items[1..] == acc + items;
      } else {
        MergeLength(acc[|acc| - 1 := acc[|acc| - 1] + items[0]], items[1..]);
      }
    }
  }

  lemma {:induction false} JoinLast(acc: seq<Item>, item: Item)
    requires acc != []
    ensures Flatten(acc[|acc| - 1 := acc[|acc| - 1] + item]) == Flatten(acc) + item
  {
    var front, last := acc[..|acc| - 1], acc[|acc| - 1];
    assert acc == front + [last];
    assert acc[|acc| - 1 := last + item] == front + [last + item];
    FlattenSnoc(front, last);
    FlattenSnoc(front, last + item);
  }

  lemma JoinGood(acc: seq<Item>, item: Item)
    requires acc != [] && GoodItems(acc) && GoodItem(item) && !IsBullet(item[0])
    requires Regular(false, acc)
    ensures var acc' := acc[|acc| - 1 := acc[|acc| - 1] + item]; GoodItems(acc') && Regular(false, acc')
  {
    var last := acc[|acc| - 1];
    assert GoodItem(last + item);
    assert (last + item)[0] == last[0];
  }

  lemma {:induction false} MergeKeepsLines(acc: seq<Item>, items: seq<Item>)
    requires GoodItems(items)
    ensures Flatten(MergeOnto(acc, items)) == Flatten(acc) + Flatten(items)
    decreases |items|
  {
    if items == [] {
      assert Flatten(acc) + [] == Flatten(acc);
    } else {
      RegularCons(false, items);
      var acc' := if acc == [] || IsBullet(items[0][0]) then acc + [items[0]]
                  else acc[|acc| - 1 := acc[|acc| - 1] + items[0]];
      assert Flatten(acc') == Flatten(acc) + items[0] by {
        if acc == [] || IsBullet(items[0][0]) {
          FlattenSnoc(acc, items[0]);
        } else {
          JoinLast(acc, items[0]);
        }
      }
      MergeKeepsLines(acc', items[1..]);
      Regroup(Flatten(MergeOnto(acc, items)), Flatten(acc), items[0], Flatten(items[1..]), Flatten(items));
    }
  }

  lemma {:induction false} MergeKeepsGood(acc: seq<Item>, items: seq<Item>)
    requires GoodItems(items) && GoodItems(acc) && Regular(false, acc)
    ensures GoodItems(MergeOnto(acc, items)) && Regular(false, MergeOnto(acc, items))
    ensures acc != [] || items != [] ==> MergeOnto(acc, items) != []
    decreases |items|
  {
    if items != [] {
      RegularCons(false, items);
      if acc == [] || IsBullet(items[0][0]) {
        MergeKeepsGood(acc + [items[0]], items[1..]);
      } else {
        JoinGood(acc, items[0]);
        MergeKeepsGood(acc[|acc| - 1 := acc[|acc| - 1] + items[0]], items[1..]);
      }
    }
  }

  /** The joined items hold the same lines, and joining them again changes nothing. */
  lemma MergedIsRegular(items: seq<Item>)
    requires GoodItems(items)
    ensures Flatten(Merged(items)) == Flatten(items) && GoodItems(Merged(items))
    ensures Merged(Merged(items)) == Merged(items) && (Merged(items) == [] <==> items == [])
    ensures Merged(items) == items <==> Regular(false, items)
  {
    MergeKeepsLines([], items);
    MergeKeepsGood([], items);
    MergeLength([], items);
    MergeLength([], Merged(items));
    assert [] + items == items;
    assert [] + Merged(items) == Merged(items);
  }

  // ---------------------------------------------------------------------------------------
  // The normal form
  // ---------------------------------------------------------------------------------------

  predicate Ranked(sections: seq<Section>) {
    forall i, j :: 0 <= i < j < |sections| ==> SectionRank(sections[i].title) <= SectionRank(sections[j].title)
  }

  function Normal(sections: seq<Section>): seq<Section> {
    NonEmptySections(Sort(RanksBefore, sections))
  }

  lemma {:induction false} InsertKeepsTitles(x: Section, xs: seq<Section>)
    requires GoodSections([x] + xs)
    ensures GoodSections(Insert(RanksBefore, x, xs))
    ensures forall t :: HasTitle(Insert(RanksBefore, x, xs), t) <==> t == x.title || HasTitle(xs, t)
  {
    assert ([x] + xs)[1..] == xs;
    var r := Insert(RanksBefore, x, xs);
    assert forall t :: HasTitle([x] + xs, t) <==> t == x.title || HasTitle(xs, t) by {
      ConsTitles(x, xs);
    }
    if xs == [] {
      assert r == [x] + xs;
    } else if RanksBefore(x, xs[0]) {
      assert r == [x] + xs;
    } else {
      var y, ys := xs[0], xs[1..];
      assert xs == [y] + ys;
      GoodTail(xs + []);
      assert xs + [] == xs;
      ConsTitles(y, ys);
      GoodCons([x] + xs);
      GoodCons(xs);
      GoodConsIntro(x, ys);
      InsertKeepsTitles(x, ys);
      GoodConsIntro(y, Insert(RanksBefore, x, ys));
      ConsTitles(y, Insert(RanksBefore, x, ys));
    }
  }

  lemma ConsTitles(x: Section, xs: seq<Section>)
    ensures forall t :: HasTitle([x] + xs, t) <==> t == x.title || HasTitle(xs, t)
  {
    forall t ensures HasTitle([x] + xs, t) <==> t == x.title || HasTitle(xs, t) {
      if t == x.title {
        assert ([x] + xs)[0].title == t;
      }
      if HasTitle(xs, t) {
        var i :| 0 <= i < |xs| && xs[i].title == t;
        assert ([x] + xs)[i + 1] == xs[i];
      }
      if HasTitle([x] + xs, t) && t != x.title {
        var i :| 0 <= i < |[x] + xs| && ([x] + xs)[i].title == t;
        assert xs[i - 1] == ([x] + xs)[i];
      }
    }
  }

  lemma GoodCons(xs: seq<Section>)
    requires GoodSections(xs) && xs != []
    ensures GoodSections(xs[1..]) && !HasTitle(xs[1..], xs[0].title) && GoodTitle(xs[0].title) && GoodItems(xs[0].items)
  {
    assert forall i :: 0 <= i < |xs[1..]| ==> xs[1..][i] == xs[i + 1];
  }

  lemma GoodConsIntro(x: Section, xs: seq<Section>)
    requires GoodSections(xs) && !HasTitle(xs, x.title) && GoodTitle(x.title) && GoodItems(x.items)
    ensures GoodSections([x] + xs)
  {
    var r := [x] + xs;
    assert forall i :: 1 <= i < |r| ==> r[i] == xs[i - 1];
  }

  lemma {:induction false} SortKeepsTitles(xs: seq<Section>)
    requires GoodSections(xs)
    ensures GoodSections(Sort(RanksBefore, xs))
    ensures forall t :: HasTitle(Sort(RanksBefore, xs), t) <==> HasTitle(xs, t)
  {
    if xs != [] {
      var x, rest := xs[0], Sort(RanksBefore, xs[1..]);
      assert xs == [x] + xs[1..];
      GoodCons(xs);
      SortKeepsTitles(xs[1..]);
      GoodConsIntro(x, rest);
      InsertKeepsTitles(x, rest);
      ConsTitles(x, xs[1..]);
    }
  }

  lemma RanksPreorder()
    ensures TotalPreorder(RanksBefore)
  {}

  lemma {:induction false} NonEmptyKeeps(xs: seq<Section>)
    requires GoodSections(xs)
    ensures GoodSections(NonEmptySections(xs)) && AllNonEmpty(NonEmptySections(xs))
    ensures forall t :: HasTitle(NonEmptySections(xs), t) ==> HasTitle(xs, t)
    ensures forall s :: s in NonEmptySections(xs) <==> s in xs && s.items != []
  {
    if xs != [] {
      GoodCons(xs);
      NonEmptyKeeps(xs[1..]);
      assert xs == [xs[0]] + xs[1..];
      ConsTitles(xs[0], xs[1..]);
      if xs[0].items != [] {
        GoodConsIntro(xs[0], NonEmptySections(xs[1..]));
        ConsTitles(xs[0], NonEmptySections(xs[1..]));
      } else {
        assert [] + NonEmptySections(xs[1..]) == NonEmptySections(xs[1..]);
      }
    }
  }

  lemma {:induction false} NonEmptyRanked(xs: seq<Section>)
    requires Ranked(xs)
    ensures Ranked(NonEmptySections(xs))
    ensures forall s :: s in NonEmptySections(xs) ==> s in xs
  {
    if xs != [] {
      assert forall i :: 0 <= i < |xs[1..]| ==> xs[1..][i] == xs[i + 1];
      NonEmptyRanked(xs[1..]);
      var rest := NonEmptySections(xs[1..]);
      forall s | s in rest ensures SectionRank(xs[0].title) <= SectionRank(s.title) {
        assert s in xs[1..];
      }
    }
  }

  lemma ItemsOfMember(xs: seq<Section>, s: Section)
    requires DistinctTitles(xs) && s in xs
    ensures ItemsOf(xs, s.title) == s.items
  {
    var i :| 0 <= i < |xs| && xs[i] == s;
    ItemsAt(xs, i);
  }

  /** The normal form has the same items under every title, known titles first, none empty. */
  lemma NormalKeeps(sections: seq<Section>, t: string)
    requires GoodSections(sections)
    ensures GoodSections(Normal(sections)) && AllNonEmpty(Normal(sections)) && Ranked(Normal(sections))
    ensures ItemsOf(Normal(sections), t) == ItemsOf(sections, t)
    ensures HasTitle(Normal(sections), t) <==> ItemsOf(sections, t) != []
  {
    var sorted := Sort(RanksBefore, sections);
    SortKeepsTitles(sections);
    RanksPreorder();
    SortSorts(RanksBefore, sections);
    assert Ranked(sorted) by {
      assert forall i, j :: 0 <= i < j < |sorted| ==> RanksBefore(sorted[i], sorted[j]);
    }
    NonEmptyKeeps(sorted);
    NonEmptyRanked(sorted);
    SameElements(sorted, sections);
    if HasTitle(Normal(sections), t) {
      var i :| 0 <= i < |Normal(sections)| && Normal(sections)[i].title == t;
      var s := Normal(sections)[i];
      assert s in Normal(sections);
      assert s in sections;
      ItemsOfMember(Normal(sections), s);
      ItemsOfMember(sections, s);
    } else {
      ItemsAbsent(Normal(sections), t);
      if HasTitle(sections, t) {
        var i :| 0 <= i < |sections| && sections[i].title == t;
        var s := sections[i];
        assert s in sorted;
        assert s.items == [];
        ItemsOfMember(sections, s);
      } else {
        ItemsAbsent(sections, t);
      }
    }
  }

  lemma {:induction false} MergedAllAt(xs: seq<Section>)
    requires GoodSections(xs)
    ensures |MergedAll(xs)| == |xs|
    ensures forall i :: 0 <= i < |xs| ==> MergedAll(xs)[i] == Section(xs[i].title, Merged(xs[i].items))
  {
    if xs != [] {
      var rest := xs[1..];
      GoodTail(xs);
      MergedAllAt(rest);
      forall i | 1 <= i < |xs| ensures MergedAll(xs)[i] == Section(xs[i].title, Merged(xs[i].items)) {
        assert MergedAll(xs)[i] == MergedAll(rest)[i - 1] && xs[i] == rest[i - 1];
      }
    }
  }

  lemma {:induction false} NonEmptyIdentity(xs: seq<Section>)
    requires AllNonEmpty(xs)
    ensures NonEmptySections(xs) == xs
  {
    if xs != [] {
      assert forall i :: 0 <= i < |xs[1..]| ==> xs[1..][i] == xs[i + 1];
      NonEmptyIdentity(xs[1..]);
    }
  }

  lemma NormalIdentity(xs: seq<Section>)
    requires Ranked(xs) && AllNonEmpty(xs)
    ensures Normal(xs) == xs
  {
    assert Sorted(RanksBefore, xs) by {
      forall i, j | 0 <= i < j < |xs| ensures RanksBefore(xs[i], xs[j]) {
        assert SectionRank(xs[i].title) <= SectionRank(xs[j].title);
      }
    }
    SortOfSorted(RanksBefore, xs);
    NonEmptyIdentity(xs);
  }

  lemma {:induction false} SameLines(xs: seq<Section>, ys: seq<Section>)
    requires |xs| == |ys|
    requires forall i :: 0 <= i < |xs| ==> xs[i].title == ys[i].title && Flatten(xs[i].items) == Flatten(ys[i].items)
    ensures JoinBlocks(xs) == JoinBlocks(ys)
  {
    if xs != [] {
      assert BlockLines(xs[0]) == BlockLines(ys[0]);
      assert forall i :: 0 <= i < |xs[1..]| ==> xs[1..][i] == xs[i + 1] && ys[1..][i] == ys[i + 1];
      SameLines(xs[1..], ys[1..]);
    }
  }

  lemma MergedAllShape(xs: seq<Section>)
    requires GoodSections(xs) && AllNonEmpty(xs) && Ranked(xs)
    ensures GoodSections(MergedAll(xs)) && AllNonEmpty(MergedAll(xs)) && Ranked(MergedAll(xs))
  {
    MergedAllAt(xs);
    var ys := MergedAll(xs);
    forall i | 0 <= i < |xs| ensures GoodItems(ys[i].items) && ys[i].items != [] {
      MergedIsRegular(xs[i].items);
    }
  }

  lemma MergedAllLines(xs: seq<Section>)
    requires GoodSections(xs)
    ensures |MergedAll(xs)| == |xs|
    ensures forall i :: 0 <= i < |xs| ==>
              MergedAll(xs)[i].title == xs[i].title && Flatten(MergedAll(xs)[i].items) == Flatten(xs[i].items)
  {
    MergedAllAt(xs);
    forall i | 0 <= i < |xs| ensures Flatten(MergedAll(xs)[i].items) == Flatten(xs[i].items) {
      MergedIsRegular(xs[i].items);
    }
  }

  lemma SameContent(xs: seq<Section>, ys: seq<Section>, t: string)
    requires DistinctTitles(xs) && |xs| == |ys|
    requires forall i :: 0 <= i < |xs| ==> ys[i].title == xs[i].title && Flatten(ys[i].items) == Flatten(xs[i].items)
    ensures Content(ys, t) == Content(xs, t) && (HasTitle(ys, t) <==> HasTitle(xs, t))
  {
    if HasTitle(xs, t) {
      var i :| 0 <= i < |xs| && xs[i].title == t;
      ItemsAt(xs, i);
      ItemsAt(ys, i);
      assert ys[i].title == t;
    } else {
      assert !HasTitle(ys, t);
      ItemsAbsent(xs, t);
      ItemsAbsent(ys, t);
    }
  }

  /** What the joined list keeps of a normal form. */
  lemma MergedAllKeeps(xs: seq<Section>, t: string)
    requires GoodSections(xs) && AllNonEmpty(xs) && Ranked(xs)
    ensures GoodSections(MergedAll(xs)) && AllNonEmpty(MergedAll(xs)) && Ranked(MergedAll(xs))
    ensures JoinBlocks(MergedAll(xs)) == JoinBlocks(xs)
    ensures Content(MergedAll(xs), t) == Content(xs, t)
    ensures HasTitle(MergedAll(xs), t) <==> HasTitle(xs, t)
  {
    MergedAllShape(xs);
    MergedAllLines(xs);
    SameLines(MergedAll(xs), xs);
    SameContent(xs, MergedAll(xs), t);
  }

  /** Parsing what was rendered gives the normal form, with plain-text items joined to the one before. */
  lemma ParseOfRendered(sections: seq<Section>)
    requires GoodSections(sections)
    ensures GoodSections(Normal(sections))
    ensures ScanAll(NOTHING, RenderSections(sections)).sections == MergedAll(Normal(sections))
    ensures ScanAll(NOTHING, RenderSections(sections)).stray == []
  {
    NormalKeeps(sections, "");
    var none: seq<Section> := [];
    assert Disjoint(none, Normal(sections));
    ScanBlocks(none, None, [], Normal(sections));
    assert none + MergedAll(Normal(sections)) == MergedAll(Normal(sections));
  }

  predicate AllRegular(sections: seq<Section>)
    requires GoodSections(sections)
  {
    forall i :: 0 <= i < |sections| ==> Regular(false, sections[i].items)
  }

  /** Parsing inverts rendering exactly when every item that follows another in its section is a bullet. */
  lemma RoundTripExactly(sections: seq<Section>)
    requires GoodSections(sections)
    ensures GoodSections(Normal(sections))
    ensures ScanAll(NOTHING, RenderSections(sections)).sections == Normal(sections) <==> AllRegular(sections)
  {
    ParseOfRendered(sections);
    NormalKeeps(sections, "");
    var xs := Normal(sections);
    MergedAllAt(xs);
    assert MergedAll(xs) == xs <==> AllRegular(xs) by {
      forall i | 0 <= i < |xs| ensures MergedAll(xs)[i] == xs[i] <==> Regular(false, xs[i].items) {
        MergedIsRegular(xs[i].items);
      }
    }
    NormalRegular(sections);
  }

  lemma NormalRegular(sections: seq<Section>)
    requires GoodSections(sections) && GoodSections(Normal(sections))
    ensures AllRegular(Normal(sections)) <==> AllRegular(sections)
  {
    var sorted, xs := Sort(RanksBefore, sections), Normal(sections);
    SortKeepsTitles(sections);
    NonEmptyKeeps(sorted);
    SameElements(sorted, sections);
    assert forall s :: s in xs <==> s in sections && s.items != [];
    if AllRegular(xs) {
      forall i | 0 <= i < |sections| ensures Regular(false, sections[i].items) {
        if sections[i].items != [] {
          assert sections[i] in xs;
        }
      }
    }
    if AllRegular(sections) {
      forall i | 0 <= i < |xs| ensures Regular(false, xs[i].items) {
        assert xs[i] in sections;
      }
    }
  }

  /** Rendering is a normal form: rendered text parses and renders back to itself, and keeps every line. */
  lemma RenderIsNormalForm(sections: seq<Section>, t: string)
    requires GoodSections(sections)
    ensures var body := RenderSections(sections);
            && RenderSections(ScanAll(NOTHING, body).sections) == body
            && LinesUnder(body, None, t) == Content(sections, t) && LinesOutside(body) == []
            && (NamesHeading(body, t) <==> ItemsOf(sections, t) != [])
  {
    ParseOfRendered(sections);
    NormalKeeps(sections, t);
    MergedAllKeeps(Normal(sections), t);
    NormalIdentity(MergedAll(Normal(sections)));
    ParseConserves(RenderSections(sections), t);
  }
}
