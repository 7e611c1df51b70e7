/** Printer, parser and retention trimmer agree on where blocks begin. */
module EvidenceTheorems {
  import opened Common
  import opened Text
  import opened EvidenceDoc

  // ---------------------------------------------------------------------------------------
  // Splitting and joining
  // ---------------------------------------------------------------------------------------

  predicate NoneAnchored(doc: Doc, from: nat) {
    forall i: nat :: from <= i < |doc| ==> !Anchored(doc, i)
  }

  /** A block: it starts at an anchored header and holds no other. */
  predicate IsBlock(part: Doc) {
    part != [] && Anchored(part, 0) && NoneAnchored(part, 1)
  }

  /** A list of parts as a split gives them: blocks, possibly after one preamble. */
  predicate WellSplit(parts: seq<Doc>) {
    && parts != []
    && (|parts| > 1 ==> parts[0] != [])
    && NoneAnchored(parts[0], 1)
    && forall k :: 1 <= k < |parts| ==> IsBlock(parts[k])
  }

  lemma HeaderLine(line: Line)
    requires StartsWith(line, HEADER)
    ensures line != "" && !StartsWith(line, BULLET)
  {
    assert line[0] == HEADER[0];
    assert BULLET[0] != HEADER[0];
  }

  lemma BulletLine(line: Line)
    requires StartsWith(line, BULLET)
    ensures line != "" && !StartsWith(line, HEADER)
  {
    assert line[0] == BULLET[0];
    assert BULLET[0] != HEADER[0];
  }

  /** Whether a line is a boundary depends on its own part only: what follows a part is a header. */
  lemma AnchoredBefore(p: Doc, q: Doc, i: nat)
    requires i < |p| && (q == [] || StartsWith(q[0], HEADER))
    ensures Anchored(p + q, i) <==> Anchored(p, i)
  {
    var d := p + q;
    assert d[i] == p[i];
    if q != [] {
      HeaderLine(q[0]);
    }
    if i + 1 == |p| && q != [] {
      assert d[i + 1] == q[0];
    }
    if i + 2 == |p| && q != [] {
      assert d[i + 2] == q[0];
    }
  }

  lemma AnchoredAfter(p: Doc, q: Doc, i: nat)
    ensures Anchored(p + q, |p| + i) <==> Anchored(q, i)
  {
    var d := p + q;
    assert i < |q| ==> d[|p| + i] == q[i];
    assert i + 1 < |q| ==> d[|p| + i + 1] == q[i + 1];
    assert i + 2 < |q| ==> d[|p| + i + 2] == q[i + 2];
  }

  /** Inside the first `n` lines an anchor never reaches the next boundary. */
  lemma AnchorStaysInside(doc: Doc, n: nat)
    requires n <= |doc| && (n < |doc| ==> Anchored(doc, n))
    ensures forall i: nat :: i < n ==> (Anchored(doc[..n], i) <==> Anchored(doc, i))
  {
    assert doc == doc[..n] + doc[n..];
    forall i: nat | i < n ensures Anchored(doc[..n], i) <==> Anchored(doc, i) {
      AnchoredBefore(doc[..n], doc[n..], i);
    }
  }

  lemma SuffixAnchors(doc: Doc, k: nat, i: nat)
    requires k <= |doc|
    ensures Anchored(doc[k..], i) <==> Anchored(doc, k + i)
  {
    assert doc == doc[..k] + doc[k..];
    AnchoredAfter(doc[..k], doc[k..], i);
  }

  lemma WellSplitCons(p: Doc, rest: seq<Doc>)
    requires p != [] && NoneAnchored(p, 1) && WellSplit(rest) && IsBlock(rest[0])
    ensures WellSplit([p] + rest)
  {
    var all := [p] + rest;
    forall k | 1 <= k < |all| ensures IsBlock(all[k]) {
      assert all[k] == rest[k - 1];
    }
  }

  /** Splitting loses nothing and finds every boundary. */
  lemma {:induction false} SplitIsPartition(doc: Doc)
    ensures Flatten(Split(doc)) == doc
    ensures WellSplit(Split(doc))
    ensures Split(doc)[0] <= doc && (doc != [] ==> Split(doc)[0] != [])
    decreases |doc|
  {
    if doc == [] {
      assert Flatten([doc]) == doc + Flatten([]);
    } else {
      var k := NextBoundary(doc, 1);
      AnchorStaysInside(doc, k);
      if k == |doc| {
        assert Flatten([doc]) == doc + Flatten([]);
        assert doc[..k] == doc;
      } else {
        var rest := Split(doc[k..]);
        SplitIsPartition(doc[k..]);
        SuffixAnchors(doc, k, 0);
        FirstPartAnchored(doc[k..]);
        WellSplitCons(doc[..k], rest);
        assert ([doc[..k]] + rest)[1..] == rest;
      }
    }
  }

  lemma FirstPartAnchored(doc: Doc)
    requires Anchored(doc, 0)
    ensures Anchored(Split(doc)[0], 0)
  {
    var k := NextBoundary(doc, 1);
    AnchorStaysInside(doc, k);
    assert k == |doc| ==> doc[..k] == doc;
  }

  lemma FlattenHead(parts: seq<Doc>)
    requires parts != [] && IsBlock(parts[0]) && forall k :: 0 <= k < |parts| ==> parts[k] != []
    ensures Flatten(parts) != [] && StartsWith(Flatten(parts)[0], HEADER) && Anchored(Flatten(parts), 0)
  {
    var rest := Flatten(parts[1..]);
    assert Flatten(parts) == parts[0] + rest;
    var d := parts[0] + rest;
    assert d[0] == parts[0][0];
    assert 1 < |parts[0]| ==> d[1] == parts[0][1];
    assert 2 < |parts[0]| ==> d[2] == parts[0][2];
  }

  /** Joining parts and splitting again gives the same parts: dropping blocks creates no boundary and hides none. */
  lemma {:induction false} SplitOfFlatten(parts: seq<Doc>)
    requires WellSplit(parts)
    ensures Split(Flatten(parts)) == parts
  {
    var p, rest := parts[0], parts[1..];
    var q := Flatten(rest);
    var d := p + q;
    assert Flatten(parts) == d;
    if rest == [] {
      assert d == p;
    } else {
      assert forall k :: 0 <= k < |rest| ==> rest[k] == parts[k + 1];
      FlattenHead(rest);
      SplitOfFlatten(rest);
      forall i: nat | 1 <= i < |p| ensures !Anchored(d, i) {
        AnchoredBefore(p, q, i);
      }
      AnchoredAfter(p, q, 0);
      assert NextBoundary(d, 1) == |p|;
      assert d[..|p|] == p && d[|p|..] == q;
    }
  }

  // ---------------------------------------------------------------------------------------
  // Trimming
  // ---------------------------------------------------------------------------------------

  lemma {:induction false} KeepBlocks(parts: seq<Doc>, cutoff: int, date: string -> Option<int>)
    requires forall k :: 0 <= k < |parts| ==> IsBlock(parts[k])
    ensures forall k :: 0 <= k < |KeepParts(parts, cutoff, date)| ==> IsBlock(KeepParts(parts, cutoff, date)[k])
  {
    if parts != [] {
      assert forall k :: 0 <= k < |parts[1..]| ==> parts[1..][k] == parts[k + 1];
      KeepBlocks(parts[1..], cutoff, date);
    }
  }

  lemma KeepWellSplit(parts: seq<Doc>, cutoff: int, date: string -> Option<int>)
    requires WellSplit(parts)
    ensures KeepParts(parts, cutoff, date) == [] || WellSplit(KeepParts(parts, cutoff, date))
  {
    assert forall k :: 0 <= k < |parts[1..]| ==> parts[1..][k] == parts[k + 1];
    KeepBlocks(parts[1..], cutoff, date);
    var tail := KeepParts(parts[1..], cutoff, date);
    assert |parts| == 1 ==> tail == [];
  }

  /** The trimmed document splits into exactly the kept parts. */
  lemma SplitOfTrimmed(doc: Doc, cutoff: int, date: string -> Option<int>)
    ensures var kept := KeepParts(Split(doc), cutoff, date);
            Split(TrimmedDoc(doc, Some(cutoff), date)) == if kept == [] then [[]] else kept
  {
    SplitIsPartition(doc);
    KeepWellSplit(Split(doc), cutoff, date);
    var kept := KeepParts(Split(doc), cutoff, date);
    if kept != [] {
      SplitOfFlatten(kept);
    }
  }

  lemma {:induction false} KeepTwice(parts: seq<Doc>, c1: int, c2: int, date: string -> Option<int>)
    ensures KeepParts(KeepParts(parts, c1, date), c2, date) == KeepParts(parts, Max(c1, c2), date)
  {
    if parts != [] {
      KeepTwice(parts[1..], c1, c2, date);
      var rest := KeepParts(parts[1..], c1, date);
      if Kept(parts[0], c1, date) {
        assert ([parts[0]] + rest)[1..] == rest;
      } else {
        assert KeepParts(parts, c1, date) == rest;
      }
    }
  }

  /** Trimming composes: two cutoffs in any order are the later one, so a cutoff applied twice is applied once. */
  lemma TrimComposes(doc: Doc, c1: int, c2: int, date: string -> Option<int>)
    ensures TrimmedDoc(TrimmedDoc(doc, Some(c1), date), Some(c2), date) == TrimmedDoc(doc, Some(Max(c1, c2)), date)
  {
    SplitOfTrimmed(doc, c1, date);
    KeepTwice(Split(doc), c1, c2, date);
    if KeepParts(Split(doc), c1, date) == [] {
      var none: seq<Doc> := [[]];
      assert none[1..] == [];
      assert KeepParts(none, c2, date) == none;
      assert Flatten(none) == [];
    }
  }

  predicate Dropped(part: Doc, cutoff: int, date: string -> Option<int>) {
    && part != [] && StartsWith(part[0], HEADER)
    && SentAtRaw(part) != "" && date(SentAtRaw(part)).Some? && date(SentAtRaw(part)).value < cutoff
  }

  /** What goes and what stays: kept parts are the parts in order, minus exactly those with a readable older stamp. */
  lemma {:induction false} TrimDropsExactly(parts: seq<Doc>, cutoff: int, date: string -> Option<int>)
    ensures KeepParts(parts, cutoff, date) == Filter(p => !Dropped(p, cutoff, date), parts)
  {
    if parts != [] {
      TrimDropsExactly(parts[1..], cutoff, date);
    }
  }

  // ---------------------------------------------------------------------------------------
  // Trimming and parsing commute
  // ---------------------------------------------------------------------------------------

  /** Parsing a trimmed document gives exactly the pairs of the kept blocks, for any document at all. */
  lemma ParseOfTrimmed(doc: Doc, cutoff: int, date: string -> Option<int>)
    ensures Parsed(TrimmedDoc(doc, Some(cutoff), date)) == ParseParts(KeepParts(Split(doc), cutoff, date))
  {
    SplitOfTrimmed(doc, cutoff, date);
    if KeepParts(Split(doc), cutoff, date) == [] {
      var none: seq<Doc> := [[]];
      assert none[1..] == [];
    }
  }

  /** The stamp is not on the header line, so a part that has one is long enough to show an anchor. */
  lemma {:induction false} StampedLine(part: Doc) returns (i: nat)
    requires SentAtRaw(part) != ""
    ensures i < |part| && StartsWith(part[i], SENT_AT)
  {
    if StartsWith(part[0], SENT_AT) {
      i := 0;
    } else {
      var j := StampedLine(part[1..]);
      i := j + 1;
    }
  }

  lemma DroppedIsLong(part: Doc, cutoff: int, date: string -> Option<int>)
    requires Dropped(part, cutoff, date) && !Anchored(part, 0)
    ensures |part| >= 3
  {
    var i := StampedLine(part);
    assert StartsWith(part[i], BULLET) by {
      assert SENT_AT[..2] == BULLET;
      assert part[i][..|SENT_AT|] == SENT_AT;
      assert part[i][..2] == SENT_AT[..2];
    }
    HeaderLine(part[0]);
  }

  lemma PrefixAnchors(p: Doc, d: Doc)
    requires |p| >= 3 && p <= d
    ensures Anchored(p, 0) <==> Anchored(d, 0)
  {
    assert p[0] == d[0] && p[1] == d[1] && p[2] == d[2];
  }

  lemma {:induction false} KeptTailAnchored(parts: seq<Doc>, cutoff: int, date: string -> Option<int>)
    requires forall k :: 0 <= k < |parts| ==> IsBlock(parts[k])
    ensures var kept := KeepParts(parts, cutoff, date);
            kept != [] ==> Anchored(Flatten(kept), 0)
  {
    KeepBlocks(parts, cutoff, date);
    var kept := KeepParts(parts, cutoff, date);
    if kept != [] {
      FlattenHead(kept);
    }
  }

  /**
   The trimmer's documentation promises that text before the first block is preserved.  Exactly: it
   is, unless its first line itself looks like a header (without the anchor) and an older readable
   stamp stands below it; the trimmer then takes it for a block, which the parser never does.
   */
  lemma PreambleKeptExactly(doc: Doc, cutoff: int, date: string -> Option<int>)
    requires doc != [] && !Anchored(doc, 0)
    ensures Split(doc)[0] <= TrimmedDoc(doc, Some(cutoff), date) <==> !Dropped(Split(doc)[0], cutoff, date)
    ensures ParseParts([Split(doc)[0]]) == []
  {
    SplitIsPartition(doc);
    var parts := Split(doc);
    var k := NextBoundary(doc, 1);
    AnchorStaysInside(doc, k);
    var first, rest := parts[0], parts[1..];
    assert first == doc[..k];
    assert !Anchored(first, 0);
    var alone: seq<Doc> := [first];
    assert alone[1..] == [];
    var tail := KeepParts(rest, cutoff, date);
    if Dropped(first, cutoff, date) {
      DroppedIsLong(first, cutoff, date);
      assert KeepParts(parts, cutoff, date) == tail;
      assert forall j :: 0 <= j < |rest| ==> rest[j] == parts[j + 1];
      KeptTailAnchored(rest, cutoff, date);
      var out := Flatten(tail);
      if first <= out {
        PrefixAnchors(first, out);
      }
    } else {
      assert KeepParts(parts, cutoff, date) == [first] + tail;
      assert ([first] + tail)[1..] == tail;
    }
  }

  /** The first instant of 2020, and its epoch milliseconds. */
  const STAMP := "2020-01-01T00:00:00.000Z"
  const STAMP_MS := 1_577_836_800_000

  /** A document the promise fails on: three lines of notes, all removed once the stamp is older than the cutoff. */
  lemma PreambleLost(date: string -> Option<int>, cutoff: int)
    requires date(STAMP) == Some(STAMP_MS) && cutoff > STAMP_MS
    ensures TrimmedDoc(["## Diff — notes", "kept by hand", "- sent_at: " + STAMP], Some(cutoff), date) == []
  {
    var doc := ["## Diff — notes", "kept by hand", "- sent_at: " + STAMP];
    assert StartsWith(doc[0], HEADER);
    HeaderLine(doc[0]);
    assert !StartsWith(doc[1], BULLET) && !StartsWith(doc[1], SENT_AT) && !StartsWith(doc[1], HEADER) by {
      assert doc[1][0] == 'k';
    }
    assert doc[1] != "";
    StampOnLine(STAMP);
    BulletLine(doc[2]);
    assert Split(doc) == [doc];
    assert doc[1..][1..] == doc[2..];
    assert !StartsWith(doc[0], SENT_AT);
    StampRead(STAMP, doc[2..]);
    assert SentAtRaw(doc[1..]) == SentAtRaw(doc[2..]);
    assert SentAtRaw(doc) == STAMP;
    var alone: seq<Doc> := [doc];
    assert alone[1..] == [];
    assert KeepParts(alone, cutoff, date) == [];
  }

  lemma StampOnLine(stamp: string)
    ensures StartsWith("- sent_at: " + stamp, SENT_AT) && ("- sent_at: " + stamp)[|SENT_AT|..] == " " + stamp
  {
    var line := "- sent_at: " + stamp;
    assert line == SENT_AT + (" " + stamp);
  }

  lemma StampRead(stamp: string, part: Doc)
    requires stamp != "" && Text.Trimmed(stamp) && part != [] && part[0] == "- sent_at: " + stamp
    ensures SentAtRaw(part) == stamp
  {
    StampOnLine(stamp);
    TrimUndoesPadding(" ", stamp, "");
    assert " " + stamp + "" == " " + stamp;
    assert ([part[0][|SENT_AT|..]] + part[1..])[0] == " " + stamp;
  }
}
