/** What a write to the digest leaves under every key. */
module DigestWrites {
  import opened Common
  import opened DigestNumbers
  import opened DigestRuns

  /** Ninety days, in milliseconds. */
  const NINETY_DAYS := 7_776_000_000

  /** The item under `k`, numbered as every reader shows it, unless it is more than ninety days old. */
  function Live(st: Store, k: string, now: int, instant: string -> int): Option<Entry> {
    match Known(View(st), k)
    case None => None
    case Some(e) => if e.clock.Some? && now - instant(e.clock.value) > NINETY_DAYS then None else Some(e)
  }

  function LiveIn(st: Store, now: int, instant: string -> int): string -> Option<Entry> {
    key => Live(st, key, now, instant)
  }

  predicate Adds(adds: seq<Add>, k: string) {
    exists i :: 0 <= i < |adds| && adds[i].key == k
  }

  function FirstAdd(adds: seq<Add>, k: string): (i: nat)
    ensures i <= |adds|
  {
    if adds == [] || adds[0].key == k then 0 else 1 + FirstAdd(adds[1..], k)
  }

  function LastNote(adds: seq<Add>, k: string): string {
    if adds == [] then "" else if Adds(adds[1..], k) then LastNote(adds[1..], k) else adds[0].note
  }

  lemma {:induction false} FirstAddIs(adds: seq<Add>, k: string)
    requires Adds(adds, k)
    ensures FirstAdd(adds, k) < |adds| && adds[FirstAdd(adds, k)].key == k
    ensures forall j :: 0 <= j < FirstAdd(adds, k) ==> adds[j].key != k
  {
    AddsTail(adds, k);
    if adds[0].key != k {
      FirstAddIs(adds[1..], k);
      assert forall j :: 1 <= j < |adds| ==> adds[j] == adds[1..][j - 1];
    }
  }

  /** The last addition under a key decides its note. */
  lemma {:induction false} LastNoteIs(adds: seq<Add>, k: string, i: nat)
    requires i < |adds| && adds[i].key == k && forall j :: i < j < |adds| ==> adds[j].key != k
    ensures LastNote(adds, k) == adds[i].note
  {
    if i == 0 {
      assert !Adds(adds[1..], k);
    } else {
      assert adds[1..][i - 1] == adds[i];
      LastNoteIs(adds[1..], k, i - 1);
    }
  }

  /** The keys the digest does not hold yet. */
  function NewKeys(m: Digest, adds: seq<Add>): set<string> {
    set i | 0 <= i < |adds| && Known(m, adds[i].key).None? :: adds[i].key
  }

  lemma AddsTail(adds: seq<Add>, k: string)
    requires adds != []
    ensures Adds(adds, k) <==> adds[0].key == k || Adds(adds[1..], k)
  {
    assert forall i :: 0 <= i < |adds[1..]| ==> adds[1..][i] == adds[i + 1];
    assert forall i :: 1 <= i < |adds| ==> adds[i] == adds[1..][i - 1];
  }

  lemma PutKnown(m: Digest, e: Entry, k: string)
    requires DistinctKeys(m)
    ensures Known(Put(m, e), k) == if k == e.key then Some(e) else Known(m, k)
  {
    var r, p := Put(m, e), Position(m, e.key);
    PutKeepsKeys(m, e);
    if k == e.key {
      assert r[p] == e;
      KnownIs(r, e);
    } else if Position(m, k) < |m| {
      assert r[Position(m, k)] == m[Position(m, k)];
      KnownIs(r, m[Position(m, k)]);
    } else {
      assert forall i :: 0 <= i < |r| ==> r[i].key == e.key || (i < |m| && r[i] == m[i]);
    }
  }

  /** What stands under an added key: the last note, the clock and number it has, or new ones. */
  predicate Recorded(e: Option<Entry>, known: Option<Entry>, note: string, nowIso: string, number: int) {
    && e.Some? && e.value.note == note
    && e.value.clock == (if known.Some? && known.value.clock.Some? then known.value.clock else Some(nowIso))
    && e.value.n == (if known.Some? then known.value.n else Some(number))
  }

  /** The outcome under `k` of recording additions where `known` stood. */
  predicate Outcome(r: Digest, known: Option<Entry>, adds: seq<Add>, nowIso: string, number: int, k: string) {
    if Adds(adds, k) then Recorded(Known(r, k), known, LastNote(adds, k), nowIso, number) else Known(r, k) == known
  }

  lemma NewKeysCons(m: Digest, adds: seq<Add>, e: Entry)
    requires DistinctKeys(m) && adds != [] && e.key == adds[0].key
    ensures NewKeys(m, adds) == NewKeys(Put(m, e), adds[1..]) + (if Known(m, e.key).None? then {e.key} else {})
    ensures e.key !in NewKeys(Put(m, e), adds[1..])
  {
    var later := NewKeys(Put(m, e), adds[1..]);
    forall k ensures k in NewKeys(m, adds) <==> k in later || (Known(m, e.key).None? && k == e.key) {
      PutKnown(m, e, k);
      if k in NewKeys(m, adds) && k != e.key {
        var i :| 0 <= i < |adds| && Known(m, adds[i].key).None? && adds[i].key == k;
        assert adds[1..][i - 1] == adds[i];
      }
      if k in later {
        var i :| 0 <= i < |adds[1..]| && Known(Put(m, e), adds[1..][i].key).None? && adds[1..][i].key == k;
        assert adds[i + 1] == adds[1..][i];
      }
    }
    PutKnown(m, e, e.key);
  }

  /** The number a new key gets, counting from `next`. */
  function NextFor(m: Digest, adds: seq<Add>, k: string, next: int): int
  {
    next + |NewKeys(m, adds[..FirstAdd(adds, k)])|
  }

  lemma NextForCons(m: Digest, adds: seq<Add>, e: Entry, k: string, next: int)
    requires DistinctKeys(m) && adds != [] && e.key == adds[0].key && k != e.key
    ensures NextFor(m, adds, k, next)
         == NextFor(Put(m, e), adds[1..], k, next + if Known(m, e.key).None? then 1 else 0)
  {
    var f := FirstAdd(adds, k);
    assert adds[..f] != [] && adds[..f][1..] == adds[1..][..f - 1];
    NewKeysCons(m, adds[..f], e);
  }

  /** One after another, an entry per added key, and every other key as it was. */
  lemma {:induction false} AddAllExactly(m: Digest, adds: seq<Add>, nowIso: string, next: int, k: string)
    requires Clean(m) && Below(m, next) && next > 0
    ensures Outcome(AddAll(m, adds, nowIso, next), Known(m, k), adds, nowIso, NextFor(m, adds, k, next), k)
    decreases |adds|
  {
    if adds != [] {
      var e := NewEntry(m, adds[0], nowIso, next);
      var next' := if NumberIn(m, adds[0].key).Some? then next else next + 1;
      AddOne(m, adds[0], nowIso, next);
      CleanIsOwned(m);
      PutKnown(m, e, k);
      AddsTail(adds, k);
      AddAllExactly(Put(m, e), adds[1..], nowIso, next', k);
      if Adds(adds, k) {
        FirstAddIs(adds, k);
        if k == e.key {
          assert adds[..0] == [];
        } else {
          NextForCons(m, adds, e, k, next);
        }
      }
    }
  }

  /** Items that were there keep their place; new ones follow, their numbers ascending. */
  predicate InPlace(m: Digest, r: Digest, next: int) {
    && |m| <= |r| && (forall i :: 0 <= i < |m| ==> r[i].key == m[i].key)
    && (forall i :: |m| <= i < |r| ==> r[i].n.Some? && next <= r[i].n.value)
    && (forall i, j :: |m| <= i < j < |r| ==> r[i].n.value < r[j].n.value)
  }

  predicate SameKeys(m: Digest, p: Digest) {
    |m| <= |p| && forall i :: 0 <= i < |m| ==> p[i].key == m[i].key
  }

  lemma PutShape(m: Digest, e: Entry)
    ensures SameKeys(m, Put(m, e)) && |Put(m, e)| == if Known(m, e.key).Some? then |m| else |m| + 1
    ensures Known(m, e.key).None? ==> Put(m, e)[|m|].key == e.key
  {}

  lemma OneNewcomer(m: Digest, p: Digest, r: Digest, next: int)
    requires SameKeys(m, p) && |p| == |m| + 1 && InPlace(p, r, next + 1) && r[|m|].n == Some(next)
    ensures InPlace(m, r, next)
  {
    forall i, j | |m| <= i < j < |r| ensures r[i].n.value < r[j].n.value {
      assert next + 1 <= r[j].n.value;
    }
  }

  lemma {:induction false} AddedInPlace(m: Digest, adds: seq<Add>, nowIso: string, next: int)
    requires Clean(m) && Below(m, next) && next > 0
    ensures InPlace(m, AddAll(m, adds, nowIso, next), next)
    decreases |adds|
  {
    if adds != [] {
      var e := NewEntry(m, adds[0], nowIso, next);
      var next' := if NumberIn(m, adds[0].key).Some? then next else next + 1;
      var r := AddAll(m, adds, nowIso, next);
      AddOne(m, adds[0], nowIso, next);
      CleanIsOwned(m);
      AddedInPlace(Put(m, e), adds[1..], nowIso, next');
      PutShape(m, e);
      if Known(m, e.key).None? {
        PutKnown(m, e, e.key);
        AddAllKeeps(Put(m, e), adds[1..], nowIso, next', e.key);
        KnownIs(r, r[|m|]);
        OneNewcomer(m, Put(m, e), r, next);
      }
    }
  }

  lemma LiveIs(st: Store, k: string, now: int, instant: string -> int)
    requires DistinctKeys(st.items)
    ensures Known(Prune(View(st), now, instant), k) == Live(st, k, now, instant)
  {
    ViewClean(st);
    PruneExactly(View(st), now, instant, k);
  }

  /** A numbered view with no number above `top`. */
  predicate Shown(v: Digest, top: int) {
    Clean(v) && Below(v, top + 1) && top >= 0
  }

  lemma ViewIsShown(st: Store)
    requires DistinctKeys(st.items)
    ensures Shown(View(st), Top(st))
  {
    ViewClean(st);
  }

  lemma PrunedIsShown(v: Digest, top: int, now: int, instant: string -> int)
    requires Shown(v, top)
    ensures Shown(Prune(v, now, instant), top)
  {
    PruneKeeps(v, now, instant);
    var pruned := Prune(v, now, instant);
    forall i | 0 <= i < |pruned| ensures pruned[i].n.value <= top {
      assert pruned[i] in pruned;
      var j :| 0 <= j < |v| && v[j] == pruned[i];
    }
  }

  lemma StepWrites(st: Store, adds: seq<Add>, now: int, nowIso: string, instant: string -> int)
    requires adds != []
    ensures AddStep(st, adds, now, nowIso, instant, Writes(true, true)).items == Written(st, adds, now, nowIso, instant)
  {}

  lemma WrittenIs(st: Store, adds: seq<Add>, now: int, nowIso: string, instant: string -> int)
    requires DistinctKeys(st.items)
    ensures Written(st, adds, now, nowIso, instant) == Added(st, adds, now, nowIso, instant)
  {
    WrittenKeeps(st, adds, now, nowIso, instant, "");
  }

  lemma StepAdds(st: Store, adds: seq<Add>, now: int, nowIso: string, instant: string -> int)
    requires DistinctKeys(st.items) && adds != []
    ensures AddStep(st, adds, now, nowIso, instant, Writes(true, true)).items == Added(st, adds, now, nowIso, instant)
  {
    StepWrites(st, adds, now, nowIso, instant);
    WrittenIs(st, adds, now, nowIso, instant);
  }

  /** The keys nothing stands under yet. */
  function Newcomers(live: string -> Option<Entry>, adds: seq<Add>): set<string> {
    set i | 0 <= i < |adds| && live(adds[i].key).None? :: adds[i].key
  }

  /** What a write leaves under `k`, given what stood under each key and the highest number issued. */
  predicate WrittenAs(live: string -> Option<Entry>, top: int, items: Digest, adds: seq<Add>, nowIso: string, k: string)
  {
    Outcome(items, live(k), adds, nowIso, top + 1 + |Newcomers(live, adds[..FirstAdd(adds, k)])|, k)
  }

  lemma NewcomersAre(m: Digest, live: string -> Option<Entry>, adds: seq<Add>)
    requires forall i :: 0 <= i < |adds| ==> Known(m, adds[i].key) == live(adds[i].key)
    ensures NewKeys(m, adds) == Newcomers(live, adds)
  {}

  lemma SameOutcome(items: Digest, m: Digest, live: string -> Option<Entry>, top: int, adds: seq<Add>, nowIso: string,
                    k: string)
    requires Outcome(items, Known(m, k), adds, nowIso, NextFor(m, adds, k, top + 1), k)
    requires Known(m, k) == live(k)
    requires NewKeys(m, adds[..FirstAdd(adds, k)]) == Newcomers(live, adds[..FirstAdd(adds, k)])
    ensures WrittenAs(live, top, items, adds, nowIso, k)
  {}

  lemma AddedAs(m: Digest, live: string -> Option<Entry>, top: int, adds: seq<Add>, nowIso: string, k: string)
    requires Shown(m, top) && Known(m, k) == live(k)
    requires NewKeys(m, adds[..FirstAdd(adds, k)]) == Newcomers(live, adds[..FirstAdd(adds, k)])
    ensures WrittenAs(live, top, AddAll(m, adds, nowIso, top + 1), adds, nowIso, k)
  {
    AddAllExactly(m, adds, nowIso, top + 1, k);
    SameOutcome(AddAll(m, adds, nowIso, top + 1), m, live, top, adds, nowIso, k);
  }

  lemma AddedExactly(st: Store, adds: seq<Add>, now: int, nowIso: string, instant: string -> int, k: string)
    requires DistinctKeys(st.items)
    ensures WrittenAs(LiveIn(st, now, instant), Top(st), Added(st, adds, now, nowIso, instant), adds, nowIso, k)
  {
    ViewIsShown(st);
    PrunedIsShown(View(st), Top(st), now, instant);
    LiveIs(st, k, now, instant);
    LiveNewcomers(st, now, instant, adds[..FirstAdd(adds, k)]);
    AddedAs(Prune(View(st), now, instant), LiveIn(st, now, instant), Top(st), adds, nowIso, k);
  }

  /**
   Main result for the writer that queues items: a key not added stands as it did, unless it is past
   ninety days; an added one gets its last note, and keeps its clock and number or is given the
   present instant and the next number above everything issued, in the order of the additions.
   */
  lemma WrittenExactly(st: Store, adds: seq<Add>, now: int, nowIso: string, instant: string -> int, k: string)
    requires DistinctKeys(st.items) && adds != []
    ensures WrittenAs(LiveIn(st, now, instant), Top(st),
                      AddStep(st, adds, now, nowIso, instant, Writes(true, true)).items, adds, nowIso, k)
  {
    StepAdds(st, adds, now, nowIso, instant);
    AddedExactly(st, adds, now, nowIso, instant, k);
  }

  lemma LiveNewcomers(st: Store, now: int, instant: string -> int, adds: seq<Add>)
    requires DistinctKeys(st.items)
    ensures NewKeys(Prune(View(st), now, instant), adds) == Newcomers(LiveIn(st, now, instant), adds)
  {
    var m := Prune(View(st), now, instant);
    forall i | 0 <= i < |adds| ensures Known(m, adds[i].key) == Live(st, adds[i].key, now, instant) {
      LiveIs(st, adds[i].key, now, instant);
    }
    NewcomersAre(m, LiveIn(st, now, instant), adds);
  }

  lemma {:induction false} AddedBelow(m: Digest, adds: seq<Add>, nowIso: string, next: int)
    requires Clean(m) && Below(m, next) && next > 0
    ensures Below(AddAll(m, adds, nowIso, next), next + |NewKeys(m, adds)|)
    decreases |adds|
  {
    if adds != [] {
      var e := NewEntry(m, adds[0], nowIso, next);
      AddOne(m, adds[0], nowIso, next);
      CleanIsOwned(m);
      NewKeysCons(m, adds, e);
      AddedBelow(Put(m, e), adds[1..], nowIso, if NumberIn(m, adds[0].key).Some? then next else next + 1);
    }
  }

  lemma {:induction false} AddedLength(m: Digest, adds: seq<Add>, nowIso: string, next: int)
    requires Clean(m) && Below(m, next) && next > 0
    ensures |AddAll(m, adds, nowIso, next)| == |m| + |NewKeys(m, adds)|
    decreases |adds|
  {
    if adds != [] {
      var e := NewEntry(m, adds[0], nowIso, next);
      AddOne(m, adds[0], nowIso, next);
      CleanIsOwned(m);
      PutShape(m, e);
      NewKeysCons(m, adds, e);
      AddedLength(Put(m, e), adds[1..], nowIso, if NumberIn(m, adds[0].key).Some? then next else next + 1);
    }
  }

  lemma {:induction false} AscendingReaches(m: Digest, r: Digest, next: int, i: nat)
    requires InPlace(m, r, next) && |m| <= i < |r|
    ensures r[i].n.value >= next + (i - |m|)
  {
    if i > |m| {
      AscendingReaches(m, r, next, i - 1);
    }
  }

  /** Adding raises the highest number issued by exactly as many as there are new keys. */
  lemma HighestAdded(m: Digest, adds: seq<Add>, nowIso: string, top: int)
    requires Clean(m) && Below(m, top + 1) && top >= 0
    ensures Max(top, MaxDigestNumber(AddAll(m, adds, nowIso, top + 1))) == top + |NewKeys(m, adds)|
  {
    var r := AddAll(m, adds, nowIso, top + 1);
    AddedBelow(m, adds, nowIso, top + 1);
    AddedLength(m, adds, nowIso, top + 1);
    AddedInPlace(m, adds, nowIso, top + 1);
    HighestInPlace(m, r, top, |NewKeys(m, adds)|);
  }

  lemma HighestInPlace(m: Digest, r: Digest, top: int, n: nat)
    requires top >= 0 && InPlace(m, r, top + 1) && Below(r, top + 1 + n) && |r| == |m| + n
    ensures Max(top, MaxDigestNumber(r)) == top + n
  {
    if n > 0 {
      AscendingReaches(m, r, top + 1, |r| - 1);
    }
  }

  /**
   What the writer stores when a write is refused: nothing if it is the mark; if it is the digest, the mark
   alone, raised to the highest number it would have given.
   */
  lemma MarkExactly(st: Store, adds: seq<Add>, now: int, nowIso: string, instant: string -> int, w: Writes)
    requires DistinctKeys(st.items) && adds != []
    ensures var st' := AddStep(st, adds, now, nowIso, instant, w);
            if !w.mark then st' == st
            else
              && st'.mark == Max(Top(st), MaxDigestNumber(Added(st, adds, now, nowIso, instant)))
              && st'.items == if w.digest then Added(st, adds, now, nowIso, instant) else st.items
  {
    WrittenIs(st, adds, now, nowIso, instant);
  }

  /** Numbering starts again at 1 exactly when the digest is empty. */
  lemma RestartsWhenEmpty(st: Store)
    requires DistinctKeys(st.items)
    ensures st.items == [] ==> Top(st) == 0
    ensures st.items != [] ==> Top(st) >= st.mark && Top(st) > 0
  {
    if st.items != [] {
      ViewClean(st);
      assert IsNumber(View(st)[0].n);
    }
  }

  /**
   Main result for the writer that clears an item: it goes, with what is past ninety days, and every
   other key stands; nothing changes if the key is unknown or the mark had to move and was refused.
   */
  lemma ResolvedExactly(st: Store, key: string, now: int, instant: string -> int, w: Writes, k: string)
    requires DistinctKeys(st.items)
    ensures var st' := ResolveStep(st, key, now, instant, w);
            var moves := MaxDigestNumber(View(st)) > Mark(st);
            if Known(st.items, key).None? || (moves && !w.mark) then st' == st
            else
              && st'.mark == (if moves then MaxDigestNumber(View(st)) else st.mark)
              && (!w.digest ==> st'.items == st.items)
              && (w.digest ==> Known(st'.items, k) == if k == key then None else Live(st, k, now, instant))
  {
    ViewClean(st);
    ViewKnown(st, key);
    ClearedKeeps(View(st), key, now, instant, k);
  }
}
