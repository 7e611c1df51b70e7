/** The numbering is canonical, and stays put over whole runs of the two writers. */
module DigestRuns {
  import opened Common
  import opened Sorting
  import opened DigestNumbers

  // ---------------------------------------------------------------------------------------
  // One numbering
  // ---------------------------------------------------------------------------------------

  predicate DistinctNumbers(m: Digest) {
    forall i, j :: 0 <= i < j < |m| ==> m[i].n != m[j].n
  }

  predicate AllNumbered(m: Digest) {
    forall i :: 0 <= i < |m| ==> IsNumber(m[i].n)
  }

  /** What a writer leaves behind. */
  predicate Clean(m: Digest) {
    DistinctKeys(m) && AllNumbered(m) && DistinctNumbers(m)
  }

  lemma {:induction false} FreshGrows(o: Digest, i: nat, j: nat)
    requires i <= j <= |o|
    ensures Fresh(o, i) <= Fresh(o, j)
    ensures i < j && !Keeps(o, i) ==> Fresh(o, i) < Fresh(o, j)
    decreases j - i
  {
    if i < j {
      FreshGrows(o, i, j - 1);
    }
  }

  lemma PlacesDiffer(o: Digest, mark: nat, i: nat, j: nat)
    requires i < j < |o|
    ensures NumberAt(o, mark, i) != NumberAt(o, mark, j)
    ensures NumberAt(o, mark, i) > 0 && NumberAt(o, mark, j) > 0
  {
    FreshGrows(o, i, j);
  }

  lemma NumberedAt(m: Digest, mark: nat, i: nat)
    requires DistinctKeys(m) && i < |m|
    ensures var o := InOrder(m); var p := Position(o, m[i].key);
            p < |o| == |m| && o[p] == m[i] && Numbered(m, mark)[i] == m[i].(n := Some(NumberAt(o, mark, p)))
  {
    OrderedHas(m, m[i]);
  }

  /** Every entry gets a positive number of its own; nothing else about the digest changes. */
  lemma NumberedIsClean(m: Digest, mark: nat)
    requires DistinctKeys(m)
    ensures Clean(Numbered(m, mark))
    ensures forall i :: 0 <= i < |m| ==> Numbered(m, mark)[i] == m[i].(n := Numbered(m, mark)[i].n)
  {
    var o, r := InOrder(m), Numbered(m, mark);
    forall i | 0 <= i < |m| ensures IsNumber(r[i].n) {
      NumberedAt(m, mark, i);
    }
    forall i, j | 0 <= i < j < |m| ensures r[i].n != r[j].n {
      NumberedAt(m, mark, i);
      NumberedAt(m, mark, j);
      var p, q := Position(o, m[i].key), Position(o, m[j].key);
      assert o[p].key != o[q].key;
      if p < q {
        PlacesDiffer(o, mark, p, q);
      } else {
        PlacesDiffer(o, mark, q, p);
      }
    }
  }

  /** `e` is the first, in numbering order, to hold its valid number. */
  predicate KeepsNumber(m: Digest, e: Entry) {
    IsNumber(e.n) && forall x :: x in m && x.n == e.n && x != e ==> !Precedes(x, e)
  }

  lemma {:induction false} LexTotal(a: string, b: string)
    ensures LexLeq(a, b) || LexLeq(b, a)
    ensures LexLeq(a, b) && LexLeq(b, a) ==> a == b
  {
    if a != [] && b != [] && a[0] == b[0] {
      LexTotal(a[1..], b[1..]);
      assert a == [a[0]] + a[1..] && b == [b[0]] + b[1..];
    }
  }

  lemma {:induction false} LexTransitive(a: string, b: string, c: string)
    requires LexLeq(a, b) && LexLeq(b, c)
    ensures LexLeq(a, c)
  {
    if a != [] && a[0] == b[0] && b[0] == c[0] {
      LexTransitive(a[1..], b[1..], c[1..]);
    }
  }

  lemma PrecedesTransitive(x: Entry, y: Entry, z: Entry)
    requires Precedes(x, y) && Precedes(y, z)
    ensures Precedes(x, z)
  {
    if x.clock.Some? && y.clock.Some? && z.clock.Some? {
      var a, b, c := x.clock.value, y.clock.value, z.clock.value;
      LexTotal(a, b);
      LexTotal(b, c);
      if a != b && b != c {
        LexTransitive(a, b, c);
      }
    }
    if x.clock == y.clock == z.clock {
      LexTransitive(x.key, y.key, z.key);
    }
  }

  lemma PrecedesPreorder()
    ensures TotalPreorder(Precedes)
  {
    forall x, y ensures Precedes(x, y) || Precedes(y, x) {
      LexTotal(x.key, y.key);
      if x.clock.Some? && y.clock.Some? {
        LexTotal(x.clock.value, y.clock.value);
      }
    }
    forall x, y, z | Precedes(x, y) && Precedes(y, z) ensures Precedes(x, z) {
      PrecedesTransitive(x, y, z);
    }
  }

  lemma PrecedesTies(x: Entry, y: Entry)
    requires Precedes(x, y) && Precedes(y, x)
    ensures x.key == y.key
  {
    LexTotal(x.key, y.key);
    if x.clock.Some? && y.clock.Some? {
      LexTotal(x.clock.value, y.clock.value);
    }
  }

  lemma SameKeySameEntry(m: Digest, x: Entry, y: Entry)
    requires DistinctKeys(m) && x in m && y in m && x.key == y.key
    ensures x == y
  {
    var i :| 0 <= i < |m| && m[i] == x;
    var j :| 0 <= j < |m| && m[j] == y;
  }

  /** Keeping a number, in terms of the entries alone. */
  lemma KeepsExactly(m: Digest, p: nat)
    requires DistinctKeys(m) && p < |InOrder(m)|
    ensures Keeps(InOrder(m), p) <==> KeepsNumber(m, InOrder(m)[p])
  {
    var o := InOrder(m);
    var e := o[p];
    OrderedKeys(m);
    PrecedesPreorder();
    SortSorts(Precedes, m);
    if Keeps(o, p) {
      forall x | x in m && x.n == e.n && x != e ensures !Precedes(x, e) {
        assert x in o;
        var j :| 0 <= j < |o| && o[j] == x;
        assert p < j;
        assert Precedes(e, x);
        if Precedes(x, e) {
          PrecedesTies(x, e);
          SameKeySameEntry(m, x, e);
        }
      }
    }
    if KeepsNumber(m, e) {
      forall j | 0 <= j < p ensures o[j].n != e.n {
        assert o[j] in m && o[j].key != e.key && Precedes(o[j], e);
      }
    }
  }

  /**
   Which numbers survive: an entry keeps its stored number exactly when that number is valid and no
   entry before it in numbering order holds it; all others get numbers above the mark and above every
   valid stored one.
   */
  lemma KeptExactly(m: Digest, mark: nat, i: nat)
    requires DistinctKeys(m) && i < |m|
    ensures Numbered(m, mark)[i].n == m[i].n <==> KeepsNumber(m, m[i])
    ensures !KeepsNumber(m, m[i]) ==>
              && Numbered(m, mark)[i].n.value > mark
              && forall j :: 0 <= j < |m| && IsNumber(m[j].n) ==> Numbered(m, mark)[i].n.value > m[j].n.value
  {
    var o := InOrder(m);
    NumberedAt(m, mark, i);
    var p := Position(o, m[i].key);
    KeepsExactly(m, p);
    if !Keeps(o, p) {
      forall j | 0 <= j < |m| && IsNumber(m[j].n) ensures NumberAt(o, mark, p) > m[j].n.value {
        NumberedAt(m, mark, j);
        assert o[Position(o, m[j].key)] == m[j];
      }
    }
  }

  lemma KeptWhenClean(m: Digest, e: Entry)
    requires Clean(m) && e in m
    ensures KeepsNumber(m, e)
  {
    var i :| 0 <= i < |m| && m[i] == e;
    forall x | x in m && x.n == e.n ensures x == e {
      var j :| 0 <= j < |m| && m[j] == x;
    }
  }

  lemma CleanEntryIsFixed(m: Digest, mark: nat, i: nat)
    requires Clean(m) && i < |m|
    ensures Numbered(m, mark)[i] == m[i]
  {
    KeptWhenClean(m, m[i]);
    KeptExactly(m, mark, i);
    NumberedAt(m, mark, i);
  }

  /** A clean digest is a fixed point, whatever the mark. */
  lemma CleanIsFixed(m: Digest, mark: nat)
    requires Clean(m)
    ensures Numbered(m, mark) == m
  {
    forall i | 0 <= i < |m| ensures Numbered(m, mark)[i] == m[i] {
      CleanEntryIsFixed(m, mark, i);
    }
  }

  /** Numbering twice is numbering once, even under a mark that has moved. */
  lemma NumberingIsIdempotent(m: Digest, mark: nat, later: nat)
    requires DistinctKeys(m)
    ensures Numbered(Numbered(m, mark), later) == Numbered(m, mark)
  {
    NumberedIsClean(m, mark);
    CleanIsFixed(Numbered(m, mark), later);
  }

  /** The insertion order of the map does not matter. */
  lemma OrderDoesNotMatter(m: Digest, k: Digest, mark: nat)
    requires DistinctKeys(m) && DistinctKeys(k) && multiset(m) == multiset(k)
    ensures forall key :: NumberOf(m, mark, key) == NumberOf(k, mark, key)
  {
    PrecedesPreorder();
    SortSorts(Precedes, m);
    SortSorts(Precedes, k);
    var o := InOrder(m);
    OrderedKeys(m);
    forall x, y | x in o && y in o && Precedes(x, y) && Precedes(y, x) ensures x == y {
      PrecedesTies(x, y);
      SameKeySameEntry(m, x, y);
    }
    SortedUnique(Precedes, o, InOrder(k));
  }

  // ---------------------------------------------------------------------------------------
  // The two writers
  // ---------------------------------------------------------------------------------------

  datatype Store = Store(items: Digest, mark: nat)

  /** The mark a reader uses: the stored one only while there are items. */
  function Mark(st: Store): nat {
    if st.items == [] then 0 else st.mark
  }

  /** What every reader shows and every reply is resolved against. */
  function View(st: Store): Digest {
    Numbered(st.items, Mark(st))
  }

  /** The highest number handed out so far. */
  function Top(st: Store): nat {
    Max(Mark(st), MaxDigestNumber(View(st)))
  }

  datatype Add = Add(key: string, note: string)

  /** Which of a writer's two writes are stored. */
  datatype Writes = Writes(mark: bool, digest: bool)

  /** Assignment to a key of a JavaScript object. */
  function Put(m: Digest, e: Entry): Digest {
    var p := Position(m, e.key);
    if p < |m| then m[p := e] else m + [e]
  }

  function Known(m: Digest, key: string): Option<Entry> {
    if Position(m, key) < |m| then Some(m[Position(m, key)]) else None
  }

  function NumberIn(m: Digest, key: string): Option<int> {
    match Known(m, key)
    case None => None
    case Some(e) => e.n
  }

  /** A retried item keeps its clock and number; a new one takes the next number. */
  function NewEntry(m: Digest, a: Add, nowIso: string, next: int): Entry {
    var known := Known(m, a.key);
    Entry(a.key,
          if known.Some? && known.value.clock.Some? then known.value.clock else Some(nowIso),
          if known.Some? && known.value.n.Some? then known.value.n else Some(next),
          a.note)
  }

  function AddAll(m: Digest, adds: seq<Add>, nowIso: string, next: int): Digest
    decreases |adds|
  {
    if adds == [] then m
    else
      var e := NewEntry(m, adds[0], nowIso, next);
      AddAll(Put(m, e), adds[1..], nowIso, if NumberIn(m, adds[0].key).Some? then next else next + 1)
  }

  /** The live items with the new ones put in, numbered above everything issued. */
  function Added(st: Store, adds: seq<Add>, now: int, nowIso: string, instant: string -> int): Digest {
    AddAll(Prune(View(st), now, instant), adds, nowIso, Top(st) + 1)
  }

  function Written(st: Store, adds: seq<Add>, now: int, nowIso: string, instant: string -> int): Digest {
    Numbered(Added(st, adds, now, nowIso, instant), Top(st))
  }

  /** Queueing undo and confirm items: the mark first, then the digest. */
  function AddStep(st: Store, adds: seq<Add>, now: int, nowIso: string, instant: string -> int, w: Writes): Store {
    if adds == [] || !w.mark then st
    else
      var m := Written(st, adds, now, nowIso, instant);
      Store(if w.digest then m else st.items, Max(Top(st), MaxDigestNumber(m)))
  }

  function Without(m: Digest, key: string): Digest {
    Filter((e: Entry) => e.key != key, m)
  }

  /** Clearing a resolved item; the mark is written only when it moves. */
  function ResolveStep(st: Store, key: string, now: int, instant: string -> int, w: Writes): Store {
    var v := View(st);
    var top := MaxDigestNumber(v);
    if Known(v, key).None? || (top > Mark(st) && !w.mark) then st
    else
      Store(if w.digest then Prune(Without(v, key), now, instant) else st.items,
            if top > Mark(st) then top else st.mark)
  }

  datatype Event =
    | AddItems(adds: seq<Add>, now: int, nowIso: string, w: Writes)
    | ResolveItem(key: string, now: int, w: Writes)

  function Step(st: Store, ev: Event, instant: string -> int): Store {
    match ev
    case AddItems(adds, now, nowIso, w) => AddStep(st, adds, now, nowIso, instant, w)
    case ResolveItem(key, now, w) => ResolveStep(st, key, now, instant, w)
  }

  /** The loop over the new items. */
  method RecordAdds(start: Digest, adds: seq<Add>, nowIso: string, first: int) returns (digest: Digest)
    requires DistinctKeys(start)
    ensures DistinctKeys(digest) && digest == AddAll(start, adds, nowIso, first)
  {
    digest := start;
    var nextN := first;
    for i := 0 to |adds|
      invariant DistinctKeys(digest)
      invariant AddAll(digest, adds[i..], nowIso, nextN) == AddAll(start, adds, nowIso, first)
    {
      assert adds[i..][0] == adds[i] && adds[i..][1..] == adds[i + 1..];
      var item := NewEntry(digest, adds[i], nowIso, nextN);
      PutKeepsKeys(digest, item);
      if NumberIn(digest, adds[i].key).None? {
        nextN := nextN + 1;
      }
      digest := Put(digest, item);
    }
  }

  method ReadNumbered(st: Store) returns (v: Digest, floor: nat)
    requires DistinctKeys(st.items)
    ensures v == View(st) && floor == Top(st) && DistinctKeys(v)
  {
    v := AssignDigestNumbers(st.items, Mark(st));
    floor := Max(Mark(st), MaxDigestNumber(v));
    ViewClean(st);
  }

  method NumberAdds(v: Digest, floor: nat, adds: seq<Add>, now: int, nowIso: string, instant: string -> int)
    returns (digest: Digest)
    requires DistinctKeys(v)
    ensures digest == AddAll(Prune(v, now, instant), adds, nowIso, floor + 1) && DistinctKeys(digest)
  {
    var live := PruneExpired(v, now, instant);
    digest := RecordAdds(live, adds, nowIso, floor + 1);
  }

  method NumberedAdds(st: Store, adds: seq<Add>, now: int, nowIso: string, instant: string -> int)
    returns (numbered: Digest, floor: nat)
    requires DistinctKeys(st.items)
    ensures numbered == Written(st, adds, now, nowIso, instant) && floor == Top(st)
  {
    var v;
    v, floor := ReadNumbered(st);
    var digest := NumberAdds(v, floor, adds, now, nowIso, instant);
    assert digest == Added(st, adds, now, nowIso, instant);
    numbered := AssignDigestNumbers(digest, floor);
  }

  method AddToDigest(st: Store, adds: seq<Add>, now: int, nowIso: string, instant: string -> int, w: Writes)
    returns (r: Store, stored: bool)
    requires DistinctKeys(st.items)
    ensures r == AddStep(st, adds, now, nowIso, instant, w)
    ensures stored <==> adds == [] || (w.mark && w.digest)
  {
    if |adds| == 0 {
      return st, true;
    }
    var numbered, floor := NumberedAdds(st, adds, now, nowIso, instant);
    if !w.mark {
      return st, false;
    }
    stored := w.digest;
    r := Store(if stored then numbered else st.items, Max(floor, MaxDigestNumber(numbered)));
  }

  method ClearDigestItem(st: Store, key: string, now: int, instant: string -> int, w: Writes)
    returns (r: Store, cleared: bool)
    requires DistinctKeys(st.items)
    ensures r == ResolveStep(st, key, now, instant, w)
    ensures cleared <==> Known(st.items, key).Some? && (MaxDigestNumber(View(st)) > Mark(st) ==> w.mark) && w.digest
  {
    var digest, _ := ReadNumbered(st);
    ViewKnown(st, key);
    if Known(digest, key).None? {
      return st, false;
    }
    var top := MaxDigestNumber(digest);
    r := st;
    if top > Mark(st) {
      if !w.mark {
        return st, false;
      }
      r := Store(st.items, top);
    }
    if w.digest {
      FilterKeys((e: Entry) => e.key != key, digest);
      var rest := PruneExpired(Without(digest, key), now, instant);
      r := r.(items := rest);
    }
    cleared := w.digest;
  }

  // ---------------------------------------------------------------------------------------
  // Numbers by key
  // ---------------------------------------------------------------------------------------

  lemma KnownIs(m: Digest, e: Entry)
    requires DistinctKeys(m) && e in m
    ensures Known(m, e.key) == Some(e) && NumberIn(m, e.key) == e.n
  {
    var i :| 0 <= i < |m| && m[i] == e;
    PositionIs(m, i);
  }

  /** No number is held under two keys. */
  ghost predicate Owned(m: Digest) {
    forall a, b :: NumberIn(m, a).Some? && NumberIn(m, a) == NumberIn(m, b) ==> a == b
  }

  lemma CleanIsOwned(m: Digest)
    requires Clean(m)
    ensures Owned(m)
    ensures forall k :: Known(m, k).Some? ==> IsNumber(NumberIn(m, k))
  {
    forall a, b | NumberIn(m, a).Some? && NumberIn(m, a) == NumberIn(m, b) ensures a == b {
      assert m[Position(m, a)].n == m[Position(m, b)].n;
    }
  }

  lemma OwnedIsClean(m: Digest)
    requires DistinctKeys(m) && AllNumbered(m) && Owned(m)
    ensures Clean(m)
  {
    forall i, j | 0 <= i < j < |m| ensures m[i].n != m[j].n {
      PositionIs(m, i);
      PositionIs(m, j);
      assert NumberIn(m, m[i].key) == m[i].n && NumberIn(m, m[j].key) == m[j].n;
    }
  }

  lemma PutKeepsKeys(m: Digest, e: Entry)
    requires DistinctKeys(m)
    ensures DistinctKeys(Put(m, e))
  {}

  lemma PutNumbers(m: Digest, e: Entry, k: string)
    requires DistinctKeys(m)
    ensures NumberIn(Put(m, e), k) == if k == e.key then e.n else NumberIn(m, k)
  {
    var r, p := Put(m, e), Position(m, e.key);
    PutKeepsKeys(m, e);
    if k == e.key {
      assert r[p] == e;
      PositionIs(r, p);
    } else if Position(m, k) < |m| {
      assert r[Position(m, k)] == m[Position(m, k)];
      PositionIs(r, Position(m, k));
    } else {
      assert forall i :: 0 <= i < |r| ==> r[i].key == e.key || (i < |m| && r[i] == m[i]);
    }
  }

  lemma PutNumbered(m: Digest, e: Entry)
    requires AllNumbered(m) && IsNumber(e.n)
    ensures AllNumbered(Put(m, e))
  {}

  lemma FilterNumbers(p: Entry -> bool, m: Digest, k: string)
    requires DistinctKeys(m)
    ensures DistinctKeys(Filter(p, m))
    ensures Known(Filter(p, m), k) == if Known(m, k).Some? && p(Known(m, k).value) then Known(m, k) else None
  {
    FilterKeys(p, m);
    var r := Filter(p, m);
    if Known(m, k).Some? && p(Known(m, k).value) {
      KnownIs(r, Known(m, k).value);
    } else if Known(r, k).Some? {
      var e := Known(r, k).value;
      assert e in r && e in m;
      KnownIs(m, e);
    }
  }

  lemma FilterClean(p: Entry -> bool, m: Digest)
    requires Clean(m)
    ensures Clean(Filter(p, m))
  {
    FilterKeys(p, m);
    var r := Filter(p, m);
    forall i | 0 <= i < |r| ensures IsNumber(r[i].n) {
      assert r[i] in r;
      var j :| 0 <= j < |m| && m[j] == r[i];
    }
    CleanIsOwned(m);
    forall a, b | NumberIn(r, a).Some? && NumberIn(r, a) == NumberIn(r, b) ensures a == b {
      FilterNumbers(p, m, a);
      FilterNumbers(p, m, b);
    }
    OwnedIsClean(r);
  }

  lemma PruneKeeps(m: Digest, now: int, instant: string -> int)
    requires Clean(m)
    ensures Clean(Prune(m, now, instant))
  {
    FilterClean((e: Entry) => !Expired(e, now, instant), m);
  }

  lemma WithoutKeeps(m: Digest, key: string)
    requires Clean(m)
    ensures Clean(Without(m, key))
  {
    FilterClean((e: Entry) => e.key != key, m);
  }

  /** Pruning drops exactly the expired entries. */
  lemma PruneExactly(m: Digest, now: int, instant: string -> int, k: string)
    requires DistinctKeys(m)
    ensures Known(Prune(m, now, instant), k)
         == if Known(m, k).Some? && !Expired(Known(m, k).value, now, instant) then Known(m, k) else None
  {
    FilterNumbers((e: Entry) => !Expired(e, now, instant), m, k);
  }

  lemma WithoutExactly(m: Digest, key: string, k: string)
    requires DistinctKeys(m)
    ensures Known(Without(m, key), k) == if k == key then None else Known(m, k)
  {
    FilterNumbers((e: Entry) => e.key != key, m, k);
  }

  predicate Below(m: Digest, next: int) {
    forall i :: 0 <= i < |m| && m[i].n.Some? ==> m[i].n.value < next
  }

  lemma AddOne(m: Digest, a: Add, nowIso: string, next: int)
    requires Clean(m) && Below(m, next) && next > 0
    ensures var e := NewEntry(m, a, nowIso, next);
            var next' := if NumberIn(m, a.key).Some? then next else next + 1;
            && Clean(Put(m, e)) && Below(Put(m, e), next')
            && e.n == (if NumberIn(m, a.key).Some? then NumberIn(m, a.key) else Some(next))
  {
    var e := NewEntry(m, a, nowIso, next);
    var r := Put(m, e);
    CleanIsOwned(m);
    PutKeepsKeys(m, e);
    PutNumbered(m, e);
    forall x, y | NumberIn(r, x).Some? && NumberIn(r, x) == NumberIn(r, y) ensures x == y {
      PutNumbers(m, e, x);
      PutNumbers(m, e, y);
    }
    OwnedIsClean(r);
  }

  lemma {:induction false} AddAllKeeps(m: Digest, adds: seq<Add>, nowIso: string, next: int, k: string)
    requires Clean(m) && Below(m, next) && next > 0
    ensures Clean(AddAll(m, adds, nowIso, next))
    ensures NumberIn(m, k).Some? ==> NumberIn(AddAll(m, adds, nowIso, next), k) == NumberIn(m, k)
    ensures NumberIn(m, k).None? && NumberIn(AddAll(m, adds, nowIso, next), k).Some? ==>
              NumberIn(AddAll(m, adds, nowIso, next), k).value >= next
    decreases |adds|
  {
    if adds != [] {
      var e := NewEntry(m, adds[0], nowIso, next);
      AddOne(m, adds[0], nowIso, next);
      PutNumbers(m, e, k);
      AddAllKeeps(Put(m, e), adds[1..], nowIso, if NumberIn(m, adds[0].key).Some? then next else next + 1, k);
    }
  }

  // ---------------------------------------------------------------------------------------
  // One step
  // ---------------------------------------------------------------------------------------

  lemma ViewClean(st: Store)
    requires DistinctKeys(st.items)
    ensures Clean(View(st))
  {
    NumberedIsClean(st.items, Mark(st));
  }

  lemma ViewKnown(st: Store, k: string)
    requires DistinctKeys(st.items)
    ensures Known(View(st), k).Some? <==> Known(st.items, k).Some?
    ensures Known(st.items, k).Some? ==>
              Known(View(st), k).value == Known(st.items, k).value.(n := NumberIn(View(st), k))
  {
    NumberedIsClean(st.items, Mark(st));
    var v, p := View(st), Position(st.items, k);
    assert forall i :: 0 <= i < |v| ==> v[i].key == st.items[i].key;
    if p < |v| {
      PositionIs(v, p);
    }
  }

  lemma WrittenKeeps(st: Store, adds: seq<Add>, now: int, nowIso: string, instant: string -> int, k: string)
    requires DistinctKeys(st.items)
    ensures var m := Written(st, adds, now, nowIso, instant);
            && Clean(m) && m == Added(st, adds, now, nowIso, instant)
            && (NumberIn(m, k).Some? ==> NumberIn(m, k) == NumberIn(View(st), k) || NumberIn(m, k).value > Top(st))
            && (Known(View(st), k).Some? ==>
                  if !Expired(Known(View(st), k).value, now, instant) then NumberIn(m, k) == NumberIn(View(st), k)
                  else NumberIn(m, k).Some? ==> NumberIn(m, k).value > Top(st))
  {
    ViewClean(st);
    CleanIsOwned(View(st));
    var pruned := Prune(View(st), now, instant);
    PruneKeeps(View(st), now, instant);
    PruneExactly(View(st), now, instant, k);
    assert Below(pruned, Top(st) + 1) by {
      forall i | 0 <= i < |pruned| ensures pruned[i].n.value <= Top(st) {
        assert pruned[i] in pruned;
        var j :| 0 <= j < |View(st)| && View(st)[j] == pruned[i];
      }
    }
    AddAllKeeps(pruned, adds, nowIso, Top(st) + 1, k);
    CleanIsFixed(AddAll(pruned, adds, nowIso, Top(st) + 1), Top(st));
  }

  /** What one event can do: nothing, move the mark alone, or write a clean digest. */
  datatype Effect = Nothing | MarkOnly | Rewritten

  function EffectOf(st: Store, ev: Event): Effect {
    match ev
    case AddItems(adds, _, _, w) =>
      if adds == [] || !w.mark then Nothing else if w.digest then Rewritten else MarkOnly
    case ResolveItem(key, _, w) =>
      var top := MaxDigestNumber(View(st));
      if Known(View(st), key).None? || (top > Mark(st) && !w.mark) then Nothing
      else if w.digest then Rewritten
      else if top > Mark(st) then MarkOnly
      else Nothing
  }

  /** The item under `k` is on the digest and this event neither resolves nor ages it out. */
  predicate Stays(st: Store, ev: Event, instant: string -> int, k: string) {
    && Known(st.items, k).Some?
    && (EffectOf(st, ev) == Rewritten ==>
          !Expired(Known(st.items, k).value, ev.now, instant) && (ev.ResolveItem? ==> k != ev.key))
  }

  lemma AddRewrites(st: Store, ev: Event, instant: string -> int, k: string)
    requires DistinctKeys(st.items) && EffectOf(st, ev) == Rewritten && ev.AddItems?
    ensures RewriteKeeps(st, ev, instant, k)
  {
    var st' := Step(st, ev, instant);
    ViewKnown(st, k);
    WrittenKeeps(st, ev.adds, ev.now, ev.nowIso, instant, k);
    CleanIsFixed(st'.items, Mark(st'));
  }

  lemma ClearedKeeps(v: Digest, key: string, now: int, instant: string -> int, k: string)
    requires Clean(v)
    ensures var m := Prune(Without(v, key), now, instant);
            && Clean(m)
            && Known(m, k) == if k != key && Known(v, k).Some? && !Expired(Known(v, k).value, now, instant)
               then Known(v, k) else None
  {
    WithoutKeeps(v, key);
    PruneKeeps(Without(v, key), now, instant);
    WithoutExactly(v, key, k);
    PruneExactly(Without(v, key), now, instant, k);
  }

  lemma ResolveRewrites(st: Store, ev: Event, instant: string -> int, k: string)
    requires DistinctKeys(st.items) && EffectOf(st, ev) == Rewritten && ev.ResolveItem?
    ensures RewriteKeeps(st, ev, instant, k)
  {
    var st' := Step(st, ev, instant);
    ViewKnown(st, k);
    ViewKnown(st, ev.key);
    ViewClean(st);
    ClearedKeeps(View(st), ev.key, ev.now, instant, k);
    CleanIsFixed(st'.items, Mark(st'));
  }

  /** What a digest write leaves of the item under `k`. */
  predicate RewriteKeeps(st: Store, ev: Event, instant: string -> int, k: string) {
    var st' := Step(st, ev, instant);
    && Clean(st'.items) && View(st') == st'.items && (st'.items != [] ==> Mark(st') >= Top(st))
    && (NumberIn(View(st'), k).Some? ==>
          NumberIn(View(st'), k) == NumberIn(View(st), k) || NumberIn(View(st'), k).value > Top(st))
    && (Stays(st, ev, instant, k) ==> NumberIn(View(st'), k) == NumberIn(View(st), k))
    && (Known(st.items, k).Some? && !Stays(st, ev, instant, k) && NumberIn(View(st'), k).Some? ==>
          NumberIn(View(st'), k).value > Top(st))
  }

  lemma RewrittenKeeps(st: Store, ev: Event, instant: string -> int, k: string)
    requires DistinctKeys(st.items) && EffectOf(st, ev) == Rewritten
    ensures RewriteKeeps(st, ev, instant, k)
  {
    match ev
    case AddItems(_, _, _, _) => AddRewrites(st, ev, instant, k);
    case ResolveItem(_, _, _) => ResolveRewrites(st, ev, instant, k);
  }

  lemma MarkMoves(st: Store, ev: Event, instant: string -> int)
    requires EffectOf(st, ev) != Rewritten
    ensures Step(st, ev, instant).items == st.items
    ensures EffectOf(st, ev) == Nothing ==> Step(st, ev, instant) == st
    ensures EffectOf(st, ev) == MarkOnly && st.items != [] ==> Mark(Step(st, ev, instant)) >= Top(st)
  {}

  /** Raising the mark past every shown number renumbers exactly the items that keep no stored number. */
  lemma HigherMark(st: Store, mark: nat, k: string)
    requires DistinctKeys(st.items) && st.items != [] && mark >= Top(st)
    ensures var st' := Store(st.items, mark);
            Known(st.items, k).Some? ==>
              if KeepsNumber(st.items, Known(st.items, k).value) then NumberIn(View(st'), k) == NumberIn(View(st), k)
              else NumberIn(View(st'), k).Some? && NumberIn(View(st'), k).value > Top(st)
  {
    var st' := Store(st.items, mark);
    var p := Position(st.items, k);
    if p < |st.items| {
      KeptExactly(st.items, Mark(st), p);
      KeptExactly(st.items, mark, p);
      ViewKnown(st, k);
      ViewKnown(st', k);
      ViewAt(st, k);
      ViewAt(st', k);
    }
  }

  lemma ViewAt(st: Store, k: string)
    requires DistinctKeys(st.items) && Known(st.items, k).Some?
    ensures NumberIn(View(st), k) == View(st)[Position(st.items, k)].n && IsNumber(NumberIn(View(st), k))
    ensures NumberIn(View(st), k).value <= Top(st)
  {
    ViewClean(st);
    var p := Position(st.items, k);
    NumberedIsClean(st.items, Mark(st));
    assert View(st)[p].key == k;
    PositionIs(View(st), p);
  }

  /**
   When a number moves: an item that stays on the digest changes its number exactly when the event
   stored the mark but not the digest and the item had no stored number to keep.
   */
  lemma NumberMovesExactly(st: Store, ev: Event, instant: string -> int, k: string)
    requires DistinctKeys(st.items) && Stays(st, ev, instant, k)
    ensures NumberIn(View(Step(st, ev, instant)), k) != NumberIn(View(st), k)
       <==> EffectOf(st, ev) == MarkOnly && !KeepsNumber(st.items, Known(st.items, k).value)
  {
    if EffectOf(st, ev) == Rewritten {
      RewrittenKeeps(st, ev, instant, k);
    } else {
      MarkMoves(st, ev, instant);
      if EffectOf(st, ev) == MarkOnly {
        var st' := Step(st, ev, instant);
        assert st' == Store(st.items, st'.mark);
        HigherMark(st, st'.mark, k);
        ViewAt(st, k);
      }
    }
  }

  lemma StepKeepsKeys(st: Store, ev: Event, instant: string -> int)
    requires DistinctKeys(st.items)
    ensures DistinctKeys(Step(st, ev, instant).items)
    ensures Clean(st.items) ==> Clean(Step(st, ev, instant).items)
  {
    if EffectOf(st, ev) == Rewritten {
      RewrittenKeeps(st, ev, instant, "");
    } else {
      MarkMoves(st, ev, instant);
    }
  }

  /** Numbers shown after a step: shown under the same key before, or above everything issued so far. */
  lemma NewNumbersAreAbove(st: Store, ev: Event, instant: string -> int, k: string)
    requires DistinctKeys(st.items) && st.items != [] && Step(st, ev, instant).items != []
    ensures var st' := Step(st, ev, instant);
            && Top(st') >= Top(st)
            && (NumberIn(View(st'), k).Some? ==>
                  NumberIn(View(st'), k) == NumberIn(View(st), k) || NumberIn(View(st'), k).value > Top(st))
  {
    var st' := Step(st, ev, instant);
    if EffectOf(st, ev) == Rewritten {
      RewrittenKeeps(st, ev, instant, k);
    } else {
      MarkMoves(st, ev, instant);
      if EffectOf(st, ev) == MarkOnly {
        assert st' == Store(st.items, st'.mark);
        HigherMark(st, st'.mark, k);
        ViewKnown(st', k);
        ViewKnown(st, k);
      }
    }
  }

  // ---------------------------------------------------------------------------------------
  // Whole runs
  // ---------------------------------------------------------------------------------------

  function After(st: Store, events: seq<Event>, instant: string -> int): Store
    decreases |events|
  {
    if events == [] then st else After(Step(st, events[0], instant), events[1..], instant)
  }

  /** The digest does not empty along the run. */
  predicate NeverEmpty(st: Store, events: seq<Event>, instant: string -> int)
    decreases |events|
  {
    st.items != [] && (events == [] || NeverEmpty(Step(st, events[0], instant), events[1..], instant))
  }

  /** The item under `k` stays on the digest along the run. */
  predicate StaysThroughout(st: Store, events: seq<Event>, instant: string -> int, k: string)
    decreases |events|
  {
    events == [] || (Stays(st, events[0], instant, k)
                     && StaysThroughout(Step(st, events[0], instant), events[1..], instant, k))
  }

  /** `n` has been handed out, and only ever names the item `k`. */
  ghost predicate OnlyNames(st: Store, n: int, k: string) {
    n <= Top(st) && forall x :: NumberIn(View(st), x) == Some(n) ==> x == k
  }

  /** `n` has been handed out and names nothing any more. */
  ghost predicate Retired(st: Store, n: int) {
    n <= Top(st) && forall x :: NumberIn(View(st), x) != Some(n)
  }

  /** A resolved or aged-out item's number names nothing until the digest empties. */
  lemma {:induction false} RetiredForGood(st: Store, events: seq<Event>, instant: string -> int, n: int)
    requires DistinctKeys(st.items) && NeverEmpty(st, events, instant) && Retired(st, n)
    ensures Retired(After(st, events, instant), n)
    decreases |events|
  {
    if events != [] {
      var st' := Step(st, events[0], instant);
      StepKeepsKeys(st, events[0], instant);
      NewNumbersAreAbove(st, events[0], instant, "");
      forall x ensures NumberIn(View(st'), x) != Some(n) {
        NewNumbersAreAbove(st, events[0], instant, x);
      }
      RetiredForGood(st', events[1..], instant, n);
    }
  }

  /** A shown number never comes to name another item until the digest empties: a stale reply cannot reach one. */
  lemma {:induction false} NeverRenamed(st: Store, events: seq<Event>, instant: string -> int, n: int, k: string)
    requires DistinctKeys(st.items) && NeverEmpty(st, events, instant) && OnlyNames(st, n, k)
    ensures OnlyNames(After(st, events, instant), n, k)
    decreases |events|
  {
    if events != [] {
      var st' := Step(st, events[0], instant);
      StepKeepsKeys(st, events[0], instant);
      NewNumbersAreAbove(st, events[0], instant, "");
      forall x | NumberIn(View(st'), x) == Some(n) ensures x == k {
        NewNumbersAreAbove(st, events[0], instant, x);
      }
      NeverRenamed(st', events[1..], instant, n, k);
    }
  }

  lemma ShownNamesOne(st: Store, n: int, k: string)
    requires DistinctKeys(st.items) && NumberIn(View(st), k) == Some(n)
    ensures OnlyNames(st, n, k)
  {
    ViewClean(st);
    CleanIsOwned(View(st));
    ViewKnown(st, k);
    ViewAt(st, k);
  }

  /**
   A digest write that resolves an item or ages it out retires its number, even if the same task is
   queued again in that write.
   */
  lemma LeavingRetires(st: Store, ev: Event, instant: string -> int, k: string, n: int)
    requires DistinctKeys(st.items) && NumberIn(View(st), k) == Some(n)
    requires EffectOf(st, ev) == Rewritten && !Stays(st, ev, instant, k) && Step(st, ev, instant).items != []
    ensures Retired(Step(st, ev, instant), n)
  {
    var st' := Step(st, ev, instant);
    ViewKnown(st, k);
    ShownNamesOne(st, n, k);
    NewNumbersAreAbove(st, ev, instant, "");
    RewrittenKeeps(st, ev, instant, k);
    forall x ensures NumberIn(View(st'), x) != Some(n) {
      NewNumbersAreAbove(st, ev, instant, x);
    }
  }

  /** Resolving an item for good retires its number. */
  lemma ResolvedIsRetired(st: Store, key: string, n: int, now: int, instant: string -> int, w: Writes)
    requires DistinctKeys(st.items) && NumberIn(View(st), key) == Some(n)
    requires EffectOf(st, ResolveItem(key, now, w)) == Rewritten && ResolveStep(st, key, now, instant, w).items != []
    ensures Retired(ResolveStep(st, key, now, instant, w), n)
  {
    LeavingRetires(st, ResolveItem(key, now, w), instant, key, n);
  }

  /** An item that has aged out loses its number for good at the next digest write of either kind. */
  lemma AgedOutIsRetired(st: Store, ev: Event, instant: string -> int, k: string, n: int)
    requires DistinctKeys(st.items) && NumberIn(View(st), k) == Some(n)
    requires Known(st.items, k).Some? && Expired(Known(st.items, k).value, ev.now, instant)
    requires EffectOf(st, ev) == Rewritten && Step(st, ev, instant).items != []
    ensures Retired(Step(st, ev, instant), n)
  {
    LeavingRetires(st, ev, instant, k, n);
  }

  /** Once every item carries its number, a live item's number never changes, whichever writes fail. */
  lemma {:induction false} LiveNumberIsStable(st: Store, events: seq<Event>, instant: string -> int, k: string)
    requires Clean(st.items) && StaysThroughout(st, events, instant, k)
    ensures NumberIn(View(After(st, events, instant)), k) == NumberIn(View(st), k)
    decreases |events|
  {
    if events != [] {
      StepKeepsKeys(st, events[0], instant);
      NumberMovesExactly(st, events[0], instant, k);
      var e := Known(st.items, k).value;
      assert KeepsNumber(st.items, e) by {
        KeptWhenClean(st.items, e);
      }
      LiveNumberIsStable(Step(st, events[0], instant), events[1..], instant, k);
    }
  }

  /** An unnumbered legacy item is shown as 1; a stored mark and a failed digest write move it. */
  lemma ShownNumberCanMove(e: Entry, adds: seq<Add>, now: int, nowIso: string, instant: string -> int)
    requires e.n.None? && adds != []
    ensures var st := Store([e], 0);
            && NumberIn(View(st), e.key) == Some(1)
            && NumberIn(View(AddStep(st, adds, now, nowIso, instant, Writes(true, false))), e.key) != Some(1)
  {
    var st := Store([e], 0);
    var failed := AddItems(adds, now, nowIso, Writes(true, false));
    LoneLegacy(e);
    NumberMovesExactly(st, failed, instant, e.key);
  }

  lemma LoneLegacy(e: Entry)
    requires e.n.None?
    ensures NumberIn(View(Store([e], 0)), e.key) == Some(1)
  {
    NumberedAt([e], 0, 0);
    ViewAt(Store([e], 0), e.key);
  }
}
