/** Stable numbers for the entries of the completion digest. */
module DigestNumbers {
  import opened Common
  import opened Sorting

  /** One digest entry; `clock` is a usable ISO instant, `n` whatever number was stored. */
  datatype Entry = Entry(key: string, clock: Option<string>, n: Option<int>, note: string)

  /** A JavaScript object in insertion order: no key occurs twice. */
  type Digest = seq<Entry>

  predicate DistinctKeys(m: Digest) {
    forall i, j :: 0 <= i < j < |m| ==> m[i].key != m[j].key
  }

  predicate IsNumber(n: Option<int>) {
    n.Some? && n.value > 0
  }

  // ---------------------------------------------------------------------------------------
  // The order entries are numbered in
  // ---------------------------------------------------------------------------------------

  predicate LexLeq(a: string, b: string) {
    a == [] || (b != [] && (a[0] < b[0] || (a[0] == b[0] && LexLeq(a[1..], b[1..]))))
  }

  /** The comparator is not positive: by clock, entries without one last, then by key. */
  predicate Precedes(a: Entry, b: Entry) {
    if a.clock.Some? && b.clock.Some? && a.clock.value != b.clock.value then LexLeq(a.clock.value, b.clock.value)
    else if a.clock.Some? && b.clock.None? then true
    else if a.clock.None? && b.clock.Some? then false
    else LexLeq(a.key, b.key)
  }

  function InOrder(m: Digest): Digest {
    Sort(Precedes, m)
  }

  // ---------------------------------------------------------------------------------------
  // What each position is given
  // ---------------------------------------------------------------------------------------

  /** A valid number that no earlier entry holds is kept. */
  predicate Keeps(o: Digest, i: nat)
    requires i < |o|
  {
    IsNumber(o[i].n) && forall j :: 0 <= j < i ==> o[j].n != o[i].n
  }

  /** The highest valid number, or `floor`. */
  function Highest(o: Digest, floor: int): (r: int)
    ensures r >= floor
    ensures forall i :: 0 <= i < |o| && IsNumber(o[i].n) ==> o[i].n.value <= r
    ensures r == floor || exists i :: 0 <= i < |o| && IsNumber(o[i].n) && o[i].n.value == r
    decreases |o|
  {
    if o == [] then floor
    else
      var front := o[..|o| - 1];
      var last := o[|o| - 1];
      var h := Highest(front, floor);
      assert forall i :: 0 <= i < |front| ==> front[i] == o[i];
      if IsNumber(last.n) && last.n.value > h then last.n.value else h
  }

  /** Entries before `i` that keep no number. */
  function Fresh(o: Digest, i: nat): (r: nat)
    requires i <= |o|
  {
    if i == 0 then 0 else Fresh(o, i - 1) + (if Keeps(o, i - 1) then 0 else 1)
  }

  function NumberAt(o: Digest, mark: nat, i: nat): int
    requires i < |o|
  {
    if Keeps(o, i) then o[i].n.value else Highest(o, mark) + 1 + Fresh(o, i)
  }

  function Position(o: Digest, key: string): (i: nat)
    ensures i <= |o| && (i < |o| ==> o[i].key == key)
    ensures i == |o| ==> forall j :: 0 <= j < |o| ==> o[j].key != key
  {
    if o == [] || o[0].key == key then 0
    else
      var i := 1 + Position(o[1..], key);
      assert forall j :: 1 <= j < |o| ==> o[j] == o[1..][j - 1];
      i
  }

  function NumberOf(m: Digest, mark: nat, key: string): int {
    var o := InOrder(m);
    if Position(o, key) < |o| then NumberAt(o, mark, Position(o, key)) else 0
  }

  function Numbered(m: Digest, mark: nat): (r: Digest)
    ensures |r| == |m|
  {
    seq(|m|, i requires 0 <= i < |m| => m[i].(n := Some(NumberOf(m, mark, m[i].key))))
  }

  // ---------------------------------------------------------------------------------------
  // The loops
  // ---------------------------------------------------------------------------------------

  function MaxOf(taken: seq<int>, floor: int): int
    decreases |taken|
  {
    if taken == [] then floor else Max(MaxOf(taken[..|taken| - 1], floor), taken[|taken| - 1])
  }

  /** Some entry before `i` holds the valid number `v`. */
  predicate Held(o: Digest, i: nat, v: int)
    requires i <= |o|
  {
    v > 0 && exists j :: 0 <= j < i && o[j].n == Some(v)
  }

  predicate TakenUpTo(o: Digest, i: nat, taken: seq<int>)
    requires i <= |o|
  {
    && (forall v :: v in taken ==> Held(o, i, v))
    && (forall j :: 0 <= j < i && IsNumber(o[j].n) ==> o[j].n.value in taken)
  }

  predicate RecordedUpTo(o: Digest, i: nat, numberOf: map<string, int>)
    requires i <= |o|
  {
    && (forall j :: 0 <= j < i ==> (o[j].key in numberOf <==> Keeps(o, j)))
    && (forall j :: 0 <= j < i && Keeps(o, j) ==> numberOf[o[j].key] == o[j].n.value)
    && (forall j :: i <= j < |o| ==> o[j].key !in numberOf)
  }

  lemma {:induction false} MaxOfPush(taken: seq<int>, v: int, floor: int)
    ensures MaxOf(taken + [v], floor) == Max(MaxOf(taken, floor), v)
  {
    assert (taken + [v])[..|taken|] == taken;
  }

  lemma {:induction false} MaxOfMember(taken: seq<int>, v: int, floor: int)
    requires v in taken
    ensures v <= MaxOf(taken, floor)
    decreases |taken|
  {
    var last := |taken| - 1;
    if v in taken[..last] {
      MaxOfMember(taken[..last], v, floor);
    } else {
      assert taken == taken[..last] + [taken[last]];
    }
  }

  lemma OrderedKeys(m: Digest)
    requires DistinctKeys(m)
    ensures DistinctKeys(InOrder(m)) && multiset(InOrder(m)) == multiset(m)
    ensures forall e :: e in InOrder(m) <==> e in m
  {
    var key := (e: Entry) => e.key;
    assert DistinctBy(key, m);
    SortDistinct(Precedes, key, m);
    var o := InOrder(m);
    forall i, j | 0 <= i < j < |o| ensures o[i].key != o[j].key {
      assert key(o[i]) != key(o[j]);
    }
    SameElements(o, m);
  }

  lemma PositionIs(o: Digest, i: nat)
    requires DistinctKeys(o) && i < |o|
    ensures Position(o, o[i].key) == i
  {}

  lemma FrontHighest(o: Digest, floor: int, i: nat)
    requires i < |o|
    ensures Highest(o[..i + 1], floor)
         == if IsNumber(o[i].n) && o[i].n.value > Highest(o[..i], floor) then o[i].n.value else Highest(o[..i], floor)
  {
    assert o[..i + 1][..i] == o[..i];
  }

  lemma KeepsIff(o: Digest, i: nat, taken: seq<int>)
    requires i < |o| && TakenUpTo(o, i, taken)
    ensures Keeps(o, i) <==> IsNumber(o[i].n) && o[i].n.value !in taken
  {
    if IsNumber(o[i].n) && o[i].n.value in taken {
      assert Held(o, i, o[i].n.value);
    }
  }

  lemma TakenNext(o: Digest, i: nat, taken: seq<int>)
    requires i < |o| && TakenUpTo(o, i, taken)
    ensures TakenUpTo(o, i + 1, if Keeps(o, i) then taken + [o[i].n.value] else taken)
  {
    KeepsIff(o, i, taken);
    forall v | Held(o, i, v) ensures Held(o, i + 1, v) {
      var j :| 0 <= j < i && o[j].n == Some(v);
    }
    if Keeps(o, i) {
      assert Held(o, i + 1, o[i].n.value);
    }
  }

  lemma RecordedNext(o: Digest, i: nat, numberOf: map<string, int>)
    requires DistinctKeys(o) && i < |o| && RecordedUpTo(o, i, numberOf)
    ensures RecordedUpTo(o, i + 1, if Keeps(o, i) then numberOf[o[i].key := o[i].n.value] else numberOf)
  {}

  lemma MaxNext(o: Digest, i: nat, taken: seq<int>, floor: int)
    requires i < |o| && TakenUpTo(o, i, taken) && MaxOf(taken, floor) == Highest(o[..i], floor)
    ensures MaxOf(if Keeps(o, i) then taken + [o[i].n.value] else taken, floor) == Highest(o[..i + 1], floor)
  {
    FrontHighest(o, floor, i);
    KeepsIff(o, i, taken);
    if Keeps(o, i) {
      MaxOfPush(taken, o[i].n.value, floor);
    } else if IsNumber(o[i].n) {
      MaxOfMember(taken, o[i].n.value, floor);
    }
  }

  /** The first loop: stored numbers, the earliest holder of each winning. */
  method KeepNumbers(ordered: Digest, highWater: nat) returns (numberOf: map<string, int>, next: int)
    requires DistinctKeys(ordered)
    ensures next == Highest(ordered, highWater) + 1
    ensures RecordedUpTo(ordered, |ordered|, numberOf)
  {
    numberOf := map[];
    var taken: seq<int> := [];
    for i := 0 to |ordered|
      invariant TakenUpTo(ordered, i, taken) && RecordedUpTo(ordered, i, numberOf)
      invariant MaxOf(taken, highWater) == Highest(ordered[..i], highWater)
    {
      var item := ordered[i];
      KeepsIff(ordered, i, taken);
      TakenNext(ordered, i, taken);
      RecordedNext(ordered, i, numberOf);
      MaxNext(ordered, i, taken, highWater);
      if IsNumber(item.n) && item.n.value !in taken {
        numberOf := numberOf[item.key := item.n.value];
        taken := taken + [item.n.value];
      }
    }
    assert ordered[..|ordered|] == ordered;
    next := MaxOf(taken, highWater) + 1;
  }

  predicate NumberIs(o: Digest, mark: nat, j: nat, numberOf: map<string, int>)
    requires j < |o|
  {
    o[j].key in numberOf && numberOf[o[j].key] == NumberAt(o, mark, j)
  }

  predicate NumbersAre(o: Digest, mark: nat, i: nat, numberOf: map<string, int>)
    requires i <= |o|
  {
    forall j :: 0 <= j < i ==> NumberIs(o, mark, j, numberOf)
  }

  predicate KeptIs(o: Digest, j: nat, numberOf: map<string, int>)
    requires j < |o|
  {
    && (o[j].key in numberOf <==> Keeps(o, j))
    && (Keeps(o, j) ==> numberOf[o[j].key] == o[j].n.value)
  }

  predicate RestKept(o: Digest, i: nat, numberOf: map<string, int>)
    requires i <= |o|
  {
    forall j :: i <= j < |o| ==> KeptIs(o, j, numberOf)
  }

  lemma RecordedRest(o: Digest, numberOf: map<string, int>)
    requires RecordedUpTo(o, |o|, numberOf)
    ensures RestKept(o, 0, numberOf)
  {}

  function Given(o: Digest, mark: nat, i: nat, numberOf: map<string, int>): map<string, int>
    requires i < |o|
  {
    if o[i].key in numberOf then numberOf else numberOf[o[i].key := Highest(o, mark) + 1 + Fresh(o, i)]
  }

  lemma GivenNext(o: Digest, mark: nat, i: nat, numberOf: map<string, int>)
    requires DistinctKeys(o) && i < |o| && NumbersAre(o, mark, i, numberOf) && RestKept(o, i, numberOf)
    ensures NumbersAre(o, mark, i + 1, Given(o, mark, i, numberOf)) && RestKept(o, i + 1, Given(o, mark, i, numberOf))
    ensures Fresh(o, i + 1) == Fresh(o, i) + if o[i].key in numberOf then 0 else 1
  {
    var next := Given(o, mark, i, numberOf);
    assert KeptIs(o, i, numberOf);
    assert NumberIs(o, mark, i, next);
    forall j | 0 <= j < i ensures NumberIs(o, mark, j, next) {
      assert NumberIs(o, mark, j, numberOf);
    }
    forall j | i < j < |o| ensures KeptIs(o, j, next) {
      assert KeptIs(o, j, numberOf);
      assert o[i].key != o[j].key;
    }
  }

  /** The second loop: everyone else, counting up. */
  method NumberRest(ordered: Digest, highWater: nat, kept: map<string, int>, first: int)
    returns (numberOf: map<string, int>)
    requires DistinctKeys(ordered) && RestKept(ordered, 0, kept) && first == Highest(ordered, highWater) + 1
    ensures NumbersAre(ordered, highWater, |ordered|, numberOf)
  {
    numberOf := kept;
    var next := first;
    for i := 0 to |ordered|
      invariant next == first + Fresh(ordered, i)
      invariant NumbersAre(ordered, highWater, i, numberOf) && RestKept(ordered, i, numberOf)
    {
      GivenNext(ordered, highWater, i, numberOf);
      assert Given(ordered, highWater, i, numberOf)
          == if ordered[i].key in numberOf then numberOf else numberOf[ordered[i].key := next];
      if ordered[i].key in numberOf {
        continue;
      }
      numberOf := numberOf[ordered[i].key := next];
      next := next + 1;
    }
  }

  function Relabelled(m: Digest, numberOf: map<string, int>): Digest
    requires forall i :: 0 <= i < |m| ==> m[i].key in numberOf
  {
    seq(|m|, i requires 0 <= i < |m| => m[i].(n := Some(numberOf[m[i].key])))
  }

  /** The map is rebuilt in its own key order. */
  method Rebuild(m: Digest, numberOf: map<string, int>) returns (out: Digest)
    requires forall i :: 0 <= i < |m| ==> m[i].key in numberOf
    ensures out == Relabelled(m, numberOf)
  {
    out := [];
    for i := 0 to |m|
      invariant |out| == i && forall j :: 0 <= j < i ==> out[j] == m[j].(n := Some(numberOf[m[j].key]))
    {
      out := out + [m[i].(n := Some(numberOf[m[i].key]))];
    }
  }

  lemma NumbersByKey(m: Digest, mark: nat, numberOf: map<string, int>)
    requires DistinctKeys(m) && NumbersAre(InOrder(m), mark, |InOrder(m)|, numberOf)
    ensures forall i :: 0 <= i < |m| ==> m[i].key in numberOf
    ensures Relabelled(m, numberOf) == Numbered(m, mark)
  {
    forall i | 0 <= i < |m| ensures m[i].key in numberOf && numberOf[m[i].key] == NumberOf(m, mark, m[i].key) {
      OrderedHas(m, m[i]);
      assert NumberIs(InOrder(m), mark, Position(InOrder(m), m[i].key), numberOf);
    }
  }

  method AssignDigestNumbers(m: Digest, highWater: nat) returns (out: Digest)
    requires DistinctKeys(m)
    ensures out == Numbered(m, highWater)
  {
    var ordered := InOrder(m);
    OrderedKeys(m);
    var kept, first := KeepNumbers(ordered, highWater);
    RecordedRest(ordered, kept);
    var numberOf := NumberRest(ordered, highWater, kept, first);
    NumbersByKey(m, highWater, numberOf);
    out := Rebuild(m, numberOf);
  }

  lemma OrderedHas(m: Digest, e: Entry)
    requires DistinctKeys(m) && e in m
    ensures var p := Position(InOrder(m), e.key); p < |m| && |InOrder(m)| == |m| && InOrder(m)[p] == e
  {
    OrderedKeys(m);
    var o := InOrder(m);
    assert e in o;
    var j :| 0 <= j < |o| && o[j] == e;
    PositionIs(o, j);
  }

  function MaxDigestNumber(m: Digest): (r: int)
    ensures r >= 0
    ensures forall i :: 0 <= i < |m| && m[i].n.Some? ==> m[i].n.value <= r
    ensures r == 0 || exists i :: 0 <= i < |m| && m[i].n == Some(r)
  {
    if m == [] then 0
    else
      var r := MaxDigestNumber(m[1..]);
      assert forall i :: 1 <= i < |m| ==> m[i] == m[1..][i - 1];
      if m[0].n.Some? && m[0].n.value > r then m[0].n.value else r
  }

  // ---------------------------------------------------------------------------------------
  // Ageing
  // ---------------------------------------------------------------------------------------

  const MAX_AGE_MS := 90 * 86_400_000

  /** Strictly older than ninety days; an entry with no usable clock never expires. */
  predicate Expired(e: Entry, now: int, instant: string -> int) {
    e.clock.Some? && now - instant(e.clock.value) > MAX_AGE_MS
  }

  function Prune(m: Digest, now: int, instant: string -> int): Digest {
    Filter((e: Entry) => !Expired(e, now, instant), m)
  }

  predicate ExpiredIds(m: Digest, i: nat, now: int, instant: string -> int, ids: set<string>)
    requires i <= |m|
  {
    && (forall j :: 0 <= j < i && Expired(m[j], now, instant) ==> m[j].key in ids)
    && (forall k :: k in ids ==> exists j :: 0 <= j < i && m[j].key == k && Expired(m[j], now, instant))
  }

  /** The expired ids are collected first and then deleted from a copy. */
  method PruneExpired(m: Digest, now: int, instant: string -> int) returns (out: Digest)
    requires DistinctKeys(m)
    ensures out == Prune(m, now, instant) && DistinctKeys(out)
  {
    var ids: set<string> := {};
    for i := 0 to |m|
      invariant ExpiredIds(m, i, now, instant, ids)
    {
      if Expired(m[i], now, instant) {
        ids := ids + {m[i].key};
      }
    }
    FilterKeys((e: Entry) => !Expired(e, now, instant), m);
    if ids == {} {
      NothingExpired(m, now, instant, ids);
      return m;
    }
    out := Filter((e: Entry) => e.key !in ids, m);
    SameFilter((e: Entry) => e.key !in ids, (e: Entry) => !Expired(e, now, instant), m);
  }

  lemma {:induction false} SameFilter(p: Entry -> bool, q: Entry -> bool, m: Digest)
    requires forall i :: 0 <= i < |m| ==> p(m[i]) == q(m[i])
    ensures Filter(p, m) == Filter(q, m)
  {
    if m != [] {
      assert forall i :: 0 <= i < |m[1..]| ==> m[1..][i] == m[i + 1];
      SameFilter(p, q, m[1..]);
    }
  }

  lemma {:induction false} NothingExpired(m: Digest, now: int, instant: string -> int, ids: set<string>)
    requires ExpiredIds(m, |m|, now, instant, ids) && ids == {}
    ensures Prune(m, now, instant) == m
  {
    if m != [] {
      assert forall i :: 0 <= i < |m[1..]| ==> m[1..][i] == m[i + 1];
      assert !Expired(m[0], now, instant);
      NothingExpired(m[1..], now, instant, ids);
    }
  }

  lemma {:induction false} FilterKeys(p: Entry -> bool, m: Digest)
    requires DistinctKeys(m)
    ensures DistinctKeys(Filter(p, m))
  {
    if m != [] {
      assert forall i :: 0 <= i < |m[1..]| ==> m[1..][i] == m[i + 1];
      FilterKeys(p, m[1..]);
      var rest := Filter(p, m[1..]);
      forall x | x in rest ensures x.key != m[0].key {
        assert x in m[1..];
      }
    }
  }
}
