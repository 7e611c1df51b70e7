/** Which number each digest item gets, said without the numbering's own order, sort or counters. */
module DigestOrder {
  import opened Common
  import opened Sorting
  import opened DigestNumbers
  import opened DigestRuns

  // ---------------------------------------------------------------------------------------
  // The order, character by character
  // ---------------------------------------------------------------------------------------

  /** The first `k` characters agree; then `a` ends, or has the smaller character. */
  predicate PartsAt(a: string, b: string, k: nat) {
    && k <= |a| && k <= |b| && a[..k] == b[..k]
    && (if k == |a| then k < |b| else k < |b| && a[k] < b[k])
  }

  predicate Before(a: string, b: string) {
    exists k: nat :: k <= |a| && PartsAt(a, b, k)
  }

  lemma PartsTail(a: string, b: string, k: nat)
    requires a != [] && b != [] && a[0] == b[0]
    ensures PartsAt(a, b, k + 1) <==> PartsAt(a[1..], b[1..], k)
  {
    if k <= |a[1..]| && k <= |b[1..]| {
      assert a[..k + 1] == [a[0]] + a[1..][..k] && b[..k + 1] == [b[0]] + b[1..][..k];
      assert a[..k + 1][1..] == a[1..][..k] && b[..k + 1][1..] == b[1..][..k];
    }
  }

  lemma BeforeCons(a: string, b: string)
    requires a != [] && b != []
    ensures Before(a, b) <==> a[0] < b[0] || (a[0] == b[0] && Before(a[1..], b[1..]))
  {
    if k: nat :| k <= |a| && PartsAt(a, b, k) {
      if k > 0 {
        assert a[0] == a[..k][0] && b[0] == b[..k][0];
        PartsTail(a, b, k - 1);
      }
    }
    if a[0] < b[0] {
      assert PartsAt(a, b, 0);
    }
    if a[0] == b[0] && Before(a[1..], b[1..]) {
      var k: nat :| k <= |a[1..]| && PartsAt(a[1..], b[1..], k);
      PartsTail(a, b, k);
    }
  }

  lemma {:induction false} LexIsBefore(a: string, b: string)
    ensures LexLeq(a, b) <==> a == b || Before(a, b)
  {
    if a == [] {
      if b != [] {
        assert PartsAt(a, b, 0);
      }
    } else if b != [] {
      LexIsBefore(a[1..], b[1..]);
      BeforeCons(a, b);
      assert a == [a[0]] + a[1..] && b == [b[0]] + b[1..];
    }
  }

  /** The earlier clock first, a clock before none, and the key where that does not decide. */
  predicate ComesFirst(a: Entry, b: Entry) {
    match (a.clock, b.clock)
    case (Some(s), Some(t)) => if s == t then Before(a.key, b.key) else Before(s, t)
    case (Some(_), None) => true
    case (None, Some(_)) => false
    case (None, None) => Before(a.key, b.key)
  }

  lemma PrecedesIs(a: Entry, b: Entry)
    requires a.key != b.key
    ensures Precedes(a, b) <==> ComesFirst(a, b)
  {
    LexIsBefore(a.key, b.key);
    if a.clock.Some? && b.clock.Some? {
      LexIsBefore(a.clock.value, b.clock.value);
    }
  }

  // ---------------------------------------------------------------------------------------
  // The numbers
  // ---------------------------------------------------------------------------------------

  predicate Valid(e: Entry) {
    e.n.Some? && e.n.value >= 1
  }

  /** The stored number is valid, and of those that hold it this entry comes first. */
  predicate KeepsStored(m: Digest, e: Entry) {
    Valid(e) && forall x :: x in m && x.n == e.n && x != e ==> ComesFirst(e, x)
  }

  /** The items to be numbered that come before this one. */
  function Ahead(m: Digest, e: Entry): set<Entry> {
    set x | x in m && !KeepsStored(m, x) && ComesFirst(x, e)
  }

  /** A kept number stays; the others count up from one above `top`. */
  function GivenNumber(m: Digest, top: int, e: Entry): int {
    if KeepsStored(m, e) then e.n.value else top + 1 + |Ahead(m, e)|
  }

  /** The greatest of the mark and the valid stored numbers. */
  predicate IsTop(m: Digest, mark: nat, top: int) {
    && mark <= top && (forall e :: e in m && Valid(e) ==> e.n.value <= top)
    && (top == mark || exists e :: e in m && Valid(e) && e.n.value == top)
  }

  lemma PositionsOrdered(m: Digest, p: nat, q: nat)
    requires DistinctKeys(m) && p < |InOrder(m)| && q < |InOrder(m)| && p != q
    ensures p < q <==> ComesFirst(InOrder(m)[p], InOrder(m)[q])
  {
    var o := InOrder(m);
    OrderedKeys(m);
    PrecedesPreorder();
    SortSorts(Precedes, m);
    PrecedesIs(o[p], o[q]);
    if q < p && Precedes(o[p], o[q]) {
      PrecedesTies(o[p], o[q]);
    }
  }

  lemma KeepsStoredIs(m: Digest, e: Entry)
    requires DistinctKeys(m) && e in m
    ensures KeepsStored(m, e) <==> KeepsNumber(m, e)
  {
    forall x | x in m && x.n == e.n && x != e ensures ComesFirst(e, x) <==> !Precedes(x, e) {
      if x.key == e.key {
        SameKeySameEntry(m, x, e);
      }
      PrecedesIs(e, x);
      PrecedesIs(x, e);
      PrecedesPreorder();
      if Precedes(x, e) && Precedes(e, x) {
        PrecedesTies(x, e);
      }
    }
  }

  /** The first `p` places that keep no number, as a set of entries. */
  function FreshSet(o: Digest, p: nat): set<Entry>
    requires p <= |o|
  {
    set i | 0 <= i < p && !Keeps(o, i) :: o[i]
  }

  lemma FreshSetNext(o: Digest, p: nat)
    requires DistinctKeys(o) && p < |o|
    ensures Keeps(o, p) ==> FreshSet(o, p + 1) == FreshSet(o, p)
    ensures !Keeps(o, p) ==> FreshSet(o, p + 1) == FreshSet(o, p) + {o[p]} && o[p] !in FreshSet(o, p)
  {
    forall x ensures x in FreshSet(o, p + 1) <==> x in FreshSet(o, p) || (!Keeps(o, p) && x == o[p]) {
      if x in FreshSet(o, p + 1) {
        var i :| 0 <= i < p + 1 && !Keeps(o, i) && o[i] == x;
        assert i < p ==> x in FreshSet(o, p);
      }
    }
  }

  lemma {:induction false} FreshCounts(o: Digest, p: nat)
    requires DistinctKeys(o) && p <= |o|
    ensures |FreshSet(o, p)| == Fresh(o, p)
  {
    if p > 0 {
      FreshCounts(o, p - 1);
      FreshSetNext(o, p - 1);
    }
  }

  lemma AheadIsFresh(m: Digest, p: nat)
    requires DistinctKeys(m) && p < |InOrder(m)|
    ensures Ahead(m, InOrder(m)[p]) == FreshSet(InOrder(m), p)
  {
    var o := InOrder(m);
    OrderedKeys(m);
    forall x ensures x in Ahead(m, o[p]) <==> x in FreshSet(o, p) {
      if x in m {
        var i :| 0 <= i < |o| && o[i] == x;
        KeepsExactly(m, i);
        KeepsStoredIs(m, x);
        if i != p {
          PositionsOrdered(m, i, p);
          assert x in Ahead(m, o[p]) ==> i < p && !Keeps(o, i);
          if x in FreshSet(o, p) {
            var j :| 0 <= j < p && !Keeps(o, j) && o[j] == x;
            assert i == j;
          }
        } else {
          NeverFirstOfItself(x);
          assert x !in FreshSet(o, p);
        }
      }
    }
  }

  lemma NeverFirstOfItself(e: Entry)
    ensures !ComesFirst(e, e)
  {}

  lemma TopIs(m: Digest, mark: nat)
    requires DistinctKeys(m)
    ensures IsTop(m, mark, Highest(InOrder(m), mark))
  {
    var o := InOrder(m);
    OrderedKeys(m);
    var top := Highest(o, mark);
    forall e | e in m && Valid(e) ensures e.n.value <= top {
      assert e in o;
    }
    if top != mark {
      var i :| 0 <= i < |o| && IsNumber(o[i].n) && o[i].n.value == top;
      assert o[i] in m;
    }
  }

  lemma TopIsUnique(m: Digest, mark: nat, a: int, b: int)
    requires IsTop(m, mark, a) && IsTop(m, mark, b)
    ensures a == b
  {}

  lemma PlaceExactly(m: Digest, mark: nat, p: nat)
    requires DistinctKeys(m) && p < |InOrder(m)|
    ensures NumberAt(InOrder(m), mark, p) == GivenNumber(m, Highest(InOrder(m), mark), InOrder(m)[p])
  {
    OrderedKeys(m);
    KeepsExactly(m, p);
    KeepsStoredIs(m, InOrder(m)[p]);
    FreshCounts(InOrder(m), p);
    AheadIsFresh(m, p);
  }

  /**
   Main result.  An item keeps its stored number if that is valid and the item comes first of those
   that hold it; the others are numbered upwards, without a gap, from one above the mark and every
   valid stored number: the earlier clock first, those without a clock last, equal clocks by key.
   */
  lemma NumberedExactly(m: Digest, mark: nat, i: nat, top: int)
    requires DistinctKeys(m) && i < |m| && IsTop(m, mark, top)
    ensures Numbered(m, mark)[i].n == Some(GivenNumber(m, top, m[i]))
  {
    NumberedAt(m, mark, i);
    PlaceExactly(m, mark, Position(InOrder(m), m[i].key));
    TopIs(m, mark);
    TopIsUnique(m, mark, top, Highest(InOrder(m), mark));
  }

  /** Of two items that keep no number, the one that comes first is given the smaller number. */
  lemma EarlierIsSmaller(m: Digest, mark: nat, i: nat, j: nat)
    requires DistinctKeys(m) && i < |m| && j < |m|
    requires !KeepsStored(m, m[i]) && !KeepsStored(m, m[j]) && ComesFirst(m[i], m[j])
    ensures Numbered(m, mark)[i].n.value < Numbered(m, mark)[j].n.value
  {
    var o := InOrder(m);
    NumberedAt(m, mark, i);
    NumberedAt(m, mark, j);
    var p, q := Position(o, m[i].key), Position(o, m[j].key);
    KeepsExactly(m, p);
    KeepsExactly(m, q);
    KeepsStoredIs(m, m[i]);
    KeepsStoredIs(m, m[j]);
    NeverFirstOfItself(m[i]);
    PositionsOrdered(m, p, q);
    FreshGrows(o, p, q);
  }
}
