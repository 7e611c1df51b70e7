/** Walking the audit log page by page and checking its hash chain. */
module AuditChain {
  import opened Common
  import opened Sorting

  /** A stored row; `fields` is the canonical text of what is hashed. */
  datatype Row = Row(seqNo: int, fields: string, entryHash: Option<string>)

  type Hash = (string, string) -> string

  datatype Verdict =
    | Intact(checked: nat, skipped: nat, head: string)
    | Broken(checked: nat, seqNo: int, expected: string)

  /** The stored hash; a missing one and an empty one act alike. */
  function Stored(row: Row): string {
    if row.entryHash.None? then "" else row.entryHash.value
  }

  predicate Unhashed(row: Row) {
    Stored(row) == ""
  }

  // ---------------------------------------------------------------------------------------
  // The query
  // ---------------------------------------------------------------------------------------

  predicate SeqLeq(a: Row, b: Row) {
    a.seqNo <= b.seqNo
  }

  predicate DistinctPositive(table: seq<Row>) {
    && (forall i :: 0 <= i < |table| ==> table[i].seqNo > 0)
    && (forall i, j :: 0 <= i < j < |table| ==> table[i].seqNo != table[j].seqNo)
  }

  function Past(last: int): Row -> bool {
    (r: Row) => r.seqNo > last
  }

  /** `WHERE seq > last ORDER BY seq LIMIT limit`. */
  function Query(table: seq<Row>, last: int, limit: nat): seq<Row> {
    var rows := Sort(SeqLeq, Filter(Past(last), table));
    rows[..Min(limit, |rows|)]
  }

  /** The whole log, in sequence order. */
  function Log(table: seq<Row>): seq<Row> {
    Sort(SeqLeq, table)
  }

  // ---------------------------------------------------------------------------------------
  // One pass
  // ---------------------------------------------------------------------------------------

  function Pass(hash: Hash, rows: seq<Row>, previous: string, checked: nat, skipped: nat): Verdict
    decreases |rows|
  {
    if rows == [] then Intact(checked, skipped, previous)
    else if Unhashed(rows[0]) then Pass(hash, rows[1..], previous, checked, skipped + 1)
    else
      var expected := hash(rows[0].fields, previous);
      if expected != Stored(rows[0]) then Broken(checked + 1, rows[0].seqNo, expected)
      else Pass(hash, rows[1..], Stored(rows[0]), checked + 1, skipped)
  }

  lemma {:induction false} PassAppend(hash: Hash, a: seq<Row>, b: seq<Row>, previous: string, checked: nat,
                                      skipped: nat)
    ensures Pass(hash, a + b, previous, checked, skipped)
         == match Pass(hash, a, previous, checked, skipped)
            case Broken(c, n, e) => Broken(c, n, e)
            case Intact(c, k, head) => Pass(hash, b, head, c, k)
    decreases |a|
  {
    if a == [] {
      assert a + b == b;
    } else {
      assert (a + b)[0] == a[0] && (a + b)[1..] == a[1..] + b;
      if Unhashed(a[0]) {
        PassAppend(hash, a[1..], b, previous, checked, skipped + 1);
      } else if hash(a[0].fields, previous) == Stored(a[0]) {
        PassAppend(hash, a[1..], b, Stored(a[0]), checked + 1, skipped);
      }
    }
  }

  // ---------------------------------------------------------------------------------------
  // Pages of the log
  // ---------------------------------------------------------------------------------------

  lemma SeqPreorder()
    ensures TotalPreorder(SeqLeq)
  {}

  lemma {:induction false} FilterAll<T>(p: T -> bool, xs: seq<T>)
    requires forall i :: 0 <= i < |xs| ==> p(xs[i])
    ensures Filter(p, xs) == xs
  {
    if xs != [] {
      assert forall i :: 0 <= i < |xs[1..]| ==> xs[1..][i] == xs[i + 1];
      FilterAll(p, xs[1..]);
    }
  }

  lemma LogOrdered(table: seq<Row>)
    requires DistinctPositive(table)
    ensures |Log(table)| == |table| && multiset(Log(table)) == multiset(table)
    ensures Increasing(Log(table))
  {
    var log := Log(table);
    SeqPreorder();
    SortSorts(SeqLeq, table);
    var key := (r: Row) => r.seqNo;
    assert DistinctBy(key, table);
    SortDistinct(SeqLeq, key, table);
    forall i, j | 0 <= i < j < |table| ensures log[i].seqNo < log[j].seqNo {
      assert SeqLeq(log[i], log[j]) && key(log[i]) != key(log[j]);
    }
    SameElements(log, table);
    forall i | 0 <= i < |table| ensures log[i].seqNo > 0 {
      assert log[i] in table;
    }
  }

  /** The sequence number the walk stands at after `i` rows. */
  function Cursor(log: seq<Row>, i: nat): int
    requires i <= |log|
  {
    if i == 0 then 0 else log[i - 1].seqNo
  }

  predicate Increasing(log: seq<Row>) {
    && (forall a, b :: 0 <= a < b < |log| ==> log[a].seqNo < log[b].seqNo)
    && (forall a :: 0 <= a < |log| ==> log[a].seqNo > 0)
  }

  /** Everything before row `i` lies at or before the cursor, everything from it on lies past it. */
  lemma CursorSplits(log: seq<Row>, i: nat)
    requires i <= |log| && Increasing(log)
    ensures forall k :: 0 <= k < |log[..i]| ==> log[..i][k].seqNo <= Cursor(log, i)
    ensures forall k :: 0 <= k < |log[i..]| ==> log[i..][k].seqNo > Cursor(log, i)
  {
    forall k | 0 <= k < |log[..i]| ensures log[..i][k].seqNo <= Cursor(log, i) {
      assert log[..i][k] == log[k];
      assert k < i - 1 ==> log[k].seqNo < log[i - 1].seqNo;
    }
    forall k | 0 <= k < |log[i..]| ensures log[i..][k].seqNo > Cursor(log, i) {
      assert log[i..][k] == log[i + k];
    }
  }

  lemma PastSplits(last: int, a: seq<Row>, b: seq<Row>)
    requires forall k :: 0 <= k < |a| ==> a[k].seqNo <= last
    requires forall k :: 0 <= k < |b| ==> b[k].seqNo > last
    ensures Filter(Past(last), a + b) == b
  {
    FilterNone(Past(last), a);
    FilterAll(Past(last), b);
    FilterAppend(Past(last), a, b);
  }

  lemma SuffixFiltered(log: seq<Row>, i: nat)
    requires i <= |log| && Increasing(log)
    ensures Filter(Past(Cursor(log, i)), log) == log[i..]
  {
    CursorSplits(log, i);
    PastSplits(Cursor(log, i), log[..i], log[i..]);
    assert log == log[..i] + log[i..];
  }

  lemma FirstPart(log: seq<Row>, i: nat, limit: nat)
    requires i <= |log|
    ensures log[i..][..Min(limit, |log| - i)] == log[i..Min(i + limit, |log|)]
  {}

  /** Asking for what follows row `i` gives the next rows of the log. */
  lemma QueryIsNextPage(table: seq<Row>, i: nat, limit: nat)
    requires DistinctPositive(table) && i <= |table|
    ensures |Log(table)| == |table|
    ensures Query(table, Cursor(Log(table), i), limit) == Log(table)[i..Min(i + limit, |table|)]
  {
    LogOrdered(table);
    SuffixFiltered(Log(table), i);
    SeqPreorder();
    SortFilters(SeqLeq, Past(Cursor(Log(table), i)), table);
    FirstPart(Log(table), i, limit);
  }

  // ---------------------------------------------------------------------------------------
  // The paginated walk
  // ---------------------------------------------------------------------------------------

  lemma PassNext(hash: Hash, rows: seq<Row>, k: nat, previous: string, checked: nat, skipped: nat)
    requires k < |rows|
    ensures Pass(hash, rows[k..], previous, checked, skipped)
         == if Unhashed(rows[k]) then Pass(hash, rows[k + 1..], previous, checked, skipped + 1)
            else if hash(rows[k].fields, previous) != Stored(rows[k])
                then Broken(checked + 1, rows[k].seqNo, hash(rows[k].fields, previous))
            else Pass(hash, rows[k + 1..], Stored(rows[k]), checked + 1, skipped)
  {
    assert rows[k..][0] == rows[k] && rows[k..][1..] == rows[k + 1..];
  }

  /** The loop over one page; a broken link ends the whole run. */
  method VerifyPage(hash: Hash, page: seq<Row>, previous: string, checked0: nat, skipped0: nat) returns (v: Verdict)
    ensures v == Pass(hash, page, previous, checked0, skipped0)
  {
    var previousHash, checked, skippedNull := previous, checked0, skipped0;
    assert page[0..] == page;
    for k := 0 to |page|
      invariant Pass(hash, page[k..], previousHash, checked, skippedNull)
                == Pass(hash, page, previous, checked0, skipped0)
    {
      var row := page[k];
      PassNext(hash, page, k, previousHash, checked, skippedNull);
      if Unhashed(row) {
        skippedNull := skippedNull + 1;
        continue;
      }
      checked := checked + 1;
      var expected := hash(row.fields, previousHash);
      if expected != Stored(row) {
        return Broken(checked, row.seqNo, expected);
      }
      previousHash := Stored(row);
    }
    v := Intact(checked, skippedNull, previousHash);
  }

  /** The first `i` rows have been walked, up to sequence number `last`, with these results. */
  predicate Walked(hash: Hash, log: seq<Row>, genesis: string, i: nat, last: int, results: Verdict) {
    i <= |log| && last == Cursor(log, i) && results.Intact? && Pass(hash, log[..i], genesis, 0, 0) == results
  }

  /** The verdict on the next rows carries on from there. */
  lemma WalkedOn(hash: Hash, log: seq<Row>, genesis: string, i: nat, last: int, results: Verdict, page: seq<Row>)
    requires Walked(hash, log, genesis, i, last, results)
    requires 0 < |page| <= |log| - i && page == log[i..i + |page|]
    ensures var v := Pass(hash, page, results.head, results.checked, results.skipped);
            && (v.Broken? ==> Pass(hash, log, genesis, 0, 0) == v)
            && (v.Intact? ==> Walked(hash, log, genesis, i + |page|, page[|page| - 1].seqNo, v))
  {
    var j := i + |page|;
    assert log[..j] == log[..i] + page;
    PassAppend(hash, log[..i], page, genesis, 0, 0);
    assert log == log[..j] + log[j..];
    PassAppend(hash, log[..j], log[j..], genesis, 0, 0);
  }

  lemma WalkedAll(hash: Hash, log: seq<Row>, genesis: string, last: int, results: Verdict)
    requires Walked(hash, log, genesis, |log|, last, results)
    ensures Pass(hash, log, genesis, 0, 0) == results
  {
    assert log[..|log|] == log;
  }

  lemma NothingWalked(hash: Hash, log: seq<Row>, genesis: string)
    ensures Walked(hash, log, genesis, 0, 0, Intact(0, 0, genesis))
  {}

  /** The query; `i` rows of the log lie at or before `last`. */
  method FetchPage(table: seq<Row>, last: int, limit: nat, ghost i: nat) returns (page: seq<Row>)
    requires DistinctPositive(table) && i <= |table| && |Log(table)| == |table| && last == Cursor(Log(table), i)
    ensures i + |page| <= |table| && page == Log(table)[i..i + |page|]
    ensures |page| < limit ==> i + |page| == |table|
    ensures |page| <= limit
  {
    page := Query(table, last, limit);
    QueryIsNextPage(table, i, limit);
  }

  method Verify(hash: Hash, genesis: string, table: seq<Row>, pageSize: nat) returns (v: Verdict)
    requires DistinctPositive(table) && pageSize > 0
    ensures v == Pass(hash, Log(table), genesis, 0, 0)
  {
    var previousHash := genesis;
    var checked, skippedNull := 0, 0;
    var lastSeq := 0;
    ghost var log := Log(table);
    ghost var i := 0;
    NothingWalked(hash, log, genesis);
    while true
      invariant i <= |table| == |log|
      invariant Walked(hash, log, genesis, i, lastSeq, Intact(checked, skippedNull, previousHash))
      decreases |table| - i
    {
      var page := FetchPage(table, lastSeq, pageSize, i);
      if |page| == 0 {
        break;
      }
      WalkedOn(hash, log, genesis, i, lastSeq, Intact(checked, skippedNull, previousHash), page);
      var r := VerifyPage(hash, page, previousHash, checked, skippedNull);
      if r.Broken? {
        return r;
      }
      checked, skippedNull, previousHash := r.checked, r.skipped, r.head;
      lastSeq := page[|page| - 1].seqNo;
      i := i + |page|;
      if |page| < pageSize {
        break;
      }
    }
    WalkedAll(hash, log, genesis, lastSeq, Intact(checked, skippedNull, previousHash));
    v := Intact(checked, skippedNull, previousHash);
  }

  /** The order rows are stored in does not matter. */
  lemma StorageOrderDoesNotMatter(a: seq<Row>, b: seq<Row>)
    requires DistinctPositive(a) && DistinctPositive(b) && multiset(a) == multiset(b)
    ensures Log(a) == Log(b)
  {
    LogOrdered(a);
    LogOrdered(b);
    SeqPreorder();
    SortSorts(SeqLeq, a);
    SortSorts(SeqLeq, b);
    SortedUnique(SeqLeq, Log(a), Log(b));
  }

  // ---------------------------------------------------------------------------------------
  // What the verdict means
  // ---------------------------------------------------------------------------------------

  function Hashed(rows: seq<Row>): seq<Row> {
    if rows == [] then [] else (if Unhashed(rows[0]) then [] else [rows[0]]) + Hashed(rows[1..])
  }

  predicate AllHashed(rows: seq<Row>) {
    forall k :: 0 <= k < |rows| ==> !Unhashed(rows[k])
  }

  /** The hash the i-th link must continue from. */
  function Previous(rows: seq<Row>, genesis: string, i: nat): string
    requires i <= |rows|
  {
    if i == 0 then genesis else Stored(rows[i - 1])
  }

  predicate Link(hash: Hash, rows: seq<Row>, genesis: string, i: nat)
    requires i < |rows|
  {
    hash(rows[i].fields, Previous(rows, genesis, i)) == Stored(rows[i])
  }

  /** The first `n` links hold. */
  predicate LinkedUpTo(hash: Hash, rows: seq<Row>, genesis: string, n: nat)
    requires n <= |rows|
  {
    forall i :: 0 <= i < n ==> Link(hash, rows, genesis, i)
  }

  /** A verdict without its count of skipped rows. */
  function Essence(v: Verdict): Verdict {
    if v.Intact? then v.(skipped := 0) else v
  }

  lemma {:induction false} HashedOnly(rows: seq<Row>)
    ensures AllHashed(Hashed(rows))
  {
    if rows != [] {
      HashedOnly(rows[1..]);
    }
  }

  /** A row without a hash: none stored, or the empty text. */
  lemma {:induction false} HashedExactly(rows: seq<Row>, row: Row)
    ensures row in Hashed(rows) <==> row in rows && row.entryHash.Some? && row.entryHash.value != ""
  {
    if rows != [] {
      HashedExactly(rows[1..], row);
    }
  }

  /** A pass that ends well has counted every row, as checked or as skipped. */
  lemma {:induction false} EveryRowIsCounted(hash: Hash, rows: seq<Row>, previous: string, checked: nat, skipped: nat)
    ensures var v := Pass(hash, rows, previous, checked, skipped);
            v.Intact? ==> v.checked == checked + |Hashed(rows)| && v.skipped == skipped + |rows| - |Hashed(rows)|
    decreases |rows|
  {
    if rows != [] {
      var row, rest := rows[0], rows[1..];
      if Unhashed(row) {
        EveryRowIsCounted(hash, rest, previous, checked, skipped + 1);
      } else if hash(row.fields, previous) == Stored(row) {
        EveryRowIsCounted(hash, rest, Stored(row), checked + 1, skipped);
      }
    }
  }

  /** Unhashed rows never affect the verdict. */
  lemma {:induction false} UnhashedRowsDoNotMatter(hash: Hash, rows: seq<Row>, previous: string, checked: nat,
                                                   skipped: nat, other: nat)
    ensures Essence(Pass(hash, rows, previous, checked, skipped))
            == Essence(Pass(hash, Hashed(rows), previous, checked, other))
    decreases |rows|
  {
    if rows != [] {
      var row, rest := rows[0], rows[1..];
      if Unhashed(row) {
        assert Hashed(rows) == Hashed(rest);
        UnhashedRowsDoNotMatter(hash, rest, previous, checked, skipped + 1, other);
      } else {
        assert Hashed(rows) == [row] + Hashed(rest) && ([row] + Hashed(rest))[1..] == Hashed(rest);
        if hash(row.fields, previous) == Stored(row) {
          UnhashedRowsDoNotMatter(hash, rest, Stored(row), checked + 1, skipped, other);
        }
      }
    }
  }

  /** A front part keeps its links. */
  lemma LinkedFront(hash: Hash, rows: seq<Row>, genesis: string, n: nat)
    requires n <= |rows|
    ensures AllHashed(rows) ==> AllHashed(rows[..n])
    ensures LinkedUpTo(hash, rows, genesis, n) <==> LinkedUpTo(hash, rows[..n], genesis, n)
    ensures Previous(rows[..n], genesis, n) == Previous(rows, genesis, n)
  {
    forall i | 0 <= i < n ensures Link(hash, rows, genesis, i) <==> Link(hash, rows[..n], genesis, i) {
      assert rows[..n][i] == rows[i];
      assert Previous(rows[..n], genesis, i) == Previous(rows, genesis, i);
    }
  }

  lemma {:induction false} PassIntact(hash: Hash, rows: seq<Row>, genesis: string)
    requires AllHashed(rows) && LinkedUpTo(hash, rows, genesis, |rows|)
    ensures Pass(hash, rows, genesis, 0, 0) == Intact(|rows|, 0, Previous(rows, genesis, |rows|))
    decreases |rows|
  {
    if rows != [] {
      var n := |rows| - 1;
      LinkedFront(hash, rows, genesis, n);
      PassIntact(hash, rows[..n], genesis);
      assert rows == rows[..n] + [rows[n]];
      assert Link(hash, rows, genesis, n);
      PassAppend(hash, rows[..n], [rows[n]], genesis, 0, 0);
      PassOne(hash, rows[n], Previous(rows, genesis, n), n);
    }
  }

  lemma PassOne(hash: Hash, row: Row, previous: string, checked: nat)
    requires !Unhashed(row) && hash(row.fields, previous) == Stored(row)
    ensures Pass(hash, [row], previous, checked, 0) == Intact(checked + 1, 0, Stored(row))
  {
    assert [row][1..] == [];
  }

  lemma PassBroken(hash: Hash, rows: seq<Row>, genesis: string, n: nat)
    requires AllHashed(rows) && n < |rows| && LinkedUpTo(hash, rows, genesis, n) && !Link(hash, rows, genesis, n)
    ensures Pass(hash, rows, genesis, 0, 0)
            == Broken(n + 1, rows[n].seqNo, hash(rows[n].fields, Previous(rows, genesis, n)))
  {
    LinkedFront(hash, rows, genesis, n);
    PassIntact(hash, rows[..n], genesis);
    assert rows == rows[..n] + rows[n..];
    PassAppend(hash, rows[..n], rows[n..], genesis, 0, 0);
    assert rows[n..][0] == rows[n];
  }

  /** The length of the part whose links all hold. */
  function GoodLength(hash: Hash, rows: seq<Row>, genesis: string, from: nat): (n: nat)
    requires from <= |rows| && LinkedUpTo(hash, rows, genesis, from)
    ensures from <= n <= |rows| && LinkedUpTo(hash, rows, genesis, n)
    ensures n < |rows| ==> !Link(hash, rows, genesis, n)
    decreases |rows| - from
  {
    if from == |rows| || !Link(hash, rows, genesis, from) then from else GoodLength(hash, rows, genesis, from + 1)
  }

  /**
   The verdict over a whole log: intact iff every link of the hashed rows holds, else it names the
   first that does not.
   */
  lemma VerdictExactly(hash: Hash, rows: seq<Row>, genesis: string)
    ensures var v, h := Pass(hash, rows, genesis, 0, 0), Hashed(rows);
            var n := GoodLength(hash, h, genesis, 0);
            && (v.Intact? <==> LinkedUpTo(hash, h, genesis, |h|))
            && (v.Intact? ==> v.checked == |h| && v.skipped == |rows| - |h| && v.head == Previous(h, genesis, |h|))
            && (v.Broken? ==> n < |h| && v == Broken(n + 1, h[n].seqNo, hash(h[n].fields, Previous(h, genesis, n))))
  {
    var h := Hashed(rows);
    HashedOnly(rows);
    UnhashedRowsDoNotMatter(hash, rows, genesis, 0, 0, 0);
    EveryRowIsCounted(hash, rows, genesis, 0, 0);
    var n := GoodLength(hash, h, genesis, 0);
    if n == |h| {
      PassIntact(hash, h, genesis);
    } else {
      PassBroken(hash, h, genesis, n);
    }
  }

  // ---------------------------------------------------------------------------------------
  // What an intact chain pins down
  // ---------------------------------------------------------------------------------------

  /** No two inputs share a hash, and none hashes to the genesis value. */
  ghost predicate Strong(hash: Hash, genesis: string) {
    && (forall f, p, g, q :: hash(f, p) == hash(g, q) ==> f == g && p == q)
    && (forall f, p :: hash(f, p) != genesis)
  }

  predicate IntactChain(hash: Hash, rows: seq<Row>, genesis: string) {
    AllHashed(rows) && LinkedUpTo(hash, rows, genesis, |rows|)
  }

  lemma ChainFront(hash: Hash, rows: seq<Row>, genesis: string)
    requires IntactChain(hash, rows, genesis) && rows != []
    ensures var n := |rows| - 1;
            && IntactChain(hash, rows[..n], genesis)
            && Previous(rows, genesis, |rows|) == hash(rows[n].fields, Previous(rows[..n], genesis, n))
  {
    LinkedFront(hash, rows, genesis, |rows| - 1);
    assert Link(hash, rows, genesis, |rows| - 1);
  }

  predicate SameContents(a: seq<Row>, b: seq<Row>) {
    |a| == |b| && forall k :: 0 <= k < |a| ==> a[k].fields == b[k].fields && Stored(a[k]) == Stored(b[k])
  }

  lemma SameSnoc(a: seq<Row>, b: seq<Row>)
    requires a != [] && b != [] && SameContents(a[..|a| - 1], b[..|b| - 1])
    requires a[|a| - 1].fields == b[|b| - 1].fields && Stored(a[|a| - 1]) == Stored(b[|b| - 1])
    ensures SameContents(a, b)
  {
    forall k | 0 <= k < |a| ensures a[k].fields == b[k].fields && Stored(a[k]) == Stored(b[k]) {
      if k < |a| - 1 {
        assert a[k] == a[..|a| - 1][k] && b[k] == b[..|b| - 1][k];
      }
    }
  }

  /** Two intact chains that end in the same hash hold the same rows. */
  lemma {:induction false} HeadPinsChain(hash: Hash, a: seq<Row>, b: seq<Row>, genesis: string)
    requires Strong(hash, genesis) && IntactChain(hash, a, genesis) && IntactChain(hash, b, genesis)
    requires Previous(a, genesis, |a|) == Previous(b, genesis, |b|)
    ensures SameContents(a, b)
    decreases |a|
  {
    if a != [] {
      ChainFront(hash, a, genesis);
    }
    if b != [] {
      ChainFront(hash, b, genesis);
    }
    if a != [] && b != [] {
      HeadPinsChain(hash, a[..|a| - 1], b[..|b| - 1], genesis);
      SameSnoc(a, b);
    }
  }

  /** Two tables that `Verify` finds intact with the same last hash hold the same hashed rows, in the same order. */
  lemma HeadPinsLog(hash: Hash, a: seq<Row>, b: seq<Row>, genesis: string)
    requires Strong(hash, genesis) && DistinctPositive(a) && DistinctPositive(b)
    requires Pass(hash, Log(a), genesis, 0, 0).Intact? && Pass(hash, Log(b), genesis, 0, 0).Intact?
    requires Pass(hash, Log(a), genesis, 0, 0).head == Pass(hash, Log(b), genesis, 0, 0).head
    ensures SameContents(Hashed(Log(a)), Hashed(Log(b)))
    ensures forall row :: row in Hashed(Log(a)) <==> row in a && !Unhashed(row)
    ensures forall row :: row in Hashed(Log(b)) <==> row in b && !Unhashed(row)
  {
    HashedRows(a);
    HashedRows(b);
    VerdictExactly(hash, Log(a), genesis);
    VerdictExactly(hash, Log(b), genesis);
    HeadPinsChain(hash, Hashed(Log(a)), Hashed(Log(b)), genesis);
  }

  /** The rows whose links are checked are the table's hashed rows. */
  lemma HashedRows(table: seq<Row>)
    requires DistinctPositive(table)
    ensures AllHashed(Hashed(Log(table)))
    ensures forall row :: row in Hashed(Log(table)) <==> row in table && !Unhashed(row)
  {
    LogOrdered(table);
    SameElements(Log(table), table);
    HashedOnly(Log(table));
    forall row ensures row in Hashed(Log(table)) <==> row in Log(table) && !Unhashed(row) {
      HashedExactly(Log(table), row);
    }
  }

  /** Changing what a hashed row says, and nothing else, is reported at that row. */
  lemma EditIsCaught(hash: Hash, rows: seq<Row>, genesis: string, n: nat, fields: string)
    requires Strong(hash, genesis) && IntactChain(hash, rows, genesis) && n < |rows| && fields != rows[n].fields
    ensures var v := Pass(hash, rows[n := rows[n].(fields := fields)], genesis, 0, 0);
            v.Broken? && v.checked == n + 1 && v.seqNo == rows[n].seqNo
  {
    var edited := rows[n := rows[n].(fields := fields)];
    assert Link(hash, rows, genesis, n);
    forall i | 0 <= i < n ensures Link(hash, edited, genesis, i) {
      assert Link(hash, rows, genesis, i);
    }
    PassBroken(hash, edited, genesis, n);
  }

  /** Consecutive heads of an intact chain differ. */
  lemma HeadsDiffer(hash: Hash, rows: seq<Row>, genesis: string, n: nat)
    requires Strong(hash, genesis) && IntactChain(hash, rows, genesis) && n < |rows|
    ensures Previous(rows, genesis, n) != Previous(rows, genesis, n + 1)
  {
    LinkedFront(hash, rows, genesis, n);
    LinkedFront(hash, rows, genesis, n + 1);
    if Previous(rows, genesis, n) == Previous(rows, genesis, n + 1) {
      HeadPinsChain(hash, rows[..n], rows[..n + 1], genesis);
    }
  }

  /** Removing a row with others after it is reported at the row that followed; losing the last row is not noticed. */
  lemma RemovalIsCaught(hash: Hash, rows: seq<Row>, genesis: string, n: nat)
    requires Strong(hash, genesis) && IntactChain(hash, rows, genesis) && n < |rows|
    ensures var v := Pass(hash, rows[..n] + rows[n + 1..], genesis, 0, 0);
            if n + 1 < |rows| then v.Broken? && v.checked == n + 1 && v.seqNo == rows[n + 1].seqNo else v.Intact?
  {
    var cut := rows[..n] + rows[n + 1..];
    assert forall k :: 0 <= k < |cut| ==> cut[k] == if k < n then rows[k] else rows[k + 1];
    forall i | 0 <= i < n ensures Link(hash, cut, genesis, i) {
      assert Link(hash, rows, genesis, i);
    }
    if n + 1 < |rows| {
      HeadsDiffer(hash, rows, genesis, n);
      assert Link(hash, rows, genesis, n + 1);
      assert !Link(hash, cut, genesis, n);
      PassBroken(hash, cut, genesis, n);
    } else {
      PassIntact(hash, cut, genesis);
    }
  }
}
