/** Properties of a whole sweep: rulings survive chains of merges, accounting, conservation, dry-run lockstep. */
module DedupSweepTheorems {
  import opened DedupSweep

  ghost predicate DistinctIds(contacts: seq<Contact>) {
    forall i, j :: 0 <= i < j < |contacts| ==> contacts[i].id != contacts[j].id
  }

  ghost predicate Within(pairs: seq<(Contact, Contact)>, contacts: seq<Contact>) {
    forall i :: 0 <= i < |pairs| ==> pairs[i].0 in contacts && pairs[i].1 in contacts && pairs[i].0.id != pairs[i].1.id
  }

  lemma WithinCons(first: (Contact, Contact), pairs: seq<(Contact, Contact)>, contacts: seq<Contact>)
    requires Within(pairs, contacts) && first.0 in contacts && first.1 in contacts && first.0.id != first.1.id
    ensures Within([first] + pairs, contacts)
  {}

  lemma {:induction false} PairsWithin(contacts: seq<Contact>, i: nat, j: nat)
    requires DistinctIds(contacts) && i <= |contacts| && i < j
    ensures Within(PairsFrom(contacts, i, j), contacts)
    decreases |contacts| - i, |contacts| - j
  {
    if i < |contacts| {
      if j >= |contacts| {
        PairsWithin(contacts, i + 1, i + 2);
      } else {
        PairsWithin(contacts, i, j + 1);
        WithinCons((contacts[i], contacts[j]), PairsFrom(contacts, i, j + 1), contacts);
      }
    }
  }

  // ---------------------------------------------------------------------------------------
  // Representatives
  // ---------------------------------------------------------------------------------------

  function Follow(ev: Event, r: Id): Id {
    if ev.Merged? && r == ev.secondary then ev.primary else r
  }

  /** Who `x` has become: the survivor reached by following every merge of the log in order. */
  function Rep(log: seq<Entry>, x: Id): Id {
    if log == [] then x else Follow(log[|log| - 1].event, Rep(log[..|log| - 1], x))
  }

  function Secondaries(log: seq<Entry>): set<Id> {
    set i | 0 <= i < |log| && log[i].event.Merged? :: log[i].event.secondary
  }

  /** A pair ruled apart stays ruled apart: its survivors are distinct and the snapshot says so. */
  ghost predicate KeptApart(st: State, k: Pair) {
    Rep(st.log, k.lo) != Rep(st.log, k.hi) && Key(Rep(st.log, k.lo), Rep(st.log, k.hi)) in st.excluded
  }

  /** What every decision of a sweep keeps, relative to the rulings loaded at the start. */
  ghost predicate Inv(st: State, ruled: set<Pair>) {
    && Canonical(st.excluded)
    && (forall k :: k in ruled ==> KeptApart(st, k))
    && st.mergedAway == Secondaries(st.log)
    && (forall x :: Rep(st.log, x) !in st.mergedAway)
  }

  lemma SecondariesSnoc(log: seq<Entry>, e: Entry)
    ensures Secondaries(log + [e]) == Secondaries(log) + (if e.event.Merged? then {e.event.secondary} else {})
  {
    var log' := log + [e];
    forall id | id in Secondaries(log) ensures id in Secondaries(log') {
      var i :| 0 <= i < |log| && log[i].event.Merged? && log[i].event.secondary == id;
      assert log'[i].event.Merged? && log'[i].event.secondary == id;
    }
    assert log'[|log|] == e;
    forall id | id in Secondaries(log') ensures id in Secondaries(log) || (e.event.Merged? && id == e.event.secondary) {
      var i :| 0 <= i < |log'| && log'[i].event.Merged? && log'[i].event.secondary == id;
      assert i < |log| ==> log[i] == log'[i];
    }
  }

  lemma RecordLog(st: State, a: Contact, b: Contact, ev: Event, dryRun: bool)
    ensures Record(st, a, b, ev, dryRun).log == st.log + [Entry(a, b, ev)]
    ensures forall x :: Rep(st.log + [Entry(a, b, ev)], x) == Follow(ev, Rep(st.log, x))
    ensures Secondaries(st.log + [Entry(a, b, ev)]) == Secondaries(st.log) + (if ev.Merged? then {ev.secondary} else {})
  {
    assert (st.log + [Entry(a, b, ev)])[..|st.log|] == st.log;
    SecondariesSnoc(st.log, Entry(a, b, ev));
  }

  /** A key names its two ids whatever their order. */
  lemma KeyNames(a: Id, b: Id, x: Id)
    ensures Touches(Key(a, b), x) <==> x == a || x == b
    ensures a != b ==> Other(Key(a, b), a) == b && Other(Key(a, b), b) == a
  {}

  /** One merge of a pair that is not excluded keeps every ruling. */
  lemma MergeKeepsApart(st: State, a: Contact, b: Contact, p: Id, s: Id, k: Pair, dryRun: bool)
    requires KeptApart(st, k) && p != s && Key(p, s) !in st.excluded
    ensures KeptApart(Record(st, a, b, Merged(p, s), dryRun), k)
  {
    RecordLog(st, a, b, Merged(p, s), dryRun);
    var x, y := Rep(st.log, k.lo), Rep(st.log, k.hi);
    KeyNames(x, y, s);
    if x == s {
      assert Key(p, y) in Reattached(st.excluded, p, s);
    } else if y == s {
      assert Key(p, x) in Reattached(st.excluded, p, s);
    } else {
      assert Key(x, y) in Reattached(st.excluded, p, s);
    }
  }

  lemma DecideMerge(st: State, a: Contact, b: Contact, opts: Options, env: Env)
    requires Decide(st, a, b, opts, env).Merged? && a.id != b.id
    ensures var ev := Decide(st, a, b, opts, env);
            && ((ev.primary == a.id && ev.secondary == b.id) || (ev.primary == b.id && ev.secondary == a.id))
            && (ev.primary, ev.secondary) == Survivor(a, b)
            && Key(ev.primary, ev.secondary) == Key(a.id, b.id) && Key(a.id, b.id) !in st.excluded
            && !a.isPrincipal && !b.isPrincipal
            && ClassifyIn(st, a, b, env).Structural?
            && (opts.dryRun || env.mergeOk(ev.primary, ev.secondary))
  {}

  lemma VisitInv(st: State, a: Contact, b: Contact, opts: Options, env: Env, ruled: set<Pair>)
    requires Inv(st, ruled) && a.id != b.id
    ensures Inv(Visit(st, a, b, opts, env), ruled)
  {
    if !Skipped(st, a, b) {
      var st1 := st.(processed := st.processed + {Key(a.id, b.id)});
      var ev := Decide(st1, a, b, opts, env);
      var st2 := Record(st1, a, b, ev, opts.dryRun);
      RecordLog(st1, a, b, ev, opts.dryRun);
      forall k | k in ruled ensures KeptApart(st2, k) {
        assert KeptApart(st, k) && KeptApart(st1, k);
        if ev.Merged? {
          DecideMerge(st1, a, b, opts, env);
          MergeKeepsApart(st1, a, b, ev.primary, ev.secondary, k, opts.dryRun);
        }
      }
      if ev.Merged? {
        DecideMerge(st1, a, b, opts, env);
        ReattachedCanonical(st.excluded, ev.primary, ev.secondary);
      }
    }
  }

  lemma {:induction false} VisitAllInv(st: State, pairs: seq<(Contact, Contact)>, contacts: seq<Contact>,
                                       opts: Options, env: Env, ruled: set<Pair>)
    requires Inv(st, ruled) && Within(pairs, contacts)
    ensures Inv(VisitAll(st, pairs, opts, env), ruled)
    decreases |pairs|
  {
    if pairs != [] {
      VisitInv(st, pairs[0].0, pairs[0].1, opts, env, ruled);
      assert forall i :: 0 <= i < |pairs[1..]| ==> pairs[1..][i] == pairs[i + 1];
      VisitAllInv(Visit(st, pairs[0].0, pairs[0].1, opts, env), pairs[1..], contacts, opts, env, ruled);
    }
  }

  lemma BeginInv(ruled: set<Pair>, existing: set<Pair>, identities: IdentityMap)
    requires Canonical(ruled)
    ensures Inv(Begin(ruled, existing, identities), ruled)
  {
    var st := Begin(ruled, existing, identities);
    forall k | k in ruled ensures KeptApart(st, k) {
      assert Key(k.lo, k.hi) == k;
    }
  }

  /**
   Main result.  Over any whole sweep, with any classifier, any failures, dry or real, contacts
   ruled apart at the start never share a survivor, and the snapshot holds the pair of their
   survivors; every contact's survivor is still alive.
   */
  lemma RulingsSurviveTheSweep(contacts: seq<Contact>, identities: IdentityMap, ruled: set<Pair>, existing: set<Pair>,
                               opts: Options, env: Env)
    requires DistinctIds(contacts) && Canonical(ruled)
    ensures var st := Finish(contacts, identities, ruled, existing, opts, env);
            && (forall k :: k in ruled ==> KeptApart(st, k))
            && st.mergedAway == Secondaries(st.log)
            && (forall x :: Rep(st.log, x) !in st.mergedAway)
  {
    BeginInv(ruled, existing, identities);
    PairsWithin(contacts, 0, 1);
    VisitAllInv(Begin(ruled, existing, identities), PairsFrom(contacts, 0, 1), contacts, opts, env, ruled);
  }

  // ---------------------------------------------------------------------------------------
  // Accounting
  // ---------------------------------------------------------------------------------------

  /** What a visited pair counts as.  A null classification has no counter of its own. */
  datatype Kind = KMerge | KTask | KExcluded | KExisting | KLowScore | KAboveMax | KSuppressed | KError | KNull

  function KindOf(ev: Event): Kind {
    match ev
    case Ignored => KNull
    case ClassifyFailed => KError
    case Excluded => KExcluded
    case Merged(_, _) => KMerge
    case MergeFailed => KError
    case LowScore => KLowScore
    case AboveMax => KAboveMax
    case AlreadyFiled(_) => KExisting
    case Suppressed(_) => KSuppressed
    case TaskMade(_) => KTask
    case TaskFailed(_) => KError
  }

  function CountOf(k: Kind, log: seq<Entry>): nat {
    if log == [] then 0 else CountOf(k, log[..|log| - 1]) + (if KindOf(log[|log| - 1].event) == k then 1 else 0)
  }

  function Guarded(log: seq<Entry>): nat {
    if log == [] then 0
    else
      var ev := log[|log| - 1].event;
      Guarded(log[..|log| - 1])
      + (if (ev.AlreadyFiled? || ev.Suppressed? || ev.TaskMade? || ev.TaskFailed?) && ev.guarded then 1 else 0)
  }

  function Counter(c: Counts, k: Kind, dryRun: bool): nat {
    match k
    case KMerge => if dryRun then c.wouldMerge else c.merged
    case KTask => if dryRun then c.wouldCreate else c.tasks
    case KExcluded => c.excluded
    case KExisting => c.existing
    case KLowScore => c.lowScore
    case KAboveMax => c.aboveMax
    case KSuppressed => c.suppressed
    case KError => c.errors
    case KNull => 0
  }

  /** Every counter is the number of decisions of its kind, and the other mode's counters stay zero. */
  ghost predicate Tallied(c: Counts, log: seq<Entry>, dryRun: bool) {
    && (forall k :: k != KNull ==> Counter(c, k, dryRun) == CountOf(k, log))
    && c.principal == Guarded(log)
    && (if dryRun then c.merged == 0 && c.tasks == 0 else c.wouldMerge == 0 && c.wouldCreate == 0)
  }

  lemma TickCounts(c: Counts, ev: Event, dryRun: bool, k: Kind)
    requires k != KNull
    ensures Counter(Tick(c, ev, dryRun), k, dryRun) == Counter(c, k, dryRun) + (if KindOf(ev) == k then 1 else 0)
  {}

  lemma TickTallied(c: Counts, log: seq<Entry>, a: Contact, b: Contact, ev: Event, dryRun: bool)
    requires Tallied(c, log, dryRun)
    ensures Tallied(Tick(c, ev, dryRun), log + [Entry(a, b, ev)], dryRun)
  {
    var log' := log + [Entry(a, b, ev)];
    assert log'[..|log|] == log;
    forall k | k != KNull ensures Counter(Tick(c, ev, dryRun), k, dryRun) == CountOf(k, log') {
      TickCounts(c, ev, dryRun, k);
    }
  }

  /** The kinds partition the visited pairs: each pair is counted exactly once. */
  lemma {:induction false} KindsPartition(log: seq<Entry>)
    ensures |log| == CountOf(KMerge, log) + CountOf(KTask, log) + CountOf(KExcluded, log) + CountOf(KExisting, log)
                     + CountOf(KLowScore, log) + CountOf(KAboveMax, log) + CountOf(KSuppressed, log)
                         + CountOf(KError, log)
                     + CountOf(KNull, log)
  {
    if log != [] {
      KindsPartition(log[..|log| - 1]);
    }
  }

  /** No entry after a merge mentions the contact merged away. */
  ghost predicate NeverTouchedAgain(log: seq<Entry>) {
    forall i, j :: 0 <= i < j < |log| && log[i].event.Merged? ==>
      log[j].a.id != log[i].event.secondary && log[j].b.id != log[i].event.secondary
  }

  ghost predicate Structured(st: State) {
    && |st.log| == |st.processed|
    && st.mergedAway == Secondaries(st.log)
    && |st.mergedAway| == CountOf(KMerge, st.log)
    && NeverTouchedAgain(st.log)
  }

  ghost predicate Accounted(st: State, dryRun: bool) {
    Tallied(st.counts, st.log, dryRun) && Structured(st)
  }

  lemma NeverTouchedSnoc(log: seq<Entry>, e: Entry)
    requires NeverTouchedAgain(log) && e.a.id !in Secondaries(log) && e.b.id !in Secondaries(log)
    ensures NeverTouchedAgain(log + [e])
  {
    var log' := log + [e];
    forall i, j | 0 <= i < j < |log'| && log'[i].event.Merged?
      ensures log'[j].a.id != log'[i].event.secondary && log'[j].b.id != log'[i].event.secondary
    {
      assert log'[i] == log[i];
      assert log[i].event.secondary in Secondaries(log);
    }
  }

  lemma MergesSnoc(log: seq<Entry>, e: Entry)
    requires |Secondaries(log)| == CountOf(KMerge, log)
    requires e.event.Merged? ==> e.event.secondary !in Secondaries(log)
    ensures |Secondaries(log + [e])| == CountOf(KMerge, log + [e])
  {
    SecondariesSnoc(log, e);
    assert (log + [e])[..|log|] == log;
  }

  lemma AccountedStep(st: State, st': State, e: Entry, dryRun: bool)
    requires Accounted(st, dryRun) && st'.log == st.log + [e] && st'.counts == Tick(st.counts, e.event, dryRun)
    requires e.a.id !in st.mergedAway && e.b.id !in st.mergedAway && |st'.processed| == |st.processed| + 1
    requires e.event.Merged? ==> e.event.secondary == e.a.id || e.event.secondary == e.b.id
    requires st'.mergedAway == st.mergedAway + (if e.event.Merged? then {e.event.secondary} else {})
    ensures Accounted(st', dryRun)
  {
    TickTallied(st.counts, st.log, e.a, e.b, e.event, dryRun);
    SecondariesSnoc(st.log, e);
    NeverTouchedSnoc(st.log, e);
    MergesSnoc(st.log, e);
  }

  lemma RecordAccounted(st: State, a: Contact, b: Contact, ev: Event, dryRun: bool)
    requires Accounted(st, dryRun) && !Skipped(st, a, b)
    requires ev.Merged? ==> ev.secondary == a.id || ev.secondary == b.id
    ensures Accounted(Record(st.(processed := st.processed + {Key(a.id, b.id)}), a, b, ev, dryRun), dryRun)
  {
    AccountedStep(st, Record(st.(processed := st.processed + {Key(a.id, b.id)}), a, b, ev, dryRun), Entry(a, b, ev),
                  dryRun);
  }

  lemma VisitAccounted(st: State, a: Contact, b: Contact, opts: Options, env: Env)
    requires Accounted(st, opts.dryRun) && a.id != b.id
    ensures Accounted(Visit(st, a, b, opts, env), opts.dryRun)
  {
    if !Skipped(st, a, b) {
      var st1 := st.(processed := st.processed + {Key(a.id, b.id)});
      var ev := Decide(st1, a, b, opts, env);
      if ev.Merged? {
        DecideMerge(st1, a, b, opts, env);
      }
      RecordAccounted(st, a, b, ev, opts.dryRun);
    }
  }

  lemma {:induction false} VisitAllAccounted(st: State, pairs: seq<(Contact, Contact)>, contacts: seq<Contact>,
                                             opts: Options, env: Env)
    requires Accounted(st, opts.dryRun) && Within(pairs, contacts)
    ensures Accounted(VisitAll(st, pairs, opts, env), opts.dryRun)
    decreases |pairs|
  {
    if pairs != [] {
      VisitAccounted(st, pairs[0].0, pairs[0].1, opts, env);
      assert forall i :: 0 <= i < |pairs[1..]| ==> pairs[1..][i] == pairs[i + 1];
      VisitAllAccounted(Visit(st, pairs[0].0, pairs[0].1, opts, env), pairs[1..], contacts, opts, env);
    }
  }

  /**
   Each visited pair is counted once (or was classified null), merges are in number the contacts
   merged away, and a contact merged away is never looked at again.
   */
  lemma SweepIsAccounted(contacts: seq<Contact>, identities: IdentityMap, ruled: set<Pair>, existing: set<Pair>,
                         opts: Options, env: Env)
    requires DistinctIds(contacts)
    ensures var st := Finish(contacts, identities, ruled, existing, opts, env);
            var c := st.counts;
            && Accounted(st, opts.dryRun)
            && |st.mergedAway| == c.merged + c.wouldMerge
            && |st.processed| == c.merged + c.wouldMerge + c.tasks + c.wouldCreate + c.excluded + c.existing
               + c.lowScore
                                 + c.aboveMax + c.suppressed + c.errors + CountOf(KNull, st.log)
  {
    var st := Finish(contacts, identities, ruled, existing, opts, env);
    KindsPartition(st.log);
    PairsWithin(contacts, 0, 1);
    VisitAllAccounted(Begin(ruled, existing, identities), PairsFrom(contacts, 0, 1), contacts, opts, env);
    var d, c := opts.dryRun, st.counts;
    assert Counter(c, KMerge, d) == CountOf(KMerge, st.log) && Counter(c, KTask, d) == CountOf(KTask, st.log);
    assert Counter(c, KExcluded, d) == CountOf(KExcluded, st.log)
           && Counter(c, KExisting, d) == CountOf(KExisting, st.log);
    assert Counter(c, KLowScore, d) == CountOf(KLowScore, st.log)
           && Counter(c, KAboveMax, d) == CountOf(KAboveMax, st.log);
    assert Counter(c, KSuppressed, d) == CountOf(KSuppressed, st.log)
           && Counter(c, KError, d) == CountOf(KError, st.log);
  }

  // ---------------------------------------------------------------------------------------
  // The principal, graph nodes and identities
  // ---------------------------------------------------------------------------------------

  function NodeIds(contacts: seq<Contact>): set<Id> {
    set i | 0 <= i < |contacts| && contacts[i].hasNode :: contacts[i].id
  }

  function PrincipalIds(contacts: seq<Contact>): set<Id> {
    set i | 0 <= i < |contacts| && contacts[i].isPrincipal :: contacts[i].id
  }

  /** All identities held under the listed ids, with multiplicity. */
  function Held(ids: seq<Id>, m: IdentityMap): multiset<Identity> {
    if ids == [] then multiset{} else multiset(IdentitiesOf(m, ids[0])) + Held(ids[1..], m)
  }

  /** Graph nodes and the principal, relative to the contacts swept. */
  ghost predicate GoodSurvivors(log: seq<Entry>, contacts: seq<Contact>) {
    && (forall x :: x in NodeIds(contacts) ==> Rep(log, x) in NodeIds(contacts))
    && (forall x :: (Rep(log, x) in PrincipalIds(contacts) || x in PrincipalIds(contacts)) ==> Rep(log, x) == x)
  }

  /** A dry run leaves the identities alone; a real run moves each to its contact's survivor. */
  ghost predicate IdentitiesFollow(st: State, start: IdentityMap, dryRun: bool) {
    if dryRun then st.identities == start
    else forall x :: multiset(IdentitiesOf(start, x)) <= multiset(IdentitiesOf(st.identities, Rep(st.log, x)))
  }

  ghost predicate Preserved(st: State, contacts: seq<Contact>, start: IdentityMap, dryRun: bool) {
    GoodSurvivors(st.log, contacts) && IdentitiesFollow(st, start, dryRun)
  }

  lemma ContactFacts(contacts: seq<Contact>, c: Contact)
    requires DistinctIds(contacts) && c in contacts
    ensures c.id in NodeIds(contacts) <==> c.hasNode
    ensures c.id in PrincipalIds(contacts) <==> c.isPrincipal
  {
    var i :| 0 <= i < |contacts| && contacts[i] == c;
    forall j | 0 <= j < |contacts| && contacts[j].id == c.id ensures j == i {}
  }

  lemma MoveKeeps(m: IdentityMap, p: Id, s: Id, x: Id)
    requires p != s
    ensures multiset(IdentitiesOf(m, x)) <= multiset(IdentitiesOf(MoveIdentities(m, p, s), if x == s then p else x))
  {
    var m' := MoveIdentities(m, p, s);
    assert IdentitiesOf(m', p) == IdentitiesOf(m, p) + IdentitiesOf(m, s);
  }

  lemma VisitGoodSurvivors(st: State, a: Contact, b: Contact, opts: Options, env: Env, contacts: seq<Contact>)
    requires DistinctIds(contacts) && a in contacts && b in contacts && a.id != b.id
    requires GoodSurvivors(st.log, contacts)
    ensures GoodSurvivors(Visit(st, a, b, opts, env).log, contacts)
  {
    if !Skipped(st, a, b) {
      var st1 := st.(processed := st.processed + {Key(a.id, b.id)});
      var ev := Decide(st1, a, b, opts, env);
      RecordLog(st1, a, b, ev, opts.dryRun);
      if ev.Merged? {
        DecideMerge(st1, a, b, opts, env);
        ContactFacts(contacts, a);
        ContactFacts(contacts, b);
      }
    }
  }

  lemma VisitIdentities(st: State, a: Contact, b: Contact, opts: Options, env: Env, start: IdentityMap)
    requires a.id != b.id && IdentitiesFollow(st, start, opts.dryRun)
    ensures IdentitiesFollow(Visit(st, a, b, opts, env), start, opts.dryRun)
  {
    if !Skipped(st, a, b) {
      var st1 := st.(processed := st.processed + {Key(a.id, b.id)});
      var ev := Decide(st1, a, b, opts, env);
      RecordLog(st1, a, b, ev, opts.dryRun);
      if ev.Merged? && !opts.dryRun {
        DecideMerge(st1, a, b, opts, env);
        forall x ensures multiset(IdentitiesOf(start, x))
                         <= multiset(IdentitiesOf(MoveIdentities(st.identities, ev.primary, ev.secondary),
                                                  Follow(ev, Rep(st.log, x))))
        {
          MoveKeeps(st.identities, ev.primary, ev.secondary, Rep(st.log, x));
        }
      }
    }
  }

  lemma {:induction false} VisitAllPreserved(st: State, pairs: seq<(Contact, Contact)>, contacts: seq<Contact>,
                                             opts: Options, env: Env, start: IdentityMap)
    requires DistinctIds(contacts) && Preserved(st, contacts, start, opts.dryRun) && Within(pairs, contacts)
    ensures Preserved(VisitAll(st, pairs, opts, env), contacts, start, opts.dryRun)
    decreases |pairs|
  {
    if pairs != [] {
      VisitGoodSurvivors(st, pairs[0].0, pairs[0].1, opts, env, contacts);
      VisitIdentities(st, pairs[0].0, pairs[0].1, opts, env, start);
      assert forall i :: 0 <= i < |pairs[1..]| ==> pairs[1..][i] == pairs[i + 1];
      VisitAllPreserved(Visit(st, pairs[0].0, pairs[0].1, opts, env), pairs[1..], contacts, opts, env, start);
    }
  }

  /**
   No one is merged into or away from the principal; a contact with a graph node ends at a survivor
   with one; in a real run every identity ends with its contact's survivor.
   */
  lemma SweepPreserves(contacts: seq<Contact>, identities: IdentityMap, ruled: set<Pair>, existing: set<Pair>,
                       opts: Options, env: Env)
    requires DistinctIds(contacts)
    ensures Preserved(Finish(contacts, identities, ruled, existing, opts, env), contacts, identities, opts.dryRun)
  {
    PairsWithin(contacts, 0, 1);
    var st := Begin(ruled, existing, identities);
    assert Preserved(st, contacts, identities, opts.dryRun);
    VisitAllPreserved(st, PairsFrom(contacts, 0, 1), contacts, opts, env, identities);
  }

  ghost predicate Distinct(ids: seq<Id>) {
    forall i, j :: 0 <= i < j < |ids| ==> ids[i] != ids[j]
  }

  lemma {:induction false} HeldElsewhere(ids: seq<Id>, m: IdentityMap, m': IdentityMap)
    requires forall i :: 0 <= i < |ids| ==> IdentitiesOf(m, ids[i]) == IdentitiesOf(m', ids[i])
    ensures Held(ids, m) == Held(ids, m')
  {
    if ids != [] {
      assert forall i :: 0 <= i < |ids[1..]| ==> ids[1..][i] == ids[i + 1];
      HeldElsewhere(ids[1..], m, m');
    }
  }

  lemma Exchange<T>(first: multiset<T>, rest: multiset<T>, rest': multiset<T>, x: multiset<T>, y: multiset<T>)
    requires rest' + x == rest + y
    ensures (first + rest') + x == (first + rest) + y
  {
    assert (first + rest') + x == first + (rest' + x);
    assert (first + rest) + y == first + (rest + y);
  }

  lemma Swap<T>(x: multiset<T>, y: multiset<T>, rest: multiset<T>)
    ensures (y + rest) + x == (x + rest) + y
  {}

  /** Taking one id's identities out of the total, and putting others in. */
  lemma {:induction false} HeldReplace(ids: seq<Id>, m: IdentityMap, m': IdentityMap, id: Id)
    requires Distinct(ids) && id in ids
    requires forall i :: 0 <= i < |ids| && ids[i] != id ==> IdentitiesOf(m, ids[i]) == IdentitiesOf(m', ids[i])
    ensures Held(ids, m') + multiset(IdentitiesOf(m, id)) == Held(ids, m) + multiset(IdentitiesOf(m', id))
  {
    assert forall i :: 0 <= i < |ids[1..]| ==> ids[1..][i] == ids[i + 1];
    if ids[0] == id {
      HeldElsewhere(ids[1..], m, m');
      Swap(multiset(IdentitiesOf(m, id)), multiset(IdentitiesOf(m', id)), Held(ids[1..], m));
    } else {
      HeldReplace(ids[1..], m, m', id);
      Exchange(multiset(IdentitiesOf(m, ids[0])), Held(ids[1..], m), Held(ids[1..], m'), multiset(IdentitiesOf(m, id)),
               multiset(IdentitiesOf(m', id)));
    }
  }

  lemma Cancel<T>(a: multiset<T>, b: multiset<T>, c: multiset<T>)
    requires a + c == b + c
    ensures a == b
  {
    forall x ensures a[x] == b[x] {
      assert (a + c)[x] == (b + c)[x];
    }
  }

  lemma AddConserves(ids: seq<Id>, m: IdentityMap, p: Id, extra: seq<Identity>)
    requires Distinct(ids) && p in ids
    ensures Held(ids, m[p := IdentitiesOf(m, p) + extra]) == Held(ids, m) + multiset(extra)
  {
    var own := IdentitiesOf(m, p);
    var mid := m[p := own + extra];
    HeldReplace(ids, m, mid, p);
    assert multiset(IdentitiesOf(mid, p)) == multiset(own) + multiset(extra);
    assert Held(ids, m) + (multiset(own) + multiset(extra)) == (Held(ids, m) + multiset(extra)) + multiset(own);
    Cancel(Held(ids, mid), Held(ids, m) + multiset(extra), multiset(own));
  }

  /** A merge moves identities from one id to another and loses none. */
  lemma MoveConserves(ids: seq<Id>, m: IdentityMap, p: Id, s: Id)
    requires Distinct(ids) && p in ids && s in ids && p != s
    ensures Held(ids, MoveIdentities(m, p, s)) == Held(ids, m)
  {
    var moved := IdentitiesOf(m, s);
    var mid := m[p := IdentitiesOf(m, p) + moved];
    AddConserves(ids, m, p, moved);
    RemoveConserves(ids, mid, s);
    Cancel(Held(ids, mid - {s}), Held(ids, m), multiset(moved));
  }

  lemma RemoveConserves(ids: seq<Id>, m: IdentityMap, s: Id)
    requires Distinct(ids) && s in ids
    ensures Held(ids, m - {s}) + multiset(IdentitiesOf(m, s)) == Held(ids, m)
  {
    HeldReplace(ids, m, m - {s}, s);
    assert IdentitiesOf(m - {s}, s) == [];
  }

  lemma {:induction false} VisitAllConserves(st: State, pairs: seq<(Contact, Contact)>, contacts: seq<Contact>,
                                             opts: Options, env: Env, ids: seq<Id>)
    requires Within(pairs, contacts) && Distinct(ids) && forall c :: c in contacts ==> c.id in ids
    ensures Held(ids, VisitAll(st, pairs, opts, env).identities) == Held(ids, st.identities)
    decreases |pairs|
  {
    if pairs != [] {
      var a, b := pairs[0].0, pairs[0].1;
      var st1 := st.(processed := st.processed + {Key(a.id, b.id)});
      var ev := Decide(st1, a, b, opts, env);
      if !Skipped(st, a, b) && ev.Merged? && !opts.dryRun {
        DecideMerge(st1, a, b, opts, env);
        MoveConserves(ids, st.identities, ev.primary, ev.secondary);
      }
      assert forall i :: 0 <= i < |pairs[1..]| ==> pairs[1..][i] == pairs[i + 1];
      VisitAllConserves(Visit(st, a, b, opts, env), pairs[1..], contacts, opts, env, ids);
    }
  }

  /** Over any list of ids that includes the contacts', the multiset of channel identities is conserved. */
  lemma IdentitiesConserved(contacts: seq<Contact>, identities: IdentityMap, ruled: set<Pair>, existing: set<Pair>,
                            opts: Options, env: Env, ids: seq<Id>)
    requires DistinctIds(contacts) && Distinct(ids) && forall c :: c in contacts ==> c.id in ids
    ensures Held(ids, Finish(contacts, identities, ruled, existing, opts, env).identities) == Held(ids, identities)
  {
    PairsWithin(contacts, 0, 1);
    VisitAllConserves(Begin(ruled, existing, identities), PairsFrom(contacts, 0, 1), contacts, opts, env, ids);
  }

  // ---------------------------------------------------------------------------------------
  // Coverage
  // ---------------------------------------------------------------------------------------

  lemma VisitGrows(st: State, a: Contact, b: Contact, opts: Options, env: Env)
    ensures st.processed <= Visit(st, a, b, opts, env).processed
            && st.mergedAway <= Visit(st, a, b, opts, env).mergedAway
    ensures var st' := Visit(st, a, b, opts, env);
            Key(a.id, b.id) in st'.processed || a.id in st'.mergedAway || b.id in st'.mergedAway
  {}

  lemma {:induction false} VisitAllCovers(st: State, pairs: seq<(Contact, Contact)>, opts: Options, env: Env, i: nat)
    requires i < |pairs|
    ensures var st' := VisitAll(st, pairs, opts, env);
            Key(pairs[i].0.id, pairs[i].1.id) in st'.processed || pairs[i].0.id in st'.mergedAway
                || pairs[i].1.id in st'.mergedAway
    decreases |pairs|
  {
    var st1 := Visit(st, pairs[0].0, pairs[0].1, opts, env);
    VisitGrows(st, pairs[0].0, pairs[0].1, opts, env);
    if i == 0 {
      VisitAllGrows(st1, pairs[1..], opts, env);
    } else {
      VisitAllCovers(st1, pairs[1..], opts, env, i - 1);
    }
  }

  lemma {:induction false} VisitAllGrows(st: State, pairs: seq<(Contact, Contact)>, opts: Options, env: Env)
    ensures st.processed <= VisitAll(st, pairs, opts, env).processed
            && st.mergedAway <= VisitAll(st, pairs, opts, env).mergedAway
    decreases |pairs|
  {
    if pairs != [] {
      VisitGrows(st, pairs[0].0, pairs[0].1, opts, env);
      VisitAllGrows(Visit(st, pairs[0].0, pairs[0].1, opts, env), pairs[1..], opts, env);
    }
  }

  lemma {:induction false} PairsComplete(contacts: seq<Contact>, i: nat, j: nat, x: nat, y: nat)
    requires i <= x < y < |contacts| && (x == i ==> j <= y) && i < j
    ensures (contacts[x], contacts[y]) in PairsFrom(contacts, i, j)
    decreases |contacts| - i, |contacts| - j
  {
    if j >= |contacts| {
      PairsComplete(contacts, i + 1, i + 2, x, y);
    } else if x == i && y == j {
    } else {
      PairsComplete(contacts, i, j + 1, x, y);
    }
  }

  /** No pair is forgotten: at the end each was decided, or one of the two had been merged away. */
  lemma EveryPairSettled(contacts: seq<Contact>, identities: IdentityMap, ruled: set<Pair>, existing: set<Pair>,
                         opts: Options, env: Env, x: nat, y: nat)
    requires x < y < |contacts|
    ensures var st := Finish(contacts, identities, ruled, existing, opts, env);
            Key(contacts[x].id, contacts[y].id) in st.processed || contacts[x].id in st.mergedAway
                || contacts[y].id in st.mergedAway
  {
    PairsComplete(contacts, 0, 1, x, y);
    var pairs := PairsFrom(contacts, 0, 1);
    var i :| 0 <= i < |pairs| && pairs[i] == (contacts[x], contacts[y]);
    VisitAllCovers(Begin(ruled, existing, identities), pairs, opts, env, i);
  }

  // ---------------------------------------------------------------------------------------
  // Dry run and real run in lockstep
  // ---------------------------------------------------------------------------------------

  /** No callback fails. */
  ghost predicate Reliable(env: Env) {
    && (forall p, s :: env.mergeOk(p, s))
    && (forall a, b :: env.taskOk(a, b))
  }

  /** Along the real run, what merging added to the identities changes no classification. */
  predicate Unaffected(st: State, pairs: seq<(Contact, Contact)>, opts: Options, env: Env, start: IdentityMap)
    decreases |pairs|
  {
    pairs == []
    || (var (a, b) := pairs[0];
        && (Skipped(st, a, b) ||
            env.classify(a, IdentitiesOf(st.identities, a.id), b, IdentitiesOf(st.identities, b.id))
            == env.classify(a, IdentitiesOf(start, a.id), b, IdentitiesOf(start, b.id)))
        && Unaffected(Visit(st, a, b, opts, env), pairs[1..], opts, env, start))
  }

  /** The dry run's mirror of a real run's counters. */
  predicate SameCounts(real': Counts, dry: Counts) {
    dry == real'.(merged := 0, wouldMerge := real'.merged, tasks := 0, wouldCreate := real'.tasks)
  }

  ghost predicate Lockstep(r: State, d: State, start: IdentityMap) {
    && SameCounts(r.counts, d.counts)
    && r.excluded == d.excluded && r.processed == d.processed && r.mergedAway == d.mergedAway && r.log == d.log
    && d.existing <= r.existing && (forall k :: k in r.existing ==> k in d.existing || k in r.processed)
    && d.identities == start
  }

  lemma SameDecision(r: State, d: State, a: Contact, b: Contact, opts: Options, env: Env, start: IdentityMap)
    requires Reliable(env) && !opts.dryRun && Lockstep(r, d, start) && !Skipped(r, a, b)
    requires env.classify(a, IdentitiesOf(r.identities, a.id), b, IdentitiesOf(r.identities, b.id))
          == env.classify(a, IdentitiesOf(start, a.id), b, IdentitiesOf(start, b.id))
    ensures var key := Key(a.id, b.id);
            Decide(r.(processed := r.processed + {key}), a, b, opts, env)
            == Decide(d.(processed := d.processed + {key}), a, b, opts.(dryRun := true), env)
  {
    assert Key(a.id, b.id) in r.existing <==> Key(a.id, b.id) in d.existing;
  }

  lemma VisitLockstep(r: State, d: State, a: Contact, b: Contact, opts: Options, env: Env, start: IdentityMap)
    requires Reliable(env) && !opts.dryRun && Lockstep(r, d, start)
    requires Skipped(r, a, b) ||
             env.classify(a, IdentitiesOf(r.identities, a.id), b, IdentitiesOf(r.identities, b.id))
             == env.classify(a, IdentitiesOf(start, a.id), b, IdentitiesOf(start, b.id))
    ensures Lockstep(Visit(r, a, b, opts, env), Visit(d, a, b, opts.(dryRun := true), env), start)
  {
    if !Skipped(r, a, b) {
      SameDecision(r, d, a, b, opts, env, start);
    }
  }

  lemma {:induction false} VisitAllLockstep(r: State, d: State, pairs: seq<(Contact, Contact)>, opts: Options,
                                            env: Env, start: IdentityMap)
    requires Reliable(env) && !opts.dryRun && Lockstep(r, d, start) && Unaffected(r, pairs, opts, env, start)
    ensures Lockstep(VisitAll(r, pairs, opts, env), VisitAll(d, pairs, opts.(dryRun := true), env), start)
    decreases |pairs|
  {
    if pairs != [] {
      var (a, b) := pairs[0];
      VisitLockstep(r, d, a, b, opts, env, start);
      VisitAllLockstep(Visit(r, a, b, opts, env), Visit(d, a, b, opts.(dryRun := true), env), pairs[1..], opts, env,
                       start);
    }
  }

  /**
   The preview is the run: when no callback fails and merging changes no classification, the dry
   run takes the real run's decision on every pair, under any cap and score band.
   */
  lemma DryRunPredictsRealRun(contacts: seq<Contact>, identities: IdentityMap, ruled: set<Pair>, existing: set<Pair>,
                              opts: Options, env: Env)
    requires Reliable(env) && !opts.dryRun
    requires Unaffected(Begin(ruled, existing, identities), PairsFrom(contacts, 0, 1), opts, env, identities)
    ensures var r := Finish(contacts, identities, ruled, existing, opts, env);
            var d := Finish(contacts, identities, ruled, existing, opts.(dryRun := true), env);
            && r.log == d.log && r.excluded == d.excluded && r.mergedAway == d.mergedAway
            && SameCounts(r.counts, d.counts)
  {
    var st := Begin(ruled, existing, identities);
    VisitAllLockstep(st, st, PairsFrom(contacts, 0, 1), opts, env, identities);
  }
}
