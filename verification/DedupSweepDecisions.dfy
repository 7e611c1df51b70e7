/** Every decision of a sweep, explained by the classifier's answer and by what the log holds before it. */
module DedupSweepDecisions {
  import opened Common
  import opened DedupSweep
  import opened DedupSweepTheorems

  /** What a sweep starts from. */
  datatype Setup = Setup(identities: IdentityMap, ruled: set<Pair>, existing: set<Pair>, opts: Options, env: Env)

  // ---------------------------------------------------------------------------------------
  // What the past says
  // ---------------------------------------------------------------------------------------

  /** The identities a contact holds after the merges logged so far; a dry run moves none. */
  function HeldAfter(x: Setup, log: seq<Entry>, id: Id): seq<Identity>
    decreases |log|
  {
    if log == [] then (if id in x.identities then x.identities[id] else [])
    else
      var front, ev := log[..|log| - 1], log[|log| - 1].event;
      if x.opts.dryRun || !ev.Merged? then HeldAfter(x, front, id)
      else if id == ev.primary then HeldAfter(x, front, ev.primary) + HeldAfter(x, front, ev.secondary)
      else if id == ev.secondary then []
      else HeldAfter(x, front, id)
  }

  predicate SameTwo(a: Id, b: Id, c: Id, d: Id) {
    (a == c && b == d) || (a == d && b == c)
  }

  /** Two contacts ruled apart at the start have become these two. */
  predicate ApartNow(x: Setup, log: seq<Entry>, a: Id, b: Id) {
    exists k :: k in x.ruled && SameTwo(Rep(log, k.lo), Rep(log, k.hi), a, b)
  }

  function TasksMade(log: seq<Entry>): nat {
    if log == [] then 0 else TasksMade(log[..|log| - 1]) + (if log[|log| - 1].event.TaskMade? then 1 else 0)
  }

  /** `p` survives: the one with a graph node if just one has one, otherwise the lower id. */
  predicate Survives(a: Contact, b: Contact, p: Id, s: Id) {
    && SameTwo(p, s, a.id, b.id)
    && (if a.hasNode && !b.hasNode then p == a.id else if b.hasNode && !a.hasNode then p == b.id else p < s)
  }

  predicate TooLow(x: Setup, score: real) {
    x.opts.minScore.Some? && score < x.opts.minScore.value
  }

  predicate TooHigh(x: Setup, score: real) {
    x.opts.maxScore.Some? && x.opts.maxScore.value <= score
  }

  predicate NoTaskLeft(x: Setup, past: seq<Entry>) {
    x.opts.noTasks || (x.opts.maxTasks.Some? && x.opts.maxTasks.value <= TasksMade(past))
  }

  predicate AsksForTask(ev: Event) {
    ev.AlreadyFiled? || ev.Suppressed? || ev.TaskMade? || ev.TaskFailed?
  }

  // ---------------------------------------------------------------------------------------
  // The decision
  // ---------------------------------------------------------------------------------------

  /** What the classifier says of a pair, given the identities its contacts hold by then. */
  function Answer(x: Setup, past: seq<Entry>, e: Entry): Classification {
    x.env.classify(e.a, HeldAfter(x, past, e.a.id), e.b, HeldAfter(x, past, e.b.id))
  }

  /** A structural pair is merged unless it is ruled apart or involves the principal. */
  predicate MergeExplained(x: Setup, past: seq<Entry>, e: Entry) {
    var c, apart, ev := Answer(x, past, e), ApartNow(x, past, e.a.id, e.b.id), e.event;
    && (ev.Merged? || ev.MergeFailed? <==> c.Structural? && !apart && !e.a.isPrincipal && !e.b.isPrincipal)
    && (ev.Merged? ==> Survives(e.a, e.b, ev.primary, ev.secondary)
                       && (x.opts.dryRun || x.env.mergeOk(ev.primary, ev.secondary)))
    && (ev.MergeFailed? ==>
          && !x.opts.dryRun
          && (Survives(e.a, e.b, e.a.id, e.b.id) ==> !x.env.mergeOk(e.a.id, e.b.id))
          && (Survives(e.a, e.b, e.b.id, e.a.id) ==> !x.env.mergeOk(e.b.id, e.a.id)))
  }

  /** Errors, unrelated pairs, rulings, and fuzzy scores outside the band. */
  predicate SkipExplained(x: Setup, past: seq<Entry>, e: Entry) {
    var c, apart, ev := Answer(x, past, e), ApartNow(x, past, e.a.id, e.b.id), e.event;
    && (ev.ClassifyFailed? <==> c.Throws?)
    && (ev.Ignored? <==> c.Unrelated?)
    && (ev.Excluded? <==> (c.Structural? || c.Fuzzy?) && apart)
    && (ev.LowScore? <==> c.Fuzzy? && !apart && TooLow(x, c.score))
    && (ev.AboveMax? <==> c.Fuzzy? && !apart && !TooLow(x, c.score) && TooHigh(x, c.score))
  }

  /** A task is for a structural pair with the principal, or for a fuzzy score inside the band. */
  predicate TaskExplained(x: Setup, past: seq<Entry>, e: Entry) {
    var c, apart, ev := Answer(x, past, e), ApartNow(x, past, e.a.id, e.b.id), e.event;
    var filed := (if e.a.id < e.b.id then Pair(e.a.id, e.b.id) else Pair(e.b.id, e.a.id)) in x.existing;
    && (AsksForTask(ev) <==>
        !apart && ((c.Structural? && (e.a.isPrincipal || e.b.isPrincipal))
                   || (c.Fuzzy? && !TooLow(x, c.score) && !TooHigh(x, c.score))))
    && (AsksForTask(ev) ==>
          && (ev.guarded <==> c.Structural?)
          && (ev.AlreadyFiled? <==> filed)
          && (ev.Suppressed? <==> !filed && NoTaskLeft(x, past))
          && (ev.TaskMade? <==>
              !filed && !NoTaskLeft(x, past) && (x.opts.dryRun || x.env.taskOk(e.a.id, e.b.id))))
  }

  predicate Explained(x: Setup, past: seq<Entry>, e: Entry) {
    MergeExplained(x, past, e) && SkipExplained(x, past, e) && TaskExplained(x, past, e)
  }

  predicate AllExplained(x: Setup, log: seq<Entry>) {
    forall k :: 0 <= k < |log| ==> Explained(x, log[..k], log[k])
  }

  // ---------------------------------------------------------------------------------------
  // The sweep's sets follow the log
  // ---------------------------------------------------------------------------------------

  function Acted(x: Setup, st: State): nat {
    if x.opts.dryRun then st.counts.wouldCreate else st.counts.tasks
  }

  ghost predicate Follows(x: Setup, st: State) {
    && (forall id :: IdentitiesOf(st.identities, id) == HeldAfter(x, st.log, id))
    && (forall k :: k in x.ruled ==> KeptApart(st, k))
    && (forall k :: k in st.excluded ==> k.lo < k.hi && ApartNow(x, st.log, k.lo, k.hi))
    && x.existing <= st.existing <= x.existing + st.processed
    && Acted(x, st) == TasksMade(st.log)
  }

  lemma SameTwoKey(a: Id, b: Id, u: Id, v: Id)
    requires a != b
    ensures SameTwo(u, v, a, b) ==> Key(u, v) == Key(a, b)
    ensures SameTwo(u, v, Key(a, b).lo, Key(a, b).hi) <==> SameTwo(u, v, a, b)
  {}

  lemma ExcludedNow(x: Setup, st: State, a: Id, b: Id)
    requires Follows(x, st) && a != b
    ensures Key(a, b) in st.excluded <==> ApartNow(x, st.log, a, b)
  {
    if ApartNow(x, st.log, a, b) {
      var k :| k in x.ruled && SameTwo(Rep(st.log, k.lo), Rep(st.log, k.hi), a, b);
      assert KeptApart(st, k);
      SameTwoKey(a, b, Rep(st.log, k.lo), Rep(st.log, k.hi));
    }
    if Key(a, b) in st.excluded {
      var key := Key(a, b);
      assert ApartNow(x, st.log, key.lo, key.hi);
      var k :| k in x.ruled && SameTwo(Rep(st.log, k.lo), Rep(st.log, k.hi), key.lo, key.hi);
      SameTwoKey(a, b, Rep(st.log, k.lo), Rep(st.log, k.hi));
    }
  }

  lemma SurvivorSurvives(a: Contact, b: Contact)
    requires a.id != b.id
    ensures var (p, s) := Survivor(a, b);
            forall q, r :: Survives(a, b, q, r) <==> q == p && r == s
  {}

  /** A state whose sets agree with the log on one pair. */
  ghost predicate Informed(x: Setup, st: State, log: seq<Entry>, a: Contact, b: Contact) {
    && a.id != b.id
    && ClassifyIn(st, a, b, x.env) == x.env.classify(a, HeldAfter(x, log, a.id), b, HeldAfter(x, log, b.id))
    && (Key(a.id, b.id) in st.excluded <==> ApartNow(x, log, a.id, b.id))
    && (Key(a.id, b.id) in st.existing <==> Key(a.id, b.id) in x.existing)
    && Acted(x, st) == TasksMade(log)
  }

  lemma MergeIsExplained(x: Setup, st: State, log: seq<Entry>, a: Contact, b: Contact)
    requires Informed(x, st, log, a, b)
    ensures MergeExplained(x, log, Entry(a, b, Decide(st, a, b, x.opts, x.env)))
  {
    SurvivorSurvives(a, b);
  }

  lemma SkipIsExplained(x: Setup, st: State, log: seq<Entry>, a: Contact, b: Contact)
    requires Informed(x, st, log, a, b)
    ensures SkipExplained(x, log, Entry(a, b, Decide(st, a, b, x.opts, x.env)))
  {}

  lemma TaskIsExplained(x: Setup, st: State, log: seq<Entry>, a: Contact, b: Contact)
    requires Informed(x, st, log, a, b)
    ensures TaskExplained(x, log, Entry(a, b, Decide(st, a, b, x.opts, x.env)))
  {}

  lemma DecisionExplained(x: Setup, st: State, a: Contact, b: Contact)
    requires Follows(x, st) && a.id != b.id && Key(a.id, b.id) !in st.processed
    ensures var st1 := st.(processed := st.processed + {Key(a.id, b.id)});
            Explained(x, st.log, Entry(a, b, Decide(st1, a, b, x.opts, x.env)))
  {
    var st1 := st.(processed := st.processed + {Key(a.id, b.id)});
    ExcludedNow(x, st, a.id, b.id);
    assert Informed(x, st1, st.log, a, b);
    MergeIsExplained(x, st1, st.log, a, b);
    SkipIsExplained(x, st1, st.log, a, b);
    TaskIsExplained(x, st1, st.log, a, b);
  }

  lemma MovedIdentities(m: IdentityMap, p: Id, s: Id, id: Id)
    requires p != s
    ensures IdentitiesOf(MoveIdentities(m, p, s), id)
         == if id == p then IdentitiesOf(m, p) + IdentitiesOf(m, s) else if id == s then [] else IdentitiesOf(m, id)
  {}

  lemma HeldSnoc(x: Setup, log: seq<Entry>, e: Entry, id: Id)
    ensures HeldAfter(x, log + [e], id)
         == if x.opts.dryRun || !e.event.Merged? then HeldAfter(x, log, id)
            else if id == e.event.primary then HeldAfter(x, log, e.event.primary) + HeldAfter(x, log, e.event.secondary)
            else if id == e.event.secondary then [] else HeldAfter(x, log, id)
  {
    assert (log + [e])[..|log|] == log;
  }

  lemma HeldStep(x: Setup, st: State, a: Contact, b: Contact, ev: Event, id: Id)
    requires forall i :: IdentitiesOf(st.identities, i) == HeldAfter(x, st.log, i)
    requires ev.Merged? ==> ev.primary != ev.secondary
    ensures var st' := Record(st, a, b, ev, x.opts.dryRun);
            IdentitiesOf(st'.identities, id) == HeldAfter(x, st.log + [Entry(a, b, ev)], id)
  {
    HeldSnoc(x, st.log, Entry(a, b, ev), id);
    if ev.Merged? {
      MovedIdentities(st.identities, ev.primary, ev.secondary, id);
    }
  }

  /** Where a re-pointed exclusion comes from. */
  lemma ReattachedFrom(st: State, p: Id, s: Id, k: Pair) returns (d: Pair)
    requires k in Reattached(st.excluded, p, s)
    ensures d in st.excluded && k in Moved(d, p, s)
  {
    ReattachedHas(st.excluded, p, s, k);
    d :| d in st.excluded && k in Moved(d, p, s);
  }

  lemma MovedPair(u: Id, v: Id, d: Pair, p: Id, s: Id, k: Pair)
    requires SameTwo(u, v, d.lo, d.hi) && d.lo < d.hi && p != s && d != Key(p, s) && k in Moved(d, p, s)
    ensures k.lo < k.hi && SameTwo(Follow(Merged(p, s), u), Follow(Merged(p, s), v), k.lo, k.hi)
  {}

  lemma ApartFollows(x: Setup, st: State, a: Contact, b: Contact, p: Id, s: Id, k: Pair)
    requires forall d :: d in st.excluded ==> d.lo < d.hi && ApartNow(x, st.log, d.lo, d.hi)
    requires p != s && Key(p, s) !in st.excluded && k in Reattached(st.excluded, p, s)
    ensures k.lo < k.hi && ApartNow(x, st.log + [Entry(a, b, Merged(p, s))], k.lo, k.hi)
  {
    var log' := st.log + [Entry(a, b, Merged(p, s))];
    RecordLog(st, a, b, Merged(p, s), true);
    var d := ReattachedFrom(st, p, s, k);
    var r :| r in x.ruled && SameTwo(Rep(st.log, r.lo), Rep(st.log, r.hi), d.lo, d.hi);
    MovedPair(Rep(st.log, r.lo), Rep(st.log, r.hi), d, p, s, k);
    assert SameTwo(Rep(log', r.lo), Rep(log', r.hi), k.lo, k.hi);
  }

  lemma RulingsFollow(x: Setup, st: State, a: Contact, b: Contact, ev: Event, k: Pair)
    requires KeptApart(st, k)
    requires ev.Merged? ==> ev.primary != ev.secondary && Key(ev.primary, ev.secondary) !in st.excluded
    ensures KeptApart(Record(st, a, b, ev, x.opts.dryRun), k)
  {
    RecordLog(st, a, b, ev, x.opts.dryRun);
    if ev.Merged? {
      MergeKeepsApart(st, a, b, ev.primary, ev.secondary, k, x.opts.dryRun);
    }
  }

  lemma ExcludedFollow(x: Setup, st: State, a: Contact, b: Contact, ev: Event, k: Pair)
    requires forall d :: d in st.excluded ==> d.lo < d.hi && ApartNow(x, st.log, d.lo, d.hi)
    requires ev.Merged? ==> ev.primary != ev.secondary && Key(ev.primary, ev.secondary) !in st.excluded
    requires k in Record(st, a, b, ev, x.opts.dryRun).excluded
    ensures k.lo < k.hi && ApartNow(x, st.log + [Entry(a, b, ev)], k.lo, k.hi)
  {
    if ev.Merged? {
      ApartFollows(x, st, a, b, ev.primary, ev.secondary, k);
    } else {
      RecordLog(st, a, b, ev, x.opts.dryRun);
      var log' := st.log + [Entry(a, b, ev)];
      var r :| r in x.ruled && SameTwo(Rep(st.log, r.lo), Rep(st.log, r.hi), k.lo, k.hi);
      assert SameTwo(Rep(log', r.lo), Rep(log', r.hi), k.lo, k.hi);
    }
  }

  lemma ActedFollows(x: Setup, st: State, a: Contact, b: Contact, ev: Event)
    requires Acted(x, st) == TasksMade(st.log)
    ensures var st' := Record(st, a, b, ev, x.opts.dryRun);
            st'.log == st.log + [Entry(a, b, ev)] && Acted(x, st') == TasksMade(st'.log)
  {
    assert (st.log + [Entry(a, b, ev)])[..|st.log|] == st.log;
  }

  lemma RecordFollows(x: Setup, st: State, a: Contact, b: Contact, ev: Event)
    requires Follows(x, st) && Key(a.id, b.id) in st.processed
    requires ev.Merged? ==> ev.primary != ev.secondary && Key(ev.primary, ev.secondary) !in st.excluded
    ensures Follows(x, Record(st, a, b, ev, x.opts.dryRun))
  {
    var st' := Record(st, a, b, ev, x.opts.dryRun);
    ActedFollows(x, st, a, b, ev);
    forall id ensures IdentitiesOf(st'.identities, id) == HeldAfter(x, st'.log, id) {
      HeldStep(x, st, a, b, ev, id);
    }
    forall k | k in x.ruled ensures KeptApart(st', k) {
      RulingsFollow(x, st, a, b, ev, k);
    }
    forall k | k in st'.excluded ensures k.lo < k.hi && ApartNow(x, st'.log, k.lo, k.hi) {
      ExcludedFollow(x, st, a, b, ev, k);
    }
  }

  lemma ExplainedSnoc(x: Setup, log: seq<Entry>, e: Entry)
    requires AllExplained(x, log) && Explained(x, log, e)
    ensures AllExplained(x, log + [e])
  {
    var log' := log + [e];
    forall k | 0 <= k < |log'| ensures Explained(x, log'[..k], log'[k]) {
      assert log'[..k] == log[..k];
    }
  }

  lemma MarkedFollows(x: Setup, st: State, k: Pair)
    requires Follows(x, st)
    ensures Follows(x, st.(processed := st.processed + {k}))
  {
    forall r | r in x.ruled ensures KeptApart(st.(processed := st.processed + {k}), r) {
      assert KeptApart(st, r);
    }
  }

  lemma VisitExplained(x: Setup, st: State, a: Contact, b: Contact)
    requires Follows(x, st) && AllExplained(x, st.log) && a.id != b.id
    ensures Follows(x, Visit(st, a, b, x.opts, x.env)) && AllExplained(x, Visit(st, a, b, x.opts, x.env).log)
  {
    if !Skipped(st, a, b) {
      var st1 := st.(processed := st.processed + {Key(a.id, b.id)});
      var ev := Decide(st1, a, b, x.opts, x.env);
      DecisionExplained(x, st, a, b);
      ExplainedSnoc(x, st.log, Entry(a, b, ev));
      if ev.Merged? {
        DecideMerge(st1, a, b, x.opts, x.env);
      }
      MarkedFollows(x, st, Key(a.id, b.id));
      RecordFollows(x, st1, a, b, ev);
    }
  }

  lemma {:induction false} VisitAllExplained(x: Setup, st: State, pairs: seq<(Contact, Contact)>,
                                             contacts: seq<Contact>)
    requires Follows(x, st) && AllExplained(x, st.log) && Within(pairs, contacts)
    ensures Follows(x, VisitAll(st, pairs, x.opts, x.env)) && AllExplained(x, VisitAll(st, pairs, x.opts, x.env).log)
    decreases |pairs|
  {
    if pairs != [] {
      VisitExplained(x, st, pairs[0].0, pairs[0].1);
      assert forall i :: 0 <= i < |pairs[1..]| ==> pairs[1..][i] == pairs[i + 1];
      VisitAllExplained(x, Visit(st, pairs[0].0, pairs[0].1, x.opts, x.env), pairs[1..], contacts);
    }
  }

  function FinishOf(contacts: seq<Contact>, x: Setup): State {
    Finish(contacts, x.identities, x.ruled, x.existing, x.opts, x.env)
  }

  /**
   Main result.  Every decision of a whole sweep, dry or real and with any failures, is the one its
   classification calls for, given what the log before it has merged, ruled and filed; and the
   snapshots of identities and rulings say at the end what the log says.
   */
  lemma EveryDecisionExplained(contacts: seq<Contact>, x: Setup)
    requires DistinctIds(contacts) && Canonical(x.ruled)
    ensures var end := FinishOf(contacts, x);
            && AllExplained(x, end.log)
            && (forall id :: IdentitiesOf(end.identities, id) == HeldAfter(x, end.log, id))
            && (forall a, b :: a != b ==> (Key(a, b) in end.excluded <==> ApartNow(x, end.log, a, b)))
  {
    var st := Begin(x.ruled, x.existing, x.identities);
    BeginInv(x.ruled, x.existing, x.identities);
    forall k | k in st.excluded ensures k.lo < k.hi && ApartNow(x, st.log, k.lo, k.hi) {
      assert SameTwo(Rep(st.log, k.lo), Rep(st.log, k.hi), k.lo, k.hi);
    }
    PairsWithin(contacts, 0, 1);
    VisitAllExplained(x, st, PairsFrom(contacts, 0, 1), contacts);
    forall a, b | a != b
      ensures Key(a, b) in FinishOf(contacts, x).excluded <==> ApartNow(x, FinishOf(contacts, x).log, a, b)
    {
      ExcludedNow(x, FinishOf(contacts, x), a, b);
    }
  }

  lemma {:induction false} TasksWithinCap(x: Setup, log: seq<Entry>, n: nat)
    requires AllExplained(x, log) && n <= |log|
    ensures x.opts.noTasks ==> TasksMade(log[..n]) == 0
    ensures x.opts.maxTasks.Some? ==> TasksMade(log[..n]) <= Max(x.opts.maxTasks.value, 0)
  {
    if n > 0 {
      TasksWithinCap(x, log, n - 1);
      assert log[..n][..n - 1] == log[..n - 1];
      assert Explained(x, log[..n - 1], log[n - 1]);
    }
  }

  /** No task under `noTasks`, and never more than `maxTasks`, dry or real. */
  lemma TasksAreCapped(contacts: seq<Contact>, x: Setup)
    requires DistinctIds(contacts) && Canonical(x.ruled)
    ensures var c := FinishOf(contacts, x).counts;
            && (x.opts.noTasks ==> c.tasks + c.wouldCreate == 0)
            && (x.opts.maxTasks.Some? ==> c.tasks + c.wouldCreate <= Max(x.opts.maxTasks.value, 0))
  {
    EveryDecisionExplained(contacts, x);
    var st := FinishOf(contacts, x);
    TasksWithinCap(x, st.log, |st.log|);
    assert st.log[..|st.log|] == st.log;
    SweepIsAccounted(contacts, x.identities, x.ruled, x.existing, x.opts, x.env);
    TasksCounted(st.log);
    assert Counter(st.counts, KTask, x.opts.dryRun) == CountOf(KTask, st.log);
  }

  lemma {:induction false} TasksCounted(log: seq<Entry>)
    ensures CountOf(KTask, log) == TasksMade(log)
  {
    if log != [] {
      TasksCounted(log[..|log| - 1]);
    }
  }

  // ---------------------------------------------------------------------------------------
  // The order of the decisions
  // ---------------------------------------------------------------------------------------

  datatype Place = Place(i: nat, j: nat)

  predicate Earlier(p: Place, q: Place) {
    p.i < q.i || (p.i == q.i && p.j < q.j)
  }

  predicate StandsAt(contacts: seq<Contact>, e: Entry, p: Place) {
    p.i < p.j < |contacts| && e.a == contacts[p.i] && e.b == contacts[p.j]
  }

  predicate AllStand(contacts: seq<Contact>, log: seq<Entry>, at: seq<Place>) {
    && |at| == |log|
    && (forall k :: 0 <= k < |log| ==> StandsAt(contacts, log[k], at[k]))
    && (forall k, l :: 0 <= k < l < |log| ==> Earlier(at[k], at[l]))
  }

  predicate AllEarlier(at: seq<Place>, p: Place) {
    forall k :: 0 <= k < |at| ==> Earlier(at[k], p)
  }

  lemma StandSnoc(contacts: seq<Contact>, log: seq<Entry>, at: seq<Place>, e: Entry, p: Place)
    requires AllStand(contacts, log, at) && AllEarlier(at, p) && StandsAt(contacts, e, p)
    ensures AllStand(contacts, log + [e], at + [p])
  {}

  lemma LaterStill(at: seq<Place>, p: Place, q: Place)
    requires AllEarlier(at, p) && Earlier(p, q)
    ensures AllEarlier(at, q) && AllEarlier(at + [p], q)
  {}

  lemma VisitStands(x: Setup, st: State, contacts: seq<Contact>, p: Place, at: seq<Place>) returns (at': seq<Place>)
    requires AllStand(contacts, st.log, at) && AllEarlier(at, p) && p.i < p.j < |contacts|
    ensures AllStand(contacts, Visit(st, contacts[p.i], contacts[p.j], x.opts, x.env).log, at')
    ensures AllEarlier(at', Place(p.i, p.j + 1))
  {
    var a, b := contacts[p.i], contacts[p.j];
    LaterStill(at, p, Place(p.i, p.j + 1));
    if Skipped(st, a, b) {
      at' := at;
    } else {
      at' := at + [p];
      var st1 := st.(processed := st.processed + {Key(a.id, b.id)});
      StandSnoc(contacts, st.log, at, Entry(a, b, Decide(st1, a, b, x.opts, x.env)), p);
    }
  }

  lemma {:induction false} VisitsInOrder(x: Setup, st: State, contacts: seq<Contact>, p: Place, at: seq<Place>)
    returns (at': seq<Place>)
    requires AllStand(contacts, st.log, at) && AllEarlier(at, p) && p.i <= |contacts| && p.i < p.j
    ensures AllStand(contacts, VisitAll(st, PairsFrom(contacts, p.i, p.j), x.opts, x.env).log, at')
    decreases |contacts| - p.i, |contacts| - p.j
  {
    if p.i == |contacts| {
      at' := at;
    } else if p.j >= |contacts| {
      at' := VisitsInOrder(x, st, contacts, Place(p.i + 1, p.i + 2), at);
    } else {
      var a, b := contacts[p.i], contacts[p.j];
      var mid := VisitStands(x, st, contacts, p, at);
      assert PairsFrom(contacts, p.i, p.j)[1..] == PairsFrom(contacts, p.i, p.j + 1);
      at' := VisitsInOrder(x, Visit(st, a, b, x.opts, x.env), contacts, Place(p.i, p.j + 1), mid);
    }
  }

  /** Decisions are taken in the order of the contacts, first index before second, and none twice. */
  lemma DecidedInOrder(contacts: seq<Contact>, x: Setup)
    ensures exists at :: AllStand(contacts, FinishOf(contacts, x).log, at)
  {
    var at := VisitsInOrder(x, Begin(x.ruled, x.existing, x.identities), contacts, Place(0, 1), []);
    assert AllStand(contacts, FinishOf(contacts, x).log, at);
  }

  /** A failed load aborts before any decision; fewer than two contacts are not looked at. */
  lemma LoadsFailClosed(contacts: seq<Contact>, identities: IdentityMap, excluded: Result<set<Pair>, string>,
                        existing: Result<set<Pair>, string>, opts: Options, env: Env)
    ensures var r := Sweep(contacts, identities, excluded, existing, opts, env);
            && (r.Err? <==> |contacts| >= 2 && (excluded.Err? || existing.Err?))
            && (r.Ok? && |contacts| < 2 ==> r.value.log == [] && r.value.identities == identities)
            && (r.Ok? && |contacts| >= 2 ==>
                  r.value == FinishOf(contacts, Setup(identities, excluded.value, existing.value, opts, env)))
  {}
}
