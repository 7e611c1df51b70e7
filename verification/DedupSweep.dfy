/**
 The contact de-duplication sweep.  Contacts carry canonical (lower-case) ids, compared by their
 order; the classifier is an arbitrary function that may fail, and so may each merge and task.
 */
module DedupSweep {
  import opened Common

  type Id = nat

  datatype Contact = Contact(id: Id, name: string, hasNode: bool, isPrincipal: bool)

  datatype Identity = Identity(channel: string, identifier: string, verified: bool)

  type IdentityMap = map<Id, seq<Identity>>

  /** An unordered pair of ids, as `canonicalPairKey` writes it. */
  datatype Pair = Pair(lo: Id, hi: Id)

  function Key(a: Id, b: Id): Pair {
    if a < b then Pair(a, b) else Pair(b, a)
  }

  /** What `classifyPair` says; `Throws` is an error inside it. */
  datatype Classification = Unrelated | Structural | Fuzzy(score: real) | Throws

  datatype Options = Options(dryRun: bool, minScore: Option<real>, maxScore: Option<real>, maxTasks: Option<int>,
                             noTasks: bool)

  /** The callbacks: the classifier, and whether a merge or a task creation succeeds. */
  datatype Env = Env(
    classify: (Contact, seq<Identity>, Contact, seq<Identity>) -> Classification,
    mergeOk: (Id, Id) -> bool,
    taskOk: (Id, Id) -> bool)

  datatype Counts = Counts(merged: nat, tasks: nat, excluded: nat, existing: nat, principal: nat, wouldMerge: nat,
                           wouldCreate: nat, lowScore: nat, aboveMax: nat, suppressed: nat, errors: nat)

  const NO_COUNTS := Counts(0, 0, 0, 0, 0, 0, 0, 0, 0, 0, 0)

  /** How one visited pair was decided. `guarded` marks a structural pair withheld for the principal. */
  datatype Event =
    | Ignored | ClassifyFailed | Excluded
    | Merged(primary: Id, secondary: Id) | MergeFailed
    | LowScore | AboveMax
    | AlreadyFiled(guarded: bool) | Suppressed(guarded: bool) | TaskMade(guarded: bool) | TaskFailed(guarded: bool)

  datatype Entry = Entry(a: Contact, b: Contact, event: Event)

  /** The sweep's whole state, with the history of decisions. */
  datatype State = State(counts: Counts, excluded: set<Pair>, existing: set<Pair>, processed: set<Pair>,
                         mergedAway: set<Id>, identities: IdentityMap, log: seq<Entry>)

  function IdentitiesOf(m: IdentityMap, id: Id): seq<Identity> {
    if id in m then m[id] else []
  }

  /** The survivor is the side with a graph node when only one has one, else the lower id. */
  function Survivor(a: Contact, b: Contact): (Id, Id) {
    if a.hasNode != b.hasNode then (if a.hasNode then (a.id, b.id) else (b.id, a.id))
    else if a.id < b.id then (a.id, b.id) else (b.id, a.id)
  }

  function ClassifyIn(st: State, a: Contact, b: Contact, env: Env): Classification {
    env.classify(a, IdentitiesOf(st.identities, a.id), b, IdentitiesOf(st.identities, b.id))
  }

  /** The non-merging branch: the score band, then open tasks, then the cap. */
  function DecideTask(st: State, a: Contact, b: Contact, c: Classification, opts: Options, env: Env): Event {
    if c.Fuzzy? && opts.minScore.Some? && c.score < opts.minScore.value then LowScore
    else if c.Fuzzy? && opts.maxScore.Some? && c.score >= opts.maxScore.value then AboveMax
    else if Key(a.id, b.id) in st.existing then AlreadyFiled(c.Structural?)
    else
      var acted := if opts.dryRun then st.counts.wouldCreate else st.counts.tasks;
      if opts.noTasks || (opts.maxTasks.Some? && acted >= opts.maxTasks.value) then Suppressed(c.Structural?)
      else if opts.dryRun || env.taskOk(a.id, b.id) then TaskMade(c.Structural?)
      else TaskFailed(c.Structural?)
  }

  function Decide(st: State, a: Contact, b: Contact, opts: Options, env: Env): Event {
    var c := ClassifyIn(st, a, b, env);
    if c.Throws? then ClassifyFailed
    else if c.Unrelated? then Ignored
    else if Key(a.id, b.id) in st.excluded then Excluded
    else if c.Structural? && !a.isPrincipal && !b.isPrincipal then
      var (p, s) := Survivor(a, b);
      if opts.dryRun || env.mergeOk(p, s) then Merged(p, s) else MergeFailed
    else DecideTask(st, a, b, c, opts, env)
  }

  predicate Touches(k: Pair, id: Id) {
    k.lo == id || k.hi == id
  }

  function Other(k: Pair, id: Id): Id {
    if k.lo == id then k.hi else k.lo
  }

  /** The exclusions after `secondary` became `primary`: re-pointed, except the pair itself. */
  function Reattached(excluded: set<Pair>, primary: Id, secondary: Id): set<Pair> {
    (set k | k in excluded && !Touches(k, secondary))
    + (set k | k in excluded && Touches(k, secondary) && Other(k, secondary) != primary ::
       Key(primary, Other(k, secondary)))
  }

  /** Where one exclusion goes. */
  function Moved(k: Pair, primary: Id, secondary: Id): set<Pair> {
    if !Touches(k, secondary) then {k}
    else if Other(k, secondary) != primary then {Key(primary, Other(k, secondary))}
    else {}
  }

  lemma ReattachedHas(excluded: set<Pair>, primary: Id, secondary: Id, x: Pair)
    ensures x in Reattached(excluded, primary, secondary)
            <==> exists k :: k in excluded && x in Moved(k, primary, secondary)
  {
    if x in Reattached(excluded, primary, secondary) {
      if x in excluded && !Touches(x, secondary) {
        assert x in Moved(x, primary, secondary);
      } else {
        var k :| k in excluded && Touches(k, secondary) && Other(k, secondary) != primary
            && Key(primary, Other(k, secondary)) == x;
        assert x in Moved(k, primary, secondary);
      }
    }
  }

  lemma ReattachedAdd(done: set<Pair>, k: Pair, primary: Id, secondary: Id)
    ensures Reattached(done + {k}, primary, secondary)
            == Reattached(done, primary, secondary) + Moved(k, primary, secondary)
  {
    forall x
      ensures x in Reattached(done + {k}, primary, secondary)
         <==> x in Reattached(done, primary, secondary) + Moved(k, primary, secondary)
    {
      ReattachedHas(done + {k}, primary, secondary, x);
      ReattachedHas(done, primary, secondary, x);
    }
  }

  /** A pair of the secondary's that is not there yet does not come in by re-pointing another. */
  lemma NotReattached(done: set<Pair>, k: Pair, primary: Id, secondary: Id)
    requires primary != secondary && Canonical(done) && k !in done && Touches(k, secondary)
    ensures k !in Reattached(done, primary, secondary)
  {
    forall d | d in done && Touches(d, secondary) && Other(d, secondary) != primary
      ensures Key(primary, Other(d, secondary)) != k
    {
      assert !Touches(Key(primary, Other(d, secondary)), secondary);
    }
  }

  function MoveIdentities(m: IdentityMap, primary: Id, secondary: Id): IdentityMap {
    m[primary := IdentitiesOf(m, primary) + IdentitiesOf(m, secondary)] - {secondary}
  }

  function Tick(c: Counts, ev: Event, dryRun: bool): Counts {
    var g := if (ev.AlreadyFiled? || ev.Suppressed? || ev.TaskMade? || ev.TaskFailed?) && ev.guarded
             then c.(principal := c.principal + 1) else c;
    match ev
    case Ignored => g
    case ClassifyFailed => g.(errors := g.errors + 1)
    case Excluded => g.(excluded := g.excluded + 1)
    case Merged(_, _) => if dryRun then g.(wouldMerge := g.wouldMerge + 1) else g.(merged := g.merged + 1)
    case MergeFailed => g.(errors := g.errors + 1)
    case LowScore => g.(lowScore := g.lowScore + 1)
    case AboveMax => g.(aboveMax := g.aboveMax + 1)
    case AlreadyFiled(_) => g.(existing := g.existing + 1)
    case Suppressed(_) => g.(suppressed := g.suppressed + 1)
    case TaskMade(_) => if dryRun then g.(wouldCreate := g.wouldCreate + 1) else g.(tasks := g.tasks + 1)
    case TaskFailed(_) => g.(errors := g.errors + 1)
  }

  function Record(st: State, a: Contact, b: Contact, ev: Event, dryRun: bool): State {
    var st' := st.(counts := Tick(st.counts, ev, dryRun), log := st.log + [Entry(a, b, ev)]);
    match ev
    case Merged(p, s) =>
      st'.(mergedAway := st.mergedAway + {s},
           excluded := Reattached(st.excluded, p, s),
           identities := if dryRun then st.identities else MoveIdentities(st.identities, p, s))
    case TaskMade(_) =>
      if dryRun then st' else st'.(existing := st.existing + {Key(a.id, b.id)})
    case _ => st'
  }

  predicate Skipped(st: State, a: Contact, b: Contact) {
    a.id in st.mergedAway || b.id in st.mergedAway || Key(a.id, b.id) in st.processed
  }

  function Visit(st: State, a: Contact, b: Contact, opts: Options, env: Env): State {
    if Skipped(st, a, b) then st
    else
      var st' := st.(processed := st.processed + {Key(a.id, b.id)});
      Record(st', a, b, Decide(st', a, b, opts, env), opts.dryRun)
  }

  function VisitAll(st: State, pairs: seq<(Contact, Contact)>, opts: Options, env: Env): State
    decreases |pairs|
  {
    if pairs == [] then st else VisitAll(Visit(st, pairs[0].0, pairs[0].1, opts, env), pairs[1..], opts, env)
  }

  /** The pairs the two index loops still have to visit from position (i, j). */
  function PairsFrom(contacts: seq<Contact>, i: nat, j: nat): seq<(Contact, Contact)>
    requires i <= |contacts|
    decreases |contacts| - i, |contacts| - j
  {
    if i == |contacts| then []
    else if j >= |contacts| then PairsFrom(contacts, i + 1, i + 2)
    else [(contacts[i], contacts[j])] + PairsFrom(contacts, i, j + 1)
  }

  function Begin(excluded: set<Pair>, existing: set<Pair>, identities: IdentityMap): State {
    State(NO_COUNTS, excluded, existing, {}, {}, identities, [])
  }

  /** The state after every pair has been visited. */
  function Finish(contacts: seq<Contact>, identities: IdentityMap, ruled: set<Pair>, existing: set<Pair>,
                  opts: Options, env: Env): State
  {
    VisitAll(Begin(ruled, existing, identities), PairsFrom(contacts, 0, 1), opts, env)
  }

  /** The whole sweep: a failed load aborts it, and fewer than two contacts are not looked at. */
  function Sweep(contacts: seq<Contact>, identities: IdentityMap, excluded: Result<set<Pair>, string>,
                 existing: Result<set<Pair>, string>, opts: Options, env: Env): Result<State, string> {
    if |contacts| < 2 then Ok(Begin({}, {}, identities))
    else
      match (excluded, existing)
      case (Err(e), _) => Err(e)
      case (_, Err(e)) => Err(e)
      case (Ok(x), Ok(y)) => Ok(Finish(contacts, identities, x, y, opts, env))
  }

  predicate Canonical(excluded: set<Pair>) {
    forall k :: k in excluded ==> k.lo < k.hi
  }

  /** The running sweep: the counters and sets `runDedup` updates in place. */
  class DedupRun {
    const opts: Options
    const env: Env
    var counts: Counts
    var excludedPairKeys: set<Pair>
    var existingPairKeys: set<Pair>
    var processedPairs: set<Pair>
    var mergedAwayIds: set<Id>
    var identityMap: IdentityMap
    ghost var log: seq<Entry>

    ghost function View(): State
      reads this
    {
      State(counts, excludedPairKeys, existingPairKeys, processedPairs, mergedAwayIds, identityMap, log)
    }

    constructor (opts: Options, env: Env, excluded: set<Pair>, existing: set<Pair>, identities: IdentityMap)
      ensures View() == Begin(excluded, existing, identities)
      ensures this.opts == opts && this.env == env
    {
      this.opts, this.env := opts, env;
      counts := NO_COUNTS;
      excludedPairKeys, existingPairKeys, processedPairs, mergedAwayIds := excluded, existing, {}, {};
      identityMap, log := identities, [];
    }

    method ReattachExclusionsInSnapshot(primary: Id, secondary: Id)
      requires primary != secondary && Canonical(excludedPairKeys)
      modifies this`excludedPairKeys
      ensures excludedPairKeys == Reattached(old(excludedPairKeys), primary, secondary)
    {
      ghost var before := excludedPairKeys;
      var todo := excludedPairKeys;
      ghost var done: set<Pair> := {};
      while todo != {}
        invariant before == done + todo && done !! todo
        invariant excludedPairKeys == Reattached(done, primary, secondary) + todo
        decreases todo
      {
        var k :| k in todo;
        todo := todo - {k};
        ghost var was := done;
        done := done + {k};
        if Touches(k, secondary) {
          excludedPairKeys := excludedPairKeys - {k};
          var other := Other(k, secondary);
          if other != primary {
            excludedPairKeys := excludedPairKeys + {Key(primary, other)};
          }
        }
        ReattachedStep(was, todo, k, primary, secondary);
      }
      assert done == before;
    }

    lemma ReattachedStep(done: set<Pair>, todo: set<Pair>, k: Pair, primary: Id, secondary: Id)
      requires primary != secondary && Canonical(done) && k !in todo && k !in done
      ensures !Touches(k, secondary) ==>
                Reattached(done + {k}, primary, secondary) + todo == Reattached(done, primary, secondary) + (todo + {k})
      ensures Touches(k, secondary) ==>
                Reattached(done + {k}, primary, secondary) + todo
                == (Reattached(done, primary, secondary) + (todo + {k})) - {k}
                   + (if Other(k, secondary) != primary then {Key(primary, Other(k, secondary))} else {})
    {
      ReattachedAdd(done, k, primary, secondary);
      if Touches(k, secondary) {
        NotReattached(done, k, primary, secondary);
      }
    }

    /** One pair of the inner loop; an early return is a `continue` there. */
    method VisitPair(a: Contact, b: Contact)
      requires Canonical(excludedPairKeys) && a.id != b.id
      modifies this
      ensures View() == Visit(old(View()), a, b, opts, env)
      ensures Canonical(excludedPairKeys)
    {
      if a.id in mergedAwayIds || b.id in mergedAwayIds {
        return;
      }
      var key := Key(a.id, b.id);
      if key in processedPairs {
        return;
      }
      processedPairs := processedPairs + {key};
      ghost var st := View();
      ghost var ev := Decide(st, a, b, opts, env);
      log := log + [Entry(a, b, ev)];
      var classification := env.classify(a, IdentitiesOf(identityMap, a.id), b, IdentitiesOf(identityMap, b.id));
      if classification.Throws? {
        counts := counts.(errors := counts.errors + 1);
        return;
      }
      if classification.Unrelated? {
        return;
      }
      if key in excludedPairKeys {
        counts := counts.(excluded := counts.excluded + 1);
        return;
      }
      if classification.Structural? && !(a.isPrincipal || b.isPrincipal) {
        MergePair(a, b);
      } else {
        FileTask(a, b, classification);
      }
    }

    method MergePair(a: Contact, b: Contact)
      requires Canonical(excludedPairKeys) && a.id != b.id
      modifies this`counts, this`excludedPairKeys, this`mergedAwayIds, this`identityMap
      ensures var (p, s) := Survivor(a, b);
              var ev := if opts.dryRun || env.mergeOk(p, s) then Merged(p, s) else MergeFailed;
              View() == Record(old(View()), a, b, ev, opts.dryRun).(log := old(log))
      ensures Canonical(excludedPairKeys)
    {
      var (primaryId, secondaryId) := Survivor(a, b);
      if opts.dryRun {
        counts := counts.(wouldMerge := counts.wouldMerge + 1);
        mergedAwayIds := mergedAwayIds + {secondaryId};
        ReattachExclusionsInSnapshot(primaryId, secondaryId);
        ReattachedCanonical(old(excludedPairKeys), primaryId, secondaryId);
        return;
      }
      if env.mergeOk(primaryId, secondaryId) {
        counts := counts.(merged := counts.merged + 1);
        mergedAwayIds := mergedAwayIds + {secondaryId};
        var mergedIdentities := IdentitiesOf(identityMap, primaryId) + IdentitiesOf(identityMap, secondaryId);
        identityMap := identityMap[primaryId := mergedIdentities];
        identityMap := identityMap - {secondaryId};
        ReattachExclusionsInSnapshot(primaryId, secondaryId);
        ReattachedCanonical(old(excludedPairKeys), primaryId, secondaryId);
      } else {
        counts := counts.(errors := counts.errors + 1);
      }
    }

    method FileTask(a: Contact, b: Contact, c: Classification)
      requires !c.Throws? && !c.Unrelated?
      modifies this`counts, this`existingPairKeys
      ensures View() == Record(old(View()), a, b, DecideTask(old(View()), a, b, c, opts, env),
                               opts.dryRun).(log := old(log))
    {
      if c.Fuzzy? && opts.minScore.Some? && c.score < opts.minScore.value {
        counts := counts.(lowScore := counts.lowScore + 1);
        return;
      }
      if c.Fuzzy? && opts.maxScore.Some? && c.score >= opts.maxScore.value {
        counts := counts.(aboveMax := counts.aboveMax + 1);
        return;
      }
      if c.Structural? {
        counts := counts.(principal := counts.principal + 1);
      }
      if Key(a.id, b.id) in existingPairKeys {
        counts := counts.(existing := counts.existing + 1);
        return;
      }
      var tasksActedOn := if opts.dryRun then counts.wouldCreate else counts.tasks;
      if opts.noTasks || (opts.maxTasks.Some? && tasksActedOn >= opts.maxTasks.value) {
        counts := counts.(suppressed := counts.suppressed + 1);
        return;
      }
      if opts.dryRun {
        counts := counts.(wouldCreate := counts.wouldCreate + 1);
        return;
      }
      if env.taskOk(a.id, b.id) {
        counts := counts.(tasks := counts.tasks + 1);
        existingPairKeys := existingPairKeys + {Key(a.id, b.id)};
      } else {
        counts := counts.(errors := counts.errors + 1);
      }
    }

    /** The nested index loops. */
    method Run(contacts: seq<Contact>)
      requires Canonical(excludedPairKeys)
      requires forall i, j :: 0 <= i < j < |contacts| ==> contacts[i].id != contacts[j].id
      modifies this
      ensures View() == VisitAll(old(View()), PairsFrom(contacts, 0, 1), opts, env)
    {
      ghost var start := View();
      ghost var goal := VisitAll(start, PairsFrom(contacts, 0, 1), opts, env);
      for i := 0 to |contacts|
        invariant Canonical(excludedPairKeys)
        invariant VisitAll(View(), PairsFrom(contacts, i, i + 1), opts, env) == goal
      {
        var j := i + 1;
        while j < |contacts|
          invariant i + 1 <= j <= |contacts|
          invariant Canonical(excludedPairKeys)
          invariant VisitAll(View(), PairsFrom(contacts, i, j), opts, env) == goal
        {
          ghost var rest := PairsFrom(contacts, i, j);
          assert rest[0] == (contacts[i], contacts[j]) && rest[1..] == PairsFrom(contacts, i, j + 1);
          VisitPair(contacts[i], contacts[j]);
          j := j + 1;
        }
      }
    }
  }

  lemma ReattachedCanonical(excluded: set<Pair>, primary: Id, secondary: Id)
    requires Canonical(excluded) && primary != secondary
    ensures Canonical(Reattached(excluded, primary, secondary))
  {}

  method RunDedup(contacts: seq<Contact>, identities: IdentityMap, excluded: Result<set<Pair>, string>,
                  existing: Result<set<Pair>, string>, opts: Options, env: Env)
    returns (r: Result<(Counts, IdentityMap), string>)
    requires excluded.Ok? ==> Canonical(excluded.value)
    requires forall i, j :: 0 <= i < j < |contacts| ==> contacts[i].id != contacts[j].id
    ensures match Sweep(contacts, identities, excluded, existing, opts, env)
            case Err(e) => r == Err(e)
            case Ok(st) => r == Ok((st.counts, st.identities))
  {
    if |contacts| < 2 {
      return Ok((NO_COUNTS, identities));
    }
    if excluded.Err? {
      return Err(excluded.error);
    }
    if existing.Err? {
      return Err(existing.error);
    }
    var run := new DedupRun(opts, env, excluded.value, existing.value, identities);
    run.Run(contacts);
    return Ok((run.counts, run.identityMap));
  }
}
