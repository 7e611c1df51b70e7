/** The principal's identities held in memory, and the generation guard that keeps overlapping refreshes safe. */
module IdentityRefresh {
  import opened Common

  datatype Identity = Identity(channel: string, identifier: string, verified: bool, active: bool)

  /** A contact row with its identities; `profile` stands for the name, title and pronouns. */
  datatype Contact = Contact(identities: seq<Identity>, primaryEmail: Option<string>, profile: string)

  /** The shared array and the three `.current` holders. */
  datatype Holders = Holders(identities: seq<Identity>, email: string, primaryEmail: Option<string>,
                             profile: Option<string>)

  const CLEARED := Holders([], "", None, None)

  function FirstEmail(identities: seq<Identity>): string {
    if identities == [] then ""
    else if identities[0].channel == "email" then identities[0].identifier
    else FirstEmail(identities[1..])
  }

  predicate Usable(id: Identity) {
    id.verified && id.active
  }

  /** What one read of the database puts into the holders; the contact may have gone. */
  function HoldersOf(db: Option<Contact>): Holders {
    match db
    case None => CLEARED
    case Some(c) =>
      var identities := Filter(Usable, c.identities);
      Holders(identities, FirstEmail(identities), c.primaryEmail, Some(c.profile))
  }

  // ---------------------------------------------------------------------------------------
  // The holders in memory
  // ---------------------------------------------------------------------------------------

  class PrincipalCache {
    var refreshGeneration: nat
    var principalIdentities: seq<Identity>
    var principalEmail: string
    var principalPrimaryEmail: Option<string>
    var principalProfile: Option<string>

    constructor ()
      ensures Current() == CLEARED && refreshGeneration == 0
    {
      refreshGeneration := 0;
      principalIdentities, principalEmail, principalPrimaryEmail, principalProfile := [], "", None, None;
    }

    function Current(): Holders
      reads this
    {
      Holders(principalIdentities, principalEmail, principalPrimaryEmail, principalProfile)
    }

    /** Up to the `await`: claim a generation, or clear everything when there is no principal. */
    method BeginRefresh(hasPrincipal: bool) returns (myGeneration: Option<nat>)
      modifies this
      ensures refreshGeneration == old(refreshGeneration) + (if hasPrincipal then 1 else 0)
      ensures myGeneration == if hasPrincipal then Some(refreshGeneration) else None
      ensures Current() == if hasPrincipal then old(Current()) else CLEARED
    {
      if !hasPrincipal {
        principalIdentities, principalEmail, principalPrimaryEmail, principalProfile := [], "", None, None;
        return None;
      }
      refreshGeneration := refreshGeneration + 1;
      return Some(refreshGeneration);
    }

    /** After the `await`: install the snapshot unless a newer refresh has started. */
    method FinishRefresh(myGeneration: nat, db: Option<Contact>) returns (installed: bool)
      modifies this
      ensures refreshGeneration == old(refreshGeneration)
      ensures installed <==> myGeneration == refreshGeneration
      ensures Current() == if installed then HoldersOf(db) else old(Current())
    {
      if myGeneration != refreshGeneration {
        return false;
      }
      principalIdentities := match db case None => [] case Some(c) => Filter(Usable, c.identities);
      principalEmail := FirstEmail(principalIdentities);
      principalPrimaryEmail := match db case None => None case Some(c) => c.primaryEmail;
      principalProfile := match db case None => None case Some(c) => Some(c.profile);
      return true;
    }
  }

  // ---------------------------------------------------------------------------------------
  // Interleavings
  // ---------------------------------------------------------------------------------------

  /** What a refresh has read: the rows, and how many mutations had been committed by then. */
  datatype Read = Read(db: Option<Contact>, version: nat)

  type History = h: seq<Option<Contact>> | h != [] witness [None]

  /**
   Every state the database has been in, the cache, and the refreshes under way; `installed` is the
   read the holders come from.
   */
  datatype World = World(
    history: History,
    generation: nat,
    inFlight: map<nat, Option<Read>>,
    holders: Holders,
    installedBy: nat,
    installed: Option<Read>)
  {
    /** How many mutations have been committed. */
    function Version(): nat {
      |history| - 1
    }

    function Db(): Option<Contact> {
      history[Version()]
    }
  }

  datatype Event =
    | Mutate(db: Option<Contact>)
    | Start
    | ReadDone(gen: nat)
    | ReadFailed(gen: nat)
    | Finish(gen: nat)

  predicate Enabled(w: World, ev: Event) {
    match ev
    case Mutate(_) => true
    case Start => true
    case ReadDone(g) => g in w.inFlight && w.inFlight[g].None?
    case ReadFailed(g) => g in w.inFlight && w.inFlight[g].None?
    case Finish(g) => g in w.inFlight && w.inFlight[g].Some?
  }

  function Step(w: World, ev: Event): World
    requires Enabled(w, ev)
  {
    match ev
    case Mutate(db) => w.(history := w.history + [db])
    case Start => w.(generation := w.generation + 1, inFlight := w.inFlight[w.generation + 1 := None])
    case ReadDone(g) => w.(inFlight := w.inFlight[g := Some(Read(w.Db(), w.Version()))])
    case ReadFailed(g) => w.(inFlight := w.inFlight - {g})
    case Finish(g) =>
      var read := w.inFlight[g].value;
      var w' := w.(inFlight := w.inFlight - {g});
      if g == w.generation then w'.(holders := HoldersOf(read.db), installedBy := g, installed := Some(read)) else w'
  }

  function Boot(db: Option<Contact>): World {
    World([db], 0, map[], CLEARED, 0, None)
  }

  predicate Runnable(w: World, events: seq<Event>)
    decreases |events|
  {
    events == [] || (Enabled(w, events[0]) && Runnable(Step(w, events[0]), events[1..]))
  }

  function After(w: World, events: seq<Event>): World
    requires Runnable(w, events)
    decreases |events|
  {
    if events == [] then w else After(Step(w, events[0]), events[1..])
  }

  lemma {:induction false} AfterAppend(w: World, a: seq<Event>, b: seq<Event>)
    requires Runnable(w, a + b)
    ensures Runnable(w, a) && Runnable(After(w, a), b) && After(w, a + b) == After(After(w, a), b)
    decreases |a|
  {
    if a == [] {
      assert a + b == b;
    } else {
      assert (a + b)[0] == a[0] && (a + b)[1..] == a[1..] + b;
      AfterAppend(Step(w, a[0]), a[1..], b);
    }
  }

  /** The cache object in step with a world. */
  predicate Mirrors(cache: PrincipalCache, w: World)
    reads cache
  {
    cache.refreshGeneration == w.generation && cache.Current() == w.holders
  }

  /** One event, carried out on the object: a refresh begins or finishes, or the world moves without it. */
  method Perform(cache: PrincipalCache, w: World, ev: Event)
    requires Enabled(w, ev) && Mirrors(cache, w)
    modifies cache
    ensures Mirrors(cache, Step(w, ev))
  {
    match ev {
      case Start =>
        var _ := cache.BeginRefresh(true);
      case Finish(g) =>
        var _ := cache.FinishRefresh(g, w.inFlight[g].value.db);
      case _ =>
    }
  }

  /** Every interleaving, carried out on the object: its holders are those of the world. */
  method Replay(db: Option<Contact>, events: seq<Event>) returns (cache: PrincipalCache)
    requires Runnable(Boot(db), events)
    ensures fresh(cache) && Mirrors(cache, After(Boot(db), events))
  {
    cache := new PrincipalCache();
    var w := Boot(db);
    for i := 0 to |events|
      invariant Runnable(w, events[i..]) && After(w, events[i..]) == After(Boot(db), events)
      invariant fresh(cache) && Mirrors(cache, w)
    {
      assert events[i..][0] == events[i] && events[i..][1..] == events[i + 1..];
      Perform(cache, w, events[i]);
      w := Step(w, events[i]);
    }
  }

  // ---------------------------------------------------------------------------------------
  // What every interleaving keeps
  // ---------------------------------------------------------------------------------------

  /** A read is of one state the database was in. */
  predicate Truthful(w: World, r: Read) {
    r.version < |w.history| && r.db == w.history[r.version]
  }

  /** Reads still to be installed are no older than what is installed. */
  predicate Fresh(w: World, r: Read) {
    w.installed.Some? ==> w.installed.value.version <= r.version
  }

  predicate Inv(w: World) {
    && w.installedBy <= w.generation
    && (forall g :: g in w.inFlight ==> g <= w.generation)
    && (forall g :: g in w.inFlight && w.inFlight[g].Some? ==> Truthful(w, w.inFlight[g].value))
    && (w.installed.Some? ==> Truthful(w, w.installed.value) && w.holders == HoldersOf(w.installed.value.db))
    && (w.installed.None? ==> w.holders == CLEARED)
    && (w.installedBy == w.generation ==> w.generation !in w.inFlight)
    && (w.generation in w.inFlight && w.inFlight[w.generation].Some? ==> Fresh(w, w.inFlight[w.generation].value))
  }

  lemma BootInv(db: Option<Contact>)
    ensures Inv(Boot(db))
  {}

  /** One step: the holders still come from one read, and neither generation nor version goes back. */
  lemma StepKeeps(w: World, ev: Event)
    requires Inv(w) && Enabled(w, ev)
    ensures Inv(Step(w, ev)) && Later(w, Step(w, ev))
  {}

  /** The installed snapshot of `b` is that of `a` or one of a newer refresh and no earlier a database. */
  predicate Later(a: World, b: World) {
    && a.generation <= b.generation && a.history <= b.history && a.installedBy <= b.installedBy
    && (a.installedBy == b.installedBy ==> a.holders == b.holders && a.installed == b.installed)
    && (a.installed.Some? ==> b.installed.Some? && a.installed.value.version <= b.installed.value.version)
  }

  /** In every interleaving the cache only ever moves forward, and always shows one read as a whole. */
  lemma {:induction false} CacheNeverGoesBack(w: World, events: seq<Event>)
    requires Inv(w) && Runnable(w, events)
    ensures Inv(After(w, events)) && Later(w, After(w, events))
    decreases |events|
  {
    if events != [] {
      StepKeeps(w, events[0]);
      CacheNeverGoesBack(Step(w, events[0]), events[1..]);
    }
  }

  // ---------------------------------------------------------------------------------------
  // Catching up
  // ---------------------------------------------------------------------------------------

  predicate NoMutation(events: seq<Event>) {
    forall i :: 0 <= i < |events| ==> !events[i].Mutate?
  }

  /** Everything the newest refresh has read, in flight or installed, is the present database. */
  predicate NewestIsCurrent(w: World) {
    && (w.generation in w.inFlight && w.inFlight[w.generation].Some? ==> w.inFlight[w.generation].value.db == w.Db())
    && (w.installedBy == w.generation ==> w.installed.Some? && w.installed.value.db == w.Db())
  }

  /** Refresh `g` has not started, is under way, or has been installed. */
  predicate Hopeful(w: World, g: nat) {
    g > w.generation || w.installedBy == g || g in w.inFlight
  }

  lemma HopeStep(w: World, ev: Event, g: nat)
    requires Inv(w) && Enabled(w, ev) && g >= Step(w, ev).generation
    ensures Hopeful(Step(w, ev), g) <==> Hopeful(w, g) && ev != ReadFailed(g)
  {}

  /** Once everything has settled, what is installed is the newest refresh exactly if its own read did not fail. */
  lemma {:induction false} SettledIsNewest(w: World, events: seq<Event>)
    requires Inv(w) && Runnable(w, events) && After(w, events).inFlight == map[]
    ensures var end := After(w, events);
            end.installedBy == end.generation <==> Hopeful(w, end.generation) && ReadFailed(end.generation) !in events
    decreases |events|
  {
    if events != [] {
      var w', rest := Step(w, events[0]), events[1..];
      StepKeeps(w, events[0]);
      SettledIsNewest(w', rest);
      CacheNeverGoesBack(w', rest);
      HopeStep(w, events[0], After(w, events).generation);
      assert events == [events[0]] + rest;
    }
  }

  lemma CurrentStep(w: World, ev: Event)
    requires Inv(w) && Enabled(w, ev) && !ev.Mutate? && NewestIsCurrent(w)
    ensures NewestIsCurrent(Step(w, ev))
  {}

  lemma {:induction false} CurrentStaysCurrent(w: World, events: seq<Event>)
    requires Inv(w) && Runnable(w, events) && NoMutation(events) && NewestIsCurrent(w)
    ensures NewestIsCurrent(After(w, events))
    decreases |events|
  {
    if events != [] {
      StepKeeps(w, events[0]);
      CurrentStep(w, events[0]);
      assert forall i :: 0 <= i < |events[1..]| ==> events[1..][i] == events[i + 1];
      CurrentStaysCurrent(Step(w, events[0]), events[1..]);
    }
  }

  /**
   After the last mutation a refresh starts, and everything settles: the newest refresh is the one
   installed if and only if its own read did not fail, whatever became of the others, and then the
   holders show the database.
   */
  lemma CacheCatchesUp(w: World, before: seq<Event>, after: seq<Event>)
    requires Inv(w) && Runnable(w, before + ([Start] + after)) && NoMutation(after)
    requires After(w, before + ([Start] + after)).inFlight == map[]
    ensures var end := After(w, before + ([Start] + after));
            && (end.installedBy == end.generation <==> ReadFailed(end.generation) !in after)
            && (end.installedBy == end.generation ==> end.holders == HoldersOf(end.Db()))
  {
    AfterAppend(w, before, [Start] + after);
    CacheNeverGoesBack(w, before);
    var mid := After(w, before);
    assert ([Start] + after)[1..] == after;
    var started := Step(mid, Start);
    StepKeeps(mid, Start);
    CurrentStaysCurrent(started, after);
    CacheNeverGoesBack(started, after);
    SettledIsNewest(started, after);
  }

  /**
   On the trace alone, from generation `gen` on: some refresh in `read`, or one that reads along the
   trace, finishes before another starts.
   */
  predicate Lands(gen: nat, read: set<nat>, events: seq<Event>)
    decreases |events|
  {
    events != []
    && match events[0]
       case Start => Lands(gen + 1, read, events[1..])
       case ReadDone(g) => Lands(gen, read + {g}, events[1..])
       case Finish(g) => (g == gen && g in read) || Lands(gen, read, events[1..])
       case _ => Lands(gen, read, events[1..])
  }

  /** What is installed was read after the last mutation. */
  predicate Caught(w: World) {
    w.installed.Some? && w.installed.value.version == w.Version()
  }

  /** `read` holds the refreshes under way that have read since the last mutation. */
  predicate ReadSince(w: World, read: set<nat>) {
    && (forall g :: g in read ==> g <= w.generation)
    && (forall g :: g in w.inFlight ==>
          (g in read <==> w.inFlight[g].Some? && w.inFlight[g].value.version == w.Version()))
  }

  function ReadAfter(read: set<nat>, ev: Event): set<nat> {
    if ev.ReadDone? then read + {ev.gen} else read
  }

  lemma LandStep(w: World, read: set<nat>, ev: Event)
    requires Inv(w) && ReadSince(w, read) && Enabled(w, ev) && !ev.Mutate?
    ensures ReadSince(Step(w, ev), ReadAfter(read, ev)) && Step(w, ev).history == w.history
    ensures Caught(Step(w, ev)) <==> Caught(w) || (ev.Finish? && ev.gen == w.generation && ev.gen in read)
  {}

  lemma {:induction false} CaughtExactly(w: World, read: set<nat>, events: seq<Event>)
    requires Inv(w) && ReadSince(w, read) && NoMutation(events) && Runnable(w, events)
    ensures Caught(After(w, events)) <==> Caught(w) || Lands(w.generation, read, events)
    ensures After(w, events).history == w.history
    decreases |events|
  {
    if events != [] {
      StepKeeps(w, events[0]);
      LandStep(w, read, events[0]);
      assert forall i :: 0 <= i < |events[1..]| ==> events[1..][i] == events[i + 1];
      CaughtExactly(Step(w, events[0]), ReadAfter(read, events[0]), events[1..]);
    }
  }

  /** Two runs that differ only in the rows the last mutation wrote. */
  predicate Twins(a: World, b: World) {
    && a.generation == b.generation && a.installedBy == b.installedBy && |a.history| == |b.history|
    && a.inFlight.Keys == b.inFlight.Keys
    && (forall g :: g in a.inFlight ==> TwinReads(a, a.inFlight[g], b.inFlight[g]))
    && TwinReads(a, a.installed, b.installed)
  }

  predicate TwinReads(w: World, r: Option<Read>, s: Option<Read>) {
    if r.None? then s.None?
    else s.Some? && r.value.version == s.value.version && (r.value.version != w.Version() ==> r.value.db == s.value.db)
  }

  lemma TwinStep(a: World, b: World, ev: Event)
    requires Twins(a, b) && Enabled(a, ev) && !ev.Mutate?
    ensures Enabled(b, ev) && Twins(Step(a, ev), Step(b, ev))
  {}

  lemma {:induction false} TwinRuns(a: World, b: World, events: seq<Event>)
    requires Twins(a, b) && NoMutation(events) && Runnable(a, events)
    ensures Runnable(b, events) && Twins(After(a, events), After(b, events))
    decreases |events|
  {
    if events != [] {
      TwinStep(a, b, events[0]);
      assert forall i :: 0 <= i < |events[1..]| ==> events[1..][i] == events[i + 1];
      TwinRuns(Step(a, events[0]), Step(b, events[0]), events[1..]);
    }
  }

  /** Where the last mutation wrote `db`. */
  function Written(w: World, db: Option<Contact>): World {
    Step(w, Mutate(db))
  }

  lemma WrittenStands(w: World, db: Option<Contact>, other: Option<Contact>)
    requires Inv(w)
    ensures Inv(Written(w, db)) && ReadSince(Written(w, db), {}) && !Caught(Written(w, db))
    ensures Twins(Written(w, db), Written(w, other))
  {}

  /** One write and what follows it: caught up exactly if a refresh lands, and then the holders show the rows. */
  lemma WriteIsCaught(w: World, db: Option<Contact>, after: seq<Event>)
    requires Inv(w) && NoMutation(after) && Runnable(Written(w, db), after)
    ensures var end := After(Written(w, db), after);
            && (Caught(end) <==> Lands(w.generation, {}, after))
            && end.Db() == db && Inv(end) && (Caught(end) ==> end.holders == HoldersOf(db))
  {
    WrittenStands(w, db, db);
    CaughtExactly(Written(w, db), {}, after);
    CacheNeverGoesBack(Written(w, db), after);
  }

  /** Without a landing the holders do not depend on what was written. */
  lemma MissedIsBlind(w: World, db: Option<Contact>, other: Option<Contact>, after: seq<Event>)
    requires Inv(w) && NoMutation(after) && Runnable(Written(w, db), after) && !Lands(w.generation, {}, after)
    ensures Runnable(Written(w, other), after)
    ensures After(Written(w, db), after).holders == After(Written(w, other), after).holders
  {
    WrittenStands(w, db, other);
    TwinRuns(Written(w, db), Written(w, other), after);
    WriteIsCaught(w, db, after);
    WriteIsCaught(w, other, after);
  }

  /**
   The exact condition.  Whatever the last mutation writes, the holders end up showing it if and only
   if some refresh that read after the mutation finishes before another one starts.  Nothing need
   have settled, and any other read may have failed.
   */
  lemma CatchesUpExactly(w: World, after: seq<Event>)
    requires Inv(w) && NoMutation(after) && Runnable(Written(w, None), after)
    ensures forall db :: Runnable(Written(w, db), after)
    ensures (forall db :: After(Written(w, db), after).holders == HoldersOf(db)) <==> Lands(w.generation, {}, after)
  {
    forall db ensures Runnable(Written(w, db), after) {
      WrittenStands(w, None, db);
      TwinRuns(Written(w, None), Written(w, db), after);
    }
    if Lands(w.generation, {}, after) {
      forall db ensures After(Written(w, db), after).holders == HoldersOf(db) {
        WriteIsCaught(w, db, after);
      }
    } else {
      var someone := Some(Contact([], None, ""));
      MissedIsBlind(w, None, someone, after);
      assert HoldersOf(None) != HoldersOf(someone);
    }
  }

  /** Every run from boot: one read shown as a whole, and the exact condition for the rows written last. */
  lemma EveryRunFromBoot(start: Option<Contact>, before: seq<Event>, db: Option<Contact>, after: seq<Event>)
    requires Runnable(Boot(start), before) && NoMutation(after)
    requires Runnable(Written(After(Boot(start), before), db), after)
    ensures var mid := After(Boot(start), before);
            var end := After(Written(mid, db), after);
            && Inv(end) && Later(Boot(start), mid) && Later(Written(mid, db), end)
            && (Caught(end) <==> Lands(mid.generation, {}, after))
            && (Caught(end) ==> end.holders == HoldersOf(db))
  {
    BootInv(start);
    CacheNeverGoesBack(Boot(start), before);
    var mid := After(Boot(start), before);
    WriteIsCaught(mid, db, after);
    WrittenStands(mid, db, db);
    CacheNeverGoesBack(Written(mid, db), after);
  }

  lemma {:induction false} FirstEmailIs(identities: seq<Identity>, i: nat)
    requires i <= |identities| && (forall j :: 0 <= j < i ==> identities[j].channel != "email")
    requires i < |identities| ==> identities[i].channel == "email"
    ensures FirstEmail(identities) == if i < |identities| then identities[i].identifier else ""
  {
    if i > 0 {
      FirstEmailIs(identities[1..], i - 1);
    }
  }

  lemma {:induction false} SomeFirstEmail(identities: seq<Identity>) returns (i: nat)
    ensures i <= |identities| && (forall j :: 0 <= j < i ==> identities[j].channel != "email")
    ensures i < |identities| ==> identities[i].channel == "email"
  {
    if identities == [] || identities[0].channel == "email" {
      i := 0;
    } else {
      i := SomeFirstEmail(identities[1..]);
      i := i + 1;
    }
  }

  predicate InUse(id: Identity) {
    id.verified && id.active
  }

  /**
   What the holders show of a contact: its verified and active identities in their order, the identifier
   of the first of them whose channel is email, its designated primary address and its profile.
   */
  predicate Shows(h: Holders, c: Contact) {
    && h.identities == Filter(InUse, c.identities)
    && h.primaryEmail == c.primaryEmail && h.profile == Some(c.profile)
    && exists i: nat :: i <= |h.identities| && EmailFrom(h, i)
  }

  /** The email shown is that of the i-th identity and no earlier one has one; none if there is no i-th. */
  predicate EmailFrom(h: Holders, i: nat)
    requires i <= |h.identities|
  {
    && (forall j :: 0 <= j < i ==> h.identities[j].channel != "email")
    && (if i == |h.identities| then h.email == ""
        else h.identities[i].channel == "email" && h.email == h.identities[i].identifier)
  }

  lemma {:induction false} SameFilter(p: Identity -> bool, q: Identity -> bool, ids: seq<Identity>)
    requires forall id :: p(id) == q(id)
    ensures Filter(p, ids) == Filter(q, ids)
  {
    if ids != [] {
      SameFilter(p, q, ids[1..]);
    }
  }

  lemma HoldersShow(c: Contact)
    ensures Shows(HoldersOf(Some(c)), c)
  {
    var h := HoldersOf(Some(c));
    SameFilter(Usable, InUse, c.identities);
    var i := SomeFirstEmail(h.identities);
    FirstEmailIs(h.identities, i);
    assert EmailFrom(h, i);
  }

  /** After a landing the rows written last are what is shown; without the contact nothing is. */
  lemma LandingShowsTheRows(w: World, db: Option<Contact>, after: seq<Event>)
    requires Inv(w) && NoMutation(after) && Runnable(Written(w, db), after) && Lands(w.generation, {}, after)
    ensures var h := After(Written(w, db), after).holders;
            if db.Some? then Shows(h, db.value) else h == Holders([], "", None, None)
  {
    WriteIsCaught(w, db, after);
    if db.Some? {
      HoldersShow(db.value);
    }
  }

  /**
   A failed read can leave the cache behind for good: the newest refresh fails, and an older one that
   did read the new rows is discarded.
   */
  lemma FailureLosesAFreshRead(c: Contact)
    requires HoldersOf(Some(c)) != CLEARED
    ensures var events := [Mutate(Some(c)), Start, Start, ReadDone(1), ReadFailed(2), Finish(1)];
            && Runnable(Boot(None), events)
            && After(Boot(None), events).inFlight == map[]
            && After(Boot(None), events).holders != HoldersOf(After(Boot(None), events).Db())
  {
    var w0 := Boot(None);
    var w1 := Step(w0, Mutate(Some(c)));
    var w2 := Step(w1, Start);
    var w3 := Step(w2, Start);
    var w4 := Step(w3, ReadDone(1));
    var w5 := Step(w4, ReadFailed(2));
    var w6 := Step(w5, Finish(1));
    OneEvent(w5, Finish(1), []);
    OneEvent(w4, ReadFailed(2), [Finish(1)]);
    OneEvent(w3, ReadDone(1), [ReadFailed(2), Finish(1)]);
    OneEvent(w2, Start, [ReadDone(1), ReadFailed(2), Finish(1)]);
    OneEvent(w1, Start, [Start, ReadDone(1), ReadFailed(2), Finish(1)]);
    OneEvent(w0, Mutate(Some(c)), [Start, Start, ReadDone(1), ReadFailed(2), Finish(1)]);
    assert w6.inFlight == map[];
    assert w6.holders == CLEARED;
  }

  lemma OneEvent(w: World, ev: Event, rest: seq<Event>)
    requires Enabled(w, ev) && Runnable(Step(w, ev), rest)
    ensures Runnable(w, [ev] + rest) && After(w, [ev] + rest) == After(Step(w, ev), rest)
  {
    assert ([ev] + rest)[1..] == rest;
  }
}
