/**
 The retry loop and the page walk of the mail client, against an arbitrary network.  Everything one
 turn of the retry loop reads from outside (clock, abort flag, reply, jitter) is given by a script.
 */
module NylasClient {
  import opened Common

  const MAX_RETRIES := 3
  const BACKOFF_BASE_MS := 500
  const MAX_BACKOFF_MS := 30_000

  type Jitter = r: real | 0.0 <= r < 1.0

  datatype Reading = Reading(now: int, aborted: bool)

  datatype Body<T> = NotJson | NoData | Data(data: T)

  /** `retryAfter` is the header as a finite number; an absent and an unparseable header act alike. */
  datatype Reply<T> = FetchFailed | Response(status: nat, retryAfter: Option<real>, body: Body<T>)

  datatype Turn<T> = Turn(before: Reading, reply: Reply<T>, onFailure: Reading, jitter: Jitter, atDelay: Reading)

  datatype Failure = Cancelled | Unreachable | OutlastsBudget(status: nat) | HttpError(status: nat) | Malformed

  datatype Event<T> = Sent(at: Reading, reply: Reply<T>) | Slept(ms: int, at: Reading)

  datatype Outcome<T> = Outcome(events: seq<Event<T>>, result: Result<T, Failure>)

  // ---------------------------------------------------------------------------------------
  // One turn
  // ---------------------------------------------------------------------------------------

  /** Aborted, or past the deadline; without a deadline only the abort counts. */
  predicate Expired(deadline: Option<int>, r: Reading) {
    r.aborted || (deadline.Some? && deadline.value - r.now <= 0)
  }

  predicate Retriable(status: nat, isGet: bool) {
    status == 429 || (status >= 500 && isGet)
  }

  predicate Success(status: nat) {
    200 <= status <= 299
  }

  function Pow2(n: nat): (r: nat)
    ensures r >= 1
  {
    if n == 0 then 1 else 2 * Pow2(n - 1)
  }

  /** `Math.round`. */
  function Round(x: real): int {
    (x + 0.5).Floor
  }

  function BaseDelay(retryAfter: Option<real>, attempt: nat): real {
    if retryAfter.Some? && retryAfter.value > 0.0 then
      if retryAfter.value * 1000.0 > MAX_BACKOFF_MS as real then MAX_BACKOFF_MS as real else retryAfter.value * 1000.0
    else
      Min(BACKOFF_BASE_MS * Pow2(attempt), MAX_BACKOFF_MS) as real
  }

  function Jittered(base: real, jitter: Jitter): real {
    base * (0.75 + jitter * 0.5)
  }

  function Delay(retryAfter: Option<real>, attempt: nat, jitter: Jitter): int {
    Round(Jittered(BaseDelay(retryAfter, attempt), jitter))
  }

  predicate Outlasts(delay: int, deadline: Option<int>, r: Reading) {
    deadline.Some? && delay >= deadline.value - r.now
  }

  function Concluded<T>(status: nat, body: Body<T>): Result<T, Failure> {
    if !Success(status) then Err(HttpError(status))
    else if body.Data? then Ok(body.data)
    else Err(Malformed)
  }

  // ---------------------------------------------------------------------------------------
  // The retry loop
  // ---------------------------------------------------------------------------------------

  /** The reply asks for another attempt, one is left, and the wait fits the budget. */
  predicate Continues<T>(deadline: Option<int>, isGet: bool, t: Turn<T>, attempt: nat) {
    && attempt < MAX_RETRIES && !Expired(deadline, t.before)
    && t.reply.Response? && Retriable(t.reply.status, isGet)
    && !Outlasts(Delay(t.reply.retryAfter, attempt, t.jitter), deadline, t.atDelay)
  }

  /** The requests of the turn a call ends with, and how it ends. */
  function LastTurn<T>(deadline: Option<int>, isGet: bool, t: Turn<T>, attempt: nat): Outcome<T> {
    if Expired(deadline, t.before) then Outcome([], Err(Cancelled))
    else
      Outcome([Sent(t.before, t.reply)],
              match t.reply
              case FetchFailed => Err(if Expired(deadline, t.onFailure) then Cancelled else Unreachable)
              case Response(status, _, body) =>
                if Retriable(status, isGet) && attempt < MAX_RETRIES then Err(OutlastsBudget(status))
                else Concluded(status, body))
  }

  function Waited<T>(t: Turn<T>, attempt: nat): Event<T>
    requires t.reply.Response?
  {
    Slept(Delay(t.reply.retryAfter, attempt, t.jitter), t.atDelay)
  }

  function RunFrom<T>(deadline: Option<int>, isGet: bool, script: nat -> Turn<T>, attempt: nat): Outcome<T>
    requires attempt <= MAX_RETRIES
    decreases MAX_RETRIES - attempt
  {
    var t := script(attempt);
    if Continues(deadline, isGet, t, attempt) then
      var rest := RunFrom(deadline, isGet, script, attempt + 1);
      Outcome([Sent(t.before, t.reply), Waited(t, attempt)] + rest.events, rest.result)
    else LastTurn(deadline, isGet, t, attempt)
  }

  class MailClient<T> {
    const deadline: Option<int>
    /** Every request sent and every timer set, in order. */
    var events: seq<Event<T>>

    constructor (deadline: Option<int>)
      ensures this.deadline == deadline && events == []
    {
      this.deadline := deadline;
      events := [];
    }

    /** One turn of the loop: send, and either wait for the next attempt or finish. */
    method Turn(isGet: bool, t: Turn<T>, attempt: nat) returns (again: bool, result: Result<T, Failure>)
      requires attempt <= MAX_RETRIES
      modifies this
      ensures again == Continues(deadline, isGet, t, attempt)
      ensures events == old(events) + if again then [Sent(t.before, t.reply), Waited(t, attempt)]
                                      else LastTurn(deadline, isGet, t, attempt).events
      ensures !again ==> result == LastTurn(deadline, isGet, t, attempt).result
    {
      again, result := false, Err(Cancelled);
      if Expired(deadline, t.before) {
        return;
      }
      events := events + [Sent(t.before, t.reply)];
      match t.reply {
        case FetchFailed =>
          result := Err(if Expired(deadline, t.onFailure) then Cancelled else Unreachable);
        case Response(status, retryAfter, body) =>
          if Retriable(status, isGet) && attempt < MAX_RETRIES {
            var delay := Delay(retryAfter, attempt, t.jitter);
            if Outlasts(delay, deadline, t.atDelay) {
              return false, Err(OutlastsBudget(status));
            }
            events := events + [Slept(delay, t.atDelay)];
            again := true;
          } else {
            result := Concluded(status, body);
          }
      }
    }

    /** A turn seen from the whole run, of which `done` has happened since `before`. */
    method Advance(isGet: bool, script: nat -> Turn<T>, attempt: nat, ghost whole: Outcome<T>,
                   ghost before: seq<Event<T>>,
                   ghost done: seq<Event<T>>)
      returns (again: bool, result: Result<T, Failure>, ghost done': seq<Event<T>>)
      requires attempt <= MAX_RETRIES && events == before + done
      requires IsRest(whole, done, RunFrom(deadline, isGet, script, attempt))
      modifies this
      ensures again ==> attempt < MAX_RETRIES && events == before + done'
                        && IsRest(whole, done', RunFrom(deadline, isGet, script, attempt + 1))
      ensures !again ==> result == whole.result && events == before + whole.events
    {
      var t := script(attempt);
      done' := done;
      again, result := Turn(isGet, t, attempt);
      if again {
        TurnTaken(deadline, isGet, script, attempt, whole, done);
        done' := done + [Sent(t.before, t.reply), Waited(t, attempt)];
      }
    }

    method RequestWithCursor(isGet: bool, script: nat -> Turn<T>) returns (result: Result<T, Failure>)
      modifies this
      ensures result == RunFrom(deadline, isGet, script, 0).result
      ensures events == old(events) + RunFrom(deadline, isGet, script, 0).events
    {
      var attempt := 0;
      ghost var whole := RunFrom(deadline, isGet, script, 0);
      ghost var done: seq<Event<T>> := [];
      while true
        invariant attempt <= MAX_RETRIES
        invariant events == old(events) + done
        invariant IsRest(whole, done, RunFrom(deadline, isGet, script, attempt))
        decreases MAX_RETRIES - attempt
      {
        var again;
        again, result, done := Advance(isGet, script, attempt, whole, old(events), done);
        if !again {
          return;
        }
        attempt := attempt + 1;
      }
    }
  }

  /** After `done`, the run `whole` goes on as `rest`. */
  ghost predicate IsRest<T>(whole: Outcome<T>, done: seq<Event<T>>, rest: Outcome<T>) {
    whole.result == rest.result && whole.events == done + rest.events
  }

  lemma TurnTaken<T>(deadline: Option<int>, isGet: bool, script: nat -> Turn<T>, attempt: nat, whole: Outcome<T>,
                     done: seq<Event<T>>)
    requires attempt < MAX_RETRIES && Continues(deadline, isGet, script(attempt), attempt)
    requires IsRest(whole, done, RunFrom(deadline, isGet, script, attempt))
    ensures var t := script(attempt);
            IsRest(whole, done + [Sent(t.before, t.reply), Waited(t, attempt)],
                   RunFrom(deadline, isGet, script, attempt + 1))
  {
    var t := script(attempt);
    var pair := [Sent(t.before, t.reply), Waited(t, attempt)];
    assert done + (pair + RunFrom(deadline, isGet, script, attempt + 1).events)
        == done + pair + RunFrom(deadline, isGet, script, attempt + 1).events;
  }

  // ---------------------------------------------------------------------------------------
  // What every run satisfies
  // ---------------------------------------------------------------------------------------

  function SendCount<T>(events: seq<Event<T>>): nat {
    if events == [] then 0 else (if events[0].Sent? then 1 else 0) + SendCount(events[1..])
  }

  /** A reply that allows a second request: the server refused it unread, or the request only reads. */
  predicate MayResend<T>(reply: Reply<T>, isGet: bool) {
    reply.Response? && (reply.status == 429 || (isGet && reply.status >= 500))
  }

  /** Nothing is sent or slept against the budget, and no wait exceeds the cap with its jitter. */
  predicate WithinBudget<T>(deadline: Option<int>, e: Event<T>) {
    match e
    case Sent(at, _) => !at.aborted && (deadline.Some? ==> at.now < deadline.value)
    case Slept(ms, at) => 0 <= ms <= 37_500 && (deadline.Some? ==> at.now + ms < deadline.value)
  }

  lemma ProductAtLeast(base: real, low: real, factor: real, high: real)
    requires base >= 0.0 && low <= factor <= high
    ensures base * low <= base * factor <= base * high
  {}

  lemma JitteredBounds(base: real, jitter: Jitter)
    requires base >= 0.0
    ensures 0.75 * base <= Jittered(base, jitter) <= 1.25 * base
  {
    ProductAtLeast(base, 0.75, 0.75 + jitter * 0.5, 1.25);
  }

  lemma RoundBounds(x: real, low: int, high: int)
    requires low as real <= x <= high as real
    ensures low <= Round(x) <= high
  {}

  lemma BetweenBounds(base: real, x: real, low: int, high: int)
    requires low as real <= 0.75 * base <= x <= 1.25 * base <= high as real
    ensures low <= Round(x) <= high
  {
    RoundBounds(x, low, high);
  }

  lemma DelayWithin(retryAfter: Option<real>, attempt: nat, jitter: Jitter, low: int, high: int)
    requires low as real <= 0.75 * BaseDelay(retryAfter, attempt)
             && 1.25 * BaseDelay(retryAfter, attempt) <= high as real
    requires 0.0 <= BaseDelay(retryAfter, attempt)
    ensures low <= Delay(retryAfter, attempt, jitter) <= high
  {
    var base := BaseDelay(retryAfter, attempt);
    JitteredBounds(base, jitter);
    BetweenBounds(base, Jittered(base, jitter), low, high);
  }

  lemma DelayBounded(retryAfter: Option<real>, attempt: nat, jitter: Jitter)
    ensures 0 <= Delay(retryAfter, attempt, jitter) <= 37_500
  {
    DelayWithin(retryAfter, attempt, jitter, 0, 37_500);
  }

  /** Without a usable header the wait doubles per attempt, give or take a quarter. */
  lemma BackoffDoubles(retryAfter: Option<real>, attempt: nat, jitter: Jitter)
    requires attempt < MAX_RETRIES && (retryAfter.None? || retryAfter.value <= 0.0)
    ensures 375 * Pow2(attempt) <= Delay(retryAfter, attempt, jitter) <= 625 * Pow2(attempt)
  {
    assert Pow2(0) == 1 && Pow2(1) == 2 && Pow2(2) == 4;
    DelayWithin(retryAfter, attempt, jitter, 375 * Pow2(attempt), 625 * Pow2(attempt));
  }

  /** No request after the budget has run out, no wait past the deadline, no wait above 37.5 seconds. */
  lemma {:induction false} StaysWithinBudget<T>(deadline: Option<int>, isGet: bool, script: nat -> Turn<T>,
                                                attempt: nat)
    requires attempt <= MAX_RETRIES
    ensures forall e :: e in RunFrom(deadline, isGet, script, attempt).events ==> WithinBudget(deadline, e)
    decreases MAX_RETRIES - attempt
  {
    var t := script(attempt);
    if t.reply.Response? {
      DelayBounded(t.reply.retryAfter, attempt, t.jitter);
      if attempt < MAX_RETRIES {
        StaysWithinBudget(deadline, isGet, script, attempt + 1);
      }
    }
  }

  /** The shape of a run: requests, with one wait between two of them. */
  predicate Alternates<T>(events: seq<Event<T>>) {
    && (events != [] ==> events[|events| - 1].Sent? || |events| % 2 == 0)
    && (forall i :: 0 <= i < |events| ==> (events[i].Sent? <==> i % 2 == 0))
  }

  /** Every request that another one follows was refused unread, or was a read. */
  predicate OnlySafeResends<T>(events: seq<Event<T>>, isGet: bool) {
    forall i, j :: 0 <= i < j < |events| && events[i].Sent? && events[j].Sent? ==> MayResend(events[i].reply, isGet)
  }

  predicate SafeRun<T>(events: seq<Event<T>>, isGet: bool, limit: nat) {
    OnlySafeResends(events, isGet) && Alternates(events) && SendCount(events) <= limit
  }

  lemma SafeCons<T>(a: Event<T>, b: Event<T>, rest: seq<Event<T>>, isGet: bool, limit: nat)
    requires a.Sent? && b.Slept? && MayResend(a.reply, isGet) && SafeRun(rest, isGet, limit)
    ensures SafeRun([a, b] + rest, isGet, limit + 1)
  {
    var all := [a, b] + rest;
    assert forall i :: 2 <= i < |all| ==> all[i] == rest[i - 2];
    SendsCons(a, b, rest);
  }

  lemma SafeStop<T>(a: Event<T>, isGet: bool)
    requires a.Sent?
    ensures SafeRun([a], isGet, 1)
  {}

  /** At most four requests, one wait between two of them, and only safe resends. */
  lemma {:induction false} ResendsAreSafe<T>(deadline: Option<int>, isGet: bool, script: nat -> Turn<T>, attempt: nat)
    requires attempt <= MAX_RETRIES
    ensures SafeRun(RunFrom(deadline, isGet, script, attempt).events, isGet, MAX_RETRIES + 1 - attempt)
    decreases MAX_RETRIES - attempt
  {
    var t := script(attempt);
    if Continues(deadline, isGet, t, attempt) {
      ResendsAreSafe(deadline, isGet, script, attempt + 1);
      SafeCons(Sent(t.before, t.reply), Waited(t, attempt), RunFrom(deadline, isGet, script, attempt + 1).events, isGet,
               MAX_RETRIES - attempt);
    } else {
      SafeStop(Sent(t.before, t.reply), isGet);
    }
  }

  lemma SendsCons<T>(a: Event<T>, b: Event<T>, rest: seq<Event<T>>)
    requires a.Sent? && b.Slept?
    ensures SendCount([a, b] + rest) == 1 + SendCount(rest)
  {
    assert ([a, b] + rest)[1..] == [b] + rest && ([b] + rest)[1..] == rest;
  }

  /** A mutation reaches a server that may have acted on it at most once. */
  lemma MutationActsAtMostOnce<T>(deadline: Option<int>, script: nat -> Turn<T>)
    ensures var events := RunFrom(deadline, false, script, 0).events;
            forall i, j :: 0 <= i < j < |events| && events[i].Sent? && events[j].Sent? ==>
              events[i].reply.Response? && events[i].reply.status == 429
  {
    ResendsAreSafe(deadline, false, script, 0);
  }

  /** What the last reply of a run was, if a request was sent at all. */
  function LastReply<T>(events: seq<Event<T>>): Option<Reply<T>> {
    if events == [] then None
    else if events[|events| - 1].Sent? then Some(events[|events| - 1].reply)
    else LastReply(events[..|events| - 1])
  }

  lemma {:induction false} LastReplyCons<T>(a: Event<T>, b: Event<T>, rest: seq<Event<T>>)
    requires a.Sent? && b.Slept?
    ensures LastReply([a, b] + rest) == if LastReply(rest).Some? then LastReply(rest) else Some(a.reply)
    decreases |rest|
  {
    var all := [a, b] + rest;
    if rest == [] {
      assert all == [a, b];
      assert all[..1] == [a];
    } else {
      assert all[|all| - 1] == rest[|rest| - 1];
      assert all[..|all| - 1] == [a, b] + rest[..|rest| - 1];
      LastReplyCons(a, b, rest[..|rest| - 1]);
    }
  }

  predicate CarriesData<T>(reply: Option<Reply<T>>) {
    reply.Some? && reply.value.Response? && Success(reply.value.status) && reply.value.body.Data?
  }

  lemma LastReplyOfOne<T>(a: Event<T>)
    requires a.Sent?
    ensures LastReply([a]) == Some(a.reply)
  {}

  /** The result is what the last reply says. */
  ghost predicate Faithful<T>(o: Outcome<T>) {
    && (o.result.Ok? <==> CarriesData(LastReply(o.events)))
    && (o.result.Ok? ==> LastReply(o.events).value.body.data == o.result.value)
  }

  lemma FaithfulCons<T>(a: Event<T>, b: Event<T>, o: Outcome<T>, rest: Outcome<T>)
    requires a.Sent? && b.Slept? && !CarriesData(Some(a.reply)) && Faithful(rest)
    requires o.events == [a, b] + rest.events && o.result == rest.result
    ensures Faithful(o)
  {
    LastReplyCons(a, b, rest.events);
  }

  lemma FaithfulStop<T>(deadline: Option<int>, isGet: bool, t: Turn<T>, attempt: nat)
    requires attempt <= MAX_RETRIES && !Continues(deadline, isGet, t, attempt)
    ensures Faithful(LastTurn(deadline, isGet, t, attempt))
  {
    LastReplyOfOne(Sent(t.before, t.reply));
  }

  /** A call succeeds exactly when its last reply is a success that carries data, and returns that data. */
  lemma {:induction false} SucceedsExactly<T>(deadline: Option<int>, isGet: bool, script: nat -> Turn<T>, attempt: nat)
    requires attempt <= MAX_RETRIES
    ensures Faithful(RunFrom(deadline, isGet, script, attempt))
    decreases MAX_RETRIES - attempt
  {
    var t := script(attempt);
    if Continues(deadline, isGet, t, attempt) {
      SucceedsExactly(deadline, isGet, script, attempt + 1);
      FaithfulCons(Sent(t.before, t.reply), Waited(t, attempt), RunFrom(deadline, isGet, script, attempt),
                   RunFrom(deadline, isGet, script, attempt + 1));
    } else {
      FaithfulStop(deadline, isGet, t, attempt);
    }
  }

  predicate ExpiresAt<T>(deadline: Option<int>, script: nat -> Turn<T>, i: nat) {
    Expired(deadline, script(i).before) || Expired(deadline, script(i).onFailure)
  }

  /** Why a call fails: `n` requests were sent. */
  ghost predicate HasCause<T>(deadline: Option<int>, isGet: bool, script: nat -> Turn<T>, attempt: nat, n: nat,
                              f: Failure) {
    match f
    case HttpError(s) => !Success(s) && (Retriable(s, isGet) ==> n == MAX_RETRIES + 1 - attempt)
    case OutlastsBudget(s) => Retriable(s, isGet) && deadline.Some? && 1 <= n <= MAX_RETRIES - attempt
    case Cancelled => exists i :: attempt <= i <= attempt + n && ExpiresAt(deadline, script, i)
    case Unreachable => n >= 1
    case Malformed => n >= 1
  }

  lemma CountOfOne<T>(a: Event<T>)
    requires a.Sent?
    ensures SendCount([a]) == 1
  {}

  lemma CauseOfStop<T>(deadline: Option<int>, isGet: bool, script: nat -> Turn<T>, attempt: nat)
    requires attempt <= MAX_RETRIES && !Continues(deadline, isGet, script(attempt), attempt)
    ensures var o := LastTurn(deadline, isGet, script(attempt), attempt);
            o.result.Err? ==> HasCause(deadline, isGet, script, attempt, SendCount(o.events), o.result.error)
  {
    var o := LastTurn(deadline, isGet, script(attempt), attempt);
    CountOfOne(Sent(script(attempt).before, script(attempt).reply));
    assert o.result == Err(Cancelled) ==> ExpiresAt(deadline, script, attempt);
  }

  lemma CauseCarries<T>(deadline: Option<int>, isGet: bool, script: nat -> Turn<T>, attempt: nat, n: nat, f: Failure)
    requires attempt < MAX_RETRIES && HasCause(deadline, isGet, script, attempt + 1, n, f)
    ensures HasCause(deadline, isGet, script, attempt, n + 1, f)
  {}

  /** A retriable reply is given up on only after every attempt is spent or when the wait outlasts the budget. */
  lemma {:induction false} GivesUpForCause<T>(deadline: Option<int>, isGet: bool, script: nat -> Turn<T>, attempt: nat)
    requires attempt <= MAX_RETRIES
    ensures var o := RunFrom(deadline, isGet, script, attempt);
            o.result.Err? ==> HasCause(deadline, isGet, script, attempt, SendCount(o.events), o.result.error)
    decreases MAX_RETRIES - attempt
  {
    var t := script(attempt);
    if Continues(deadline, isGet, t, attempt) {
      var rest := RunFrom(deadline, isGet, script, attempt + 1);
      GivesUpForCause(deadline, isGet, script, attempt + 1);
      SendsCons(Sent(t.before, t.reply), Waited(t, attempt), rest.events);
      if rest.result.Err? {
        CauseCarries(deadline, isGet, script, attempt, SendCount(rest.events), rest.result.error);
      }
    } else {
      CauseOfStop(deadline, isGet, script, attempt);
    }
  }

  // ---------------------------------------------------------------------------------------
  // The page walk
  // ---------------------------------------------------------------------------------------

  /** One list response; an absent cursor and an empty one act alike. */
  datatype Page<T> = Page(data: seq<T>, next: string)

  /** The server: what the n-th request gets for a cursor; None is a failed request. */
  type Server<T> = (nat, string) -> Option<Page<T>>

  predicate LastOf<T>(p: Page<T>, seen: nat, maxScan: int) {
    |p.data| == 0 || seen + |p.data| >= maxScan || p.next == ""
  }

  /** The pages a walk reads, `seen` messages and `step` requests in. */
  function Walk<T>(server: Server<T>, step: nat, cursor: string, seen: nat, maxScan: int): Option<seq<Page<T>>>
    decreases Max(maxScan - seen, 0)
  {
    match server(step, cursor)
    case None => None
    case Some(p) =>
      if LastOf(p, seen, maxScan) then Some([p])
      else
        match Walk(server, step + 1, p.next, seen + |p.data|, maxScan)
        case None => None
        case Some(rest) => Some([p] + rest)
  }

  function AllData<T>(pages: seq<Page<T>>): seq<T> {
    if pages == [] then [] else pages[0].data + AllData(pages[1..])
  }

  /** `slice(0, n)`: a negative bound counts from the end. */
  function Slice<T>(xs: seq<T>, n: int): seq<T> {
    if n >= 0 then xs[..Min(n, |xs|)] else xs[..Max(|xs| + n, 0)]
  }

  datatype Listing<T> = Listing(messages: seq<T>, truncated: bool)

  function Listed<T>(pages: seq<Page<T>>, maxScan: int): Listing<T>
    requires pages != []
  {
    var all := AllData(pages);
    Listing(Slice(all, maxScan), pages[|pages| - 1].next != "" || |Slice(all, maxScan)| < |all|)
  }

  lemma {:induction false} WalkNotEmpty<T>(server: Server<T>, step: nat, cursor: string, seen: nat, maxScan: int)
    ensures Walk(server, step, cursor, seen, maxScan).Some? ==> Walk(server, step, cursor, seen, maxScan).value != []
  {}

  lemma {:induction false} AllDataSnoc<T>(pages: seq<Page<T>>, p: Page<T>)
    ensures AllData(pages + [p]) == AllData(pages) + p.data
  {
    if pages == [] {
      assert pages + [p] == [p] && [p][1..] == [];
    } else {
      assert (pages + [p])[1..] == pages[1..] + [p];
      AllDataSnoc(pages[1..], p);
    }
  }

  /** What the walk as a whole returns, when it stands after the pages in `done`. */
  ghost predicate Resumes<T>(server: Server<T>, maxScan: int, done: seq<Page<T>>, cursor: string) {
    var rest := Walk(server, |done|, cursor, |AllData(done)|, maxScan);
    Walk(server, 0, "", 0, maxScan) == if rest.None? then None else Some(done + rest.value)
  }

  lemma ResumesAtStart<T>(server: Server<T>, maxScan: int)
    ensures Resumes(server, maxScan, [], "")
  {
    var w := Walk(server, 0, "", 0, maxScan);
    assert w.Some? ==> [] + w.value == w.value;
  }

  lemma ResumesNext<T>(server: Server<T>, maxScan: int, done: seq<Page<T>>, cursor: string, p: Page<T>)
    requires Resumes(server, maxScan, done, cursor) && server(|done|, cursor) == Some(p)
    ensures AllData(done + [p]) == AllData(done) + p.data
    ensures LastOf(p, |AllData(done)|, maxScan) ==> Walk(server, 0, "", 0, maxScan) == Some(done + [p])
    ensures !LastOf(p, |AllData(done)|, maxScan) ==> Resumes(server, maxScan, done + [p], p.next)
  {
    AllDataSnoc(done, p);
    if !LastOf(p, |AllData(done)|, maxScan) {
      var rest := Walk(server, |done| + 1, p.next, |AllData(done)| + |p.data|, maxScan);
      if rest.Some? {
        assert done + ([p] + rest.value) == done + [p] + rest.value;
      }
    }
  }

  method ListAllMessages<T>(server: Server<T>, maxScan: int) returns (r: Option<Listing<T>>)
    ensures var pages := Walk(server, 0, "", 0, maxScan);
            r == if pages.None? then None
                 else (WalkNotEmpty(server, 0, "", 0, maxScan); Some(Listed(pages.value, maxScan)))
  {
    var messages: seq<T> := [];
    var pageToken := "";
    var truncated := false;
    ghost var done: seq<Page<T>> := [];
    var step := 0;
    ResumesAtStart(server, maxScan);
    while true
      invariant step == |done| && messages == AllData(done)
      invariant Resumes(server, maxScan, done, pageToken)
      decreases Max(maxScan - |messages|, 0)
    {
      var reply := server(step, pageToken);
      if reply.None? {
        return None;
      }
      var p := reply.value;
      ResumesNext(server, maxScan, done, pageToken, p);
      messages := messages + p.data;
      done := done + [p];
      step := step + 1;
      if |p.data| == 0 {
        truncated := p.next != "";
        break;
      }
      if |messages| >= maxScan {
        truncated := p.next != "";
        break;
      }
      if p.next == "" {
        break;
      }
      pageToken := p.next;
    }
    var capped := Slice(messages, maxScan);
    r := Some(Listing(capped, truncated || |capped| < |messages|));
  }

  /** Request `i + 1` carries the cursor of reply `i`; every page before the last has messages and a cursor. */
  ghost predicate Chained<T>(server: Server<T>, step: nat, cursor: string, pages: seq<Page<T>>) {
    && pages != []
    && (forall i :: 0 <= i < |pages| ==>
        server(step + i, if i == 0 then cursor else pages[i - 1].next) == Some(pages[i]))
    && (forall i :: 0 <= i < |pages| - 1 ==> pages[i].data != [] && pages[i].next != "")
  }

  lemma ChainedCons<T>(server: Server<T>, step: nat, cursor: string, p: Page<T>, rest: seq<Page<T>>)
    requires server(step, cursor) == Some(p) && p.data != [] && p.next != "" && Chained(server, step + 1, p.next, rest)
    ensures Chained(server, step, cursor, [p] + rest)
  {
    var pages := [p] + rest;
    forall i | 0 <= i < |pages|
      ensures server(step + i, if i == 0 then cursor else pages[i - 1].next) == Some(pages[i])
    {
      if i > 0 {
        assert server(step + 1 + (i - 1), if i - 1 == 0 then p.next else rest[i - 2].next) == Some(rest[i - 1]);
      }
    }
    forall i | 0 <= i < |pages| - 1 ensures pages[i].data != [] && pages[i].next != "" {
      if i > 0 {
        assert pages[i] == rest[i - 1];
      }
    }
  }

  /** Each request carries the cursor of the reply before it; the walk passes no empty page and no missing cursor. */
  lemma {:induction false} WalkFollowsCursors<T>(server: Server<T>, step: nat, cursor: string, seen: nat, maxScan: int)
    requires Walk(server, step, cursor, seen, maxScan).Some?
    ensures Chained(server, step, cursor, Walk(server, step, cursor, seen, maxScan).value)
    decreases Max(maxScan - seen, 0)
  {
    var p := server(step, cursor).value;
    if !LastOf(p, seen, maxScan) {
      WalkFollowsCursors(server, step + 1, p.next, seen + |p.data|, maxScan);
      ChainedCons(server, step, cursor, p, Walk(server, step + 1, p.next, seen + |p.data|, maxScan).value);
    }
  }

  lemma AllDataCons<T>(p: Page<T>, rest: seq<Page<T>>)
    ensures AllData([p] + rest) == p.data + AllData(rest)
    ensures rest != [] ==> ([p] + rest)[..|rest|] == [p] + rest[..|rest| - 1]
  {
    assert ([p] + rest)[1..] == rest;
  }

  /** Where a walk that began with `seen` messages may stop. */
  predicate StopsRightly<T>(pages: seq<Page<T>>, seen: nat, maxScan: int) {
    && pages != [] && |pages| <= Max(maxScan - seen, 1)
    && (|pages| > 1 ==> seen + |AllData(pages[..|pages| - 1])| < maxScan)
    && (var last := pages[|pages| - 1]; last.next == "" || last.data == [] || seen + |AllData(pages)| >= maxScan)
  }

  lemma StopsCons<T>(p: Page<T>, rest: seq<Page<T>>, seen: nat, maxScan: int)
    requires !LastOf(p, seen, maxScan) && StopsRightly(rest, seen + |p.data|, maxScan)
    ensures StopsRightly([p] + rest, seen, maxScan)
  {
    AllDataCons(p, rest);
    AllDataCons(p, rest[..|rest| - 1]);
    if |rest| == 1 {
      assert rest[..0] == [];
    }
  }

  /**
   Against any server the walk ends: it reads at most `maxScan` pages (or the first one), and stops
   short of the ceiling only at an empty page or a page with no cursor.
   */
  lemma {:induction false} WalkIsBounded<T>(server: Server<T>, step: nat, cursor: string, seen: nat, maxScan: int)
    requires Walk(server, step, cursor, seen, maxScan).Some?
    ensures StopsRightly(Walk(server, step, cursor, seen, maxScan).value, seen, maxScan)
    decreases Max(maxScan - seen, 0)
  {
    var p := server(step, cursor).value;
    if LastOf(p, seen, maxScan) {
      AllDataCons(p, []);
      assert [p] + [] == [p];
    } else {
      WalkIsBounded(server, step + 1, p.next, seen + |p.data|, maxScan);
      StopsCons(p, Walk(server, step + 1, p.next, seen + |p.data|, maxScan).value, seen, maxScan);
    }
  }

  lemma SlicePrefix<T>(xs: seq<T>, n: int)
    ensures Slice(xs, n) <= xs
    ensures |Slice(xs, n)| <= Max(n, 0) <==> n >= 0 || |xs| <= -n
    ensures n >= 0 ==> (Slice(xs, n) == xs <==> |xs| <= n)
  {}

  /**
   The listing is a prefix of everything read.  It is within the ceiling exactly when the ceiling is
   not negative or the walk read no more than its magnitude.  `truncated` is false exactly when the
   last page had no cursor and nothing was cut.
   */
  lemma ListingIsHonest<T>(server: Server<T>, maxScan: int)
    requires Walk(server, 0, "", 0, maxScan).Some?
    ensures var pages := Walk(server, 0, "", 0, maxScan).value;
            && pages != []
            && (var r := Listed(pages, maxScan);
                && r.messages <= AllData(pages)
                && |r.messages| == (if maxScan >= 0 then Min(maxScan, |AllData(pages)|)
                                    else Max(|AllData(pages)| + maxScan, 0))
                && (|r.messages| <= Max(maxScan, 0) <==> maxScan >= 0 || |AllData(pages)| <= -maxScan)
                && (!r.truncated <==> pages[|pages| - 1].next == "" && r.messages == AllData(pages)))
  {
    WalkNotEmpty(server, 0, "", 0, maxScan);
    SlicePrefix(AllData(Walk(server, 0, "", 0, maxScan).value), maxScan);
  }

  /** A server that holds exactly these pages: each leads to the next, the last to none. */
  ghost predicate Serves<T>(server: Server<T>, step: nat, cursor: string, pages: seq<Page<T>>)
    decreases |pages|
  {
    && pages != [] && server(step, cursor) == Some(pages[0])
    && (if |pages| == 1 then pages[0].next == ""
        else pages[0].next != "" && Serves(server, step + 1, pages[0].next, pages[1..]))
  }

  /** No page before the last is empty or reaches the ceiling. */
  predicate Drainable<T>(pages: seq<Page<T>>, seen: nat, maxScan: int) {
    |pages| <= 1
    || (pages[0].data != [] && seen + |pages[0].data| < maxScan
        && Drainable(pages[1..], seen + |pages[0].data|, maxScan))
  }

  /** A walk that ends at its first page. */
  lemma FirstPageDrains<T>(server: Server<T>, step: nat, cursor: string, pages: seq<Page<T>>, seen: nat, maxScan: int)
    requires Serves(server, step, cursor, pages) && (|pages| == 1 || LastOf(pages[0], seen, maxScan))
    ensures Walk(server, step, cursor, seen, maxScan) == Some([pages[0]])
    ensures [pages[0]] <= pages && ([pages[0]] == pages <==> |pages| == 1)
    ensures Drainable(pages, seen, maxScan) <==> |pages| == 1
    ensures pages[0].next == "" <==> |pages| == 1
  {}

  /** The walk reads the whole mailbox exactly when no page before the last is empty or reaches the ceiling. */
  lemma {:induction false} WalkDrainsExactly<T>(server: Server<T>, step: nat, cursor: string, pages: seq<Page<T>>,
                                                seen: nat, maxScan: int)
    requires Serves(server, step, cursor, pages)
    ensures var w := Walk(server, step, cursor, seen, maxScan);
            && w.Some? && w.value <= pages && w.value != []
            && (w.value == pages <==> Drainable(pages, seen, maxScan))
            && (w.value[|w.value| - 1].next == "" <==> w.value == pages)
    decreases |pages|
  {
    var p := pages[0];
    if |pages| == 1 || LastOf(p, seen, maxScan) {
      FirstPageDrains(server, step, cursor, pages, seen, maxScan);
    } else {
      WalkDrainsExactly(server, step + 1, p.next, pages[1..], seen + |p.data|, maxScan);
      PrefixCons(p, Walk(server, step + 1, p.next, seen + |p.data|, maxScan).value, pages);
    }
  }

  lemma PrefixCons<T>(p: Page<T>, read: seq<Page<T>>, pages: seq<Page<T>>)
    requires pages != [] && p == pages[0] && read != [] && read <= pages[1..]
    ensures [p] + read <= pages
    ensures [p] + read == pages <==> read == pages[1..]
    ensures ([p] + read)[|[p] + read| - 1] == read[|read| - 1]
  {
    assert pages == [p] + pages[1..];
    assert [p] + read == pages ==> ([p] + read)[1..] == read;
  }

  /** `truncated` is false exactly when the listing is the whole mailbox. */
  lemma DrainedExactly<T>(server: Server<T>, pages: seq<Page<T>>, maxScan: int)
    requires Serves(server, 0, "", pages) && maxScan >= 0
    ensures var w := Walk(server, 0, "", 0, maxScan);
            && w.Some? && w.value != []
            && (!Listed(w.value, maxScan).truncated <==> Drainable(pages, 0, maxScan) && |AllData(pages)| <= maxScan)
            && (!Listed(w.value, maxScan).truncated ==> Listed(w.value, maxScan).messages == AllData(pages))
  {
    WalkDrainsExactly(server, 0, "", pages, 0, maxScan);
    SlicePrefix(AllData(Walk(server, 0, "", 0, maxScan).value), maxScan);
  }
}
