/** When a run sends again, how long it waits first, and how it ends, in seconds, milliseconds and status codes. */
module NylasPacing {
  import opened Common
  import opened NylasClient

  // ---------------------------------------------------------------------------------------
  // How long
  // ---------------------------------------------------------------------------------------

  /**
   The wait asked for, in milliseconds: what a positive Retry-After says in seconds, up to thirty of
   them; otherwise half a second, one, two for the first, second and third retry.
   */
  function Asked(retryAfter: Option<real>, retry: nat): real {
    if retryAfter.Some? && retryAfter.value > 0.0 then
      (if retryAfter.value < 30.0 then 1000.0 * retryAfter.value else 30_000.0)
    else if retry == 0 then 500.0
    else if retry == 1 then 1000.0
    else 2000.0
  }

  /** Within a quarter of what was asked for, rounded to a whole millisecond. */
  predicate InBand(ms: int, asked: real) {
    0.75 * asked - 0.5 <= ms as real <= 1.25 * asked + 0.5
  }

  lemma AskedIsBase(retryAfter: Option<real>, retry: nat)
    requires retry < 3
    ensures BaseDelay(retryAfter, retry) == Asked(retryAfter, retry) && Asked(retryAfter, retry) > 0.0
  {
    assert Pow2(0) == 1 && Pow2(1) == 2 && Pow2(2) == 4;
  }

  /** The wait before a retry lies in the band, at whatever point of it the jitter picks. */
  lemma DelayInBand(retryAfter: Option<real>, retry: nat, jitter: Jitter)
    requires retry < 3
    ensures InBand(Delay(retryAfter, retry, jitter), Asked(retryAfter, retry))
  {
    AskedIsBase(retryAfter, retry);
    JitteredBounds(Asked(retryAfter, retry), jitter);
  }

  /** The jitter spreads waits over the band: none of it gives the lower end, the middle gives what was asked for. */
  lemma JitterSpreads(retryAfter: Option<real>, retry: nat)
    requires retry < 3
    ensures InBand(Delay(retryAfter, retry, 0.0), Asked(retryAfter, retry))
    ensures -0.5 <= Delay(retryAfter, retry, 0.0) as real - 0.75 * Asked(retryAfter, retry) <= 0.5
    ensures -0.5 <= Delay(retryAfter, retry, 0.5) as real - Asked(retryAfter, retry) <= 0.5
  {
    AskedIsBase(retryAfter, retry);
  }

  /** A wait follows a reply and lies in that reply's band; `first` retries came before these events. */
  predicate PacedAt<T>(events: seq<Event<T>>, first: nat, i: nat)
    requires i < |events|
  {
    events[i].Slept? ==>
      && i > 0 && events[i - 1].Sent? && events[i - 1].reply.Response?
      && InBand(events[i].ms, Asked(events[i - 1].reply.retryAfter, first + i / 2))
  }

  predicate Paced<T>(events: seq<Event<T>>, first: nat) {
    forall i :: 0 <= i < |events| ==> PacedAt(events, first, i)
  }

  lemma PacedCons<T>(a: Event<T>, b: Event<T>, rest: seq<Event<T>>, first: nat)
    requires a.Sent? && b.Slept? && a.reply.Response? && InBand(b.ms, Asked(a.reply.retryAfter, first))
    requires Paced(rest, first + 1) && (rest != [] ==> rest[0].Sent?)
    ensures Paced([a, b] + rest, first)
  {
    var all := [a, b] + rest;
    forall i | 0 <= i < |all| ensures PacedAt(all, first, i) {
      if i >= 2 {
        assert PacedAt(rest, first + 1, i - 2);
        assert all[i] == rest[i - 2] && all[i - 1] == if i == 2 then b else rest[i - 3];
        assert first + 1 + (i - 2) / 2 == first + i / 2;
      }
    }
  }

  lemma StartsWithSend<T>(deadline: Option<int>, isGet: bool, script: nat -> Turn<T>, attempt: nat)
    requires attempt <= MAX_RETRIES
    ensures var events := RunFrom(deadline, isGet, script, attempt).events;
            events != [] ==> events[0] == Sent(script(attempt).before, script(attempt).reply)
  {}

  /** Every wait of every run lies in the band of the reply just before it, with and without a usable header. */
  lemma {:induction false} EveryWaitIsPaced<T>(deadline: Option<int>, isGet: bool, script: nat -> Turn<T>, attempt: nat)
    requires attempt <= MAX_RETRIES
    ensures Paced(RunFrom(deadline, isGet, script, attempt).events, attempt)
    decreases MAX_RETRIES - attempt
  {
    var t := script(attempt);
    if Continues(deadline, isGet, t, attempt) {
      EveryWaitIsPaced(deadline, isGet, script, attempt + 1);
      StartsWithSend(deadline, isGet, script, attempt + 1);
      DelayInBand(t.reply.retryAfter, attempt, t.jitter);
      PacedCons(Sent(t.before, t.reply), Waited(t, attempt), RunFrom(deadline, isGet, script, attempt + 1).events,
                attempt);
    }
  }

  // ---------------------------------------------------------------------------------------
  // Whether again, and the end
  // ---------------------------------------------------------------------------------------

  /** Too many requests, or a server error on a read. */
  predicate AsksAgain<T>(reply: Reply<T>, isGet: bool) {
    reply.Response? && (reply.status == 429 || (isGet && reply.status >= 500))
  }

  predicate InTime(deadline: Option<int>, r: Reading) {
    !r.aborted && (deadline.Some? ==> r.now < deadline.value)
  }

  /** The wait `ms` ends before the deadline. */
  predicate Fits(deadline: Option<int>, ms: int, r: Reading) {
    deadline.Some? ==> r.now + ms < deadline.value
  }

  /** What event `i` of a run says about the next one; `first` retries came before. */
  ghost predicate FollowsRule<T>(deadline: Option<int>, isGet: bool, script: nat -> Turn<T>, first: nat, o: Outcome<T>,
                                 i: nat)
    requires i < |o.events|
  {
    var n := first + i / 2;
    if i % 2 == 0 then
      && o.events[i] == Sent(script(n).before, script(n).reply)
      && (i + 1 < |o.events| <==>
          AsksAgain(script(n).reply, isGet) && n < 3
          && Fits(deadline, Delay(script(n).reply.retryAfter, n, script(n).jitter), script(n).atDelay))
    else
      && o.events[i].Slept?
      && (i + 1 < |o.events| <==> InTime(deadline, script(n + 1).before))
  }

  ghost predicate AllFollow<T>(deadline: Option<int>, isGet: bool, script: nat -> Turn<T>, first: nat, o: Outcome<T>) {
    && (o.events != [] <==> InTime(deadline, script(first).before))
    && (forall i :: 0 <= i < |o.events| ==> FollowsRule(deadline, isGet, script, first, o, i))
  }

  lemma FollowCons<T>(deadline: Option<int>, isGet: bool, script: nat -> Turn<T>, first: nat, rest: Outcome<T>)
    requires first < MAX_RETRIES && Continues(deadline, isGet, script(first), first)
    requires AllFollow(deadline, isGet, script, first + 1, rest)
    ensures var t := script(first);
            AllFollow(deadline, isGet, script, first,
                      Outcome([Sent(t.before, t.reply), Waited(t, first)] + rest.events, rest.result))
  {
    var t := script(first);
    var o := Outcome([Sent(t.before, t.reply), Waited(t, first)] + rest.events, rest.result);
    forall i | 0 <= i < |o.events| ensures FollowsRule(deadline, isGet, script, first, o, i) {
      if i >= 2 {
        assert FollowsRule(deadline, isGet, script, first + 1, rest, i - 2);
        assert o.events[i] == rest.events[i - 2] && first + 1 + (i - 2) / 2 == first + i / 2 && (i - 2) % 2 == i % 2;
      }
    }
  }

  /**
   A request is sent again exactly if the reply asks for it, fewer than three retries were made, the
   wait fits the budget, and the budget still stands after the wait.
   */
  lemma {:induction false} SendsAgainExactly<T>(deadline: Option<int>, isGet: bool, script: nat -> Turn<T>,
                                                attempt: nat)
    requires attempt <= MAX_RETRIES
    ensures AllFollow(deadline, isGet, script, attempt, RunFrom(deadline, isGet, script, attempt))
    decreases MAX_RETRIES - attempt
  {
    if Continues(deadline, isGet, script(attempt), attempt) {
      SendsAgainExactly(deadline, isGet, script, attempt + 1);
      FollowCons(deadline, isGet, script, attempt, RunFrom(deadline, isGet, script, attempt + 1));
    }
  }

  /** How a run ends, by the last thing it did. */
  ghost predicate EndsAs<T>(deadline: Option<int>, isGet: bool, script: nat -> Turn<T>, first: nat, o: Outcome<T>) {
    var n := |o.events|;
    if n % 2 == 0 then o.result == Err(Cancelled)
    else
      var t := script(first + n / 2);
      match t.reply
      case FetchFailed => o.result == Err(if InTime(deadline, t.onFailure) then Unreachable else Cancelled)
      case Response(status, _, body) =>
        if AsksAgain(t.reply, isGet) && first + n / 2 < 3 then o.result == Err(OutlastsBudget(status))
        else if status < 200 || status > 299 then o.result == Err(HttpError(status))
        else if body.Data? then o.result == Ok(body.data)
        else o.result == Err(Malformed)
  }

  lemma EndsStop<T>(deadline: Option<int>, isGet: bool, script: nat -> Turn<T>, attempt: nat)
    requires attempt <= MAX_RETRIES && !Continues(deadline, isGet, script(attempt), attempt)
    ensures EndsAs(deadline, isGet, script, attempt, LastTurn(deadline, isGet, script(attempt), attempt))
  {}

  lemma EndsCons<T>(deadline: Option<int>, isGet: bool, script: nat -> Turn<T>, first: nat, o: Outcome<T>,
                    rest: Outcome<T>)
    requires EndsAs(deadline, isGet, script, first + 1, rest)
    requires |o.events| == |rest.events| + 2 && o.result == rest.result
    ensures EndsAs(deadline, isGet, script, first, o)
  {
    assert |o.events| / 2 == |rest.events| / 2 + 1 && |o.events| % 2 == |rest.events| % 2;
  }

  /** The result of every run follows from the last reply and the budget at that moment. */
  lemma {:induction false} EndsExactly<T>(deadline: Option<int>, isGet: bool, script: nat -> Turn<T>, attempt: nat)
    requires attempt <= MAX_RETRIES
    ensures EndsAs(deadline, isGet, script, attempt, RunFrom(deadline, isGet, script, attempt))
    decreases MAX_RETRIES - attempt
  {
    if Continues(deadline, isGet, script(attempt), attempt) {
      EndsExactly(deadline, isGet, script, attempt + 1);
      EndsCons(deadline, isGet, script, attempt, RunFrom(deadline, isGet, script, attempt),
               RunFrom(deadline, isGet, script, attempt + 1));
    } else {
      EndsStop(deadline, isGet, script, attempt);
    }
  }
}
