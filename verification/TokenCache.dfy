/**
 * The application-token cache: one shared fetch at a time, a fallback on a token that is still valid,
 * a backoff after a failed fetch, and waiters that may be cancelled.
 *
 * `Ask` and `Settle` are the two sections the code runs under its mutex, as functions on the cache's
 * fields; the class executes them in place, and a run interleaves them for any number of callers.
 */
module TokenCache {
  import opened Domain

  const REFRESH_FAILURE_BACKOFF: Time := MINUTE

  /** The empty token is the cache's "no token"; `retryAt` is unset until a fetch fails. */
  datatype Cache = Cache(token: string, expiresAt: Time, retryAt: Option<Time>)

  datatype Fetched = Fetched(token: string, ttl: Time) | FetchFailed(error: Error)

  /** A token with the instant it was chosen and its expiry, or the error every waiter gets. */
  datatype Outcome = Token(token: string, chosenAt: Time, expiresAt: Time) | NoToken(error: Error)

  predicate Fresh(cache: Cache, refreshBefore: Time, now: Time) {
    && cache.token != "" && now < cache.expiresAt
    && (now + refreshBefore < cache.expiresAt || (cache.retryAt.Some? && now < cache.retryAt.value))
  }

  function Settle(cache: Cache, fetched: Fetched, now: Time): (Cache, Outcome) {
    if fetched.Fetched? && fetched.token != "" && 0 < fetched.ttl then
      (Cache(fetched.token, now + fetched.ttl, None), Token(fetched.token, now, now + fetched.ttl))
    else if cache.token != "" && now < cache.expiresAt then
      (cache.(retryAt := Some(now + REFRESH_FAILURE_BACKOFF)), Token(cache.token, now, cache.expiresAt))
    else
      (cache, NoToken(if fetched.FetchFailed? then fetched.error else Upstream))
  }

  /** A token and an error as callers see them. */
  predicate Tells(outcome: Outcome, token: string, error: Option<Error>) {
    match outcome
    case Token(chosen, _, _) => error.None? && token == chosen
    case NoToken(cause) => error == Some(cause)
  }

  /** One shared refresh; closing `done` publishes token and error to every waiter. */
  class TokenRefresh {
    var done: bool
    var token: string
    var error: Option<Error>
    ghost var outcome: Option<Outcome>

    ghost predicate Valid()
      reads this
    {
      && (done <==> outcome.Some?)
      && (done ==> Tells(outcome.value, token, error))
    }

    constructor ()
      ensures Valid() && !done && token == "" && error == None
    {
      done, token, error, outcome := false, "", None, None;
    }
  }

  class AppTokenCache {
    var token: string
    var expiresAt: Time
    var refreshRetryAt: Option<Time>
    var refresh: TokenRefresh?
    const refreshBefore: Time

    function View(): Cache
      reads this
    {
      Cache(token, expiresAt, refreshRetryAt)
    }

    constructor (refreshBefore: Time)
      ensures View() == Cache("", 0, None) && refresh == null && this.refreshBefore == refreshBefore
    {
      token, expiresAt, refreshRetryAt, refresh := "", 0, None, null;
      this.refreshBefore := refreshBefore;
    }

    /** The locked section of a call: a token at once, or the refresh to wait for, started only if there is none. */
    method Ask(now: Time) returns (hit: Option<string>, wait: TokenRefresh?, started: bool)
      modifies this
      ensures View() == old(View())
      ensures hit.Some? <==> Fresh(View(), refreshBefore, now)
      ensures hit.Some? <==>
        && token != "" && now < expiresAt
        && (now + refreshBefore < expiresAt || (refreshRetryAt.Some? && now < refreshRetryAt.value))
      ensures hit.Some? ==> hit.value == token && now < expiresAt && wait == null && !started && refresh == old(refresh)
      ensures hit.None? ==> wait != null && wait == refresh
      ensures hit.None? && old(refresh) != null ==> wait == old(refresh) && !started
      ensures hit.None? && old(refresh) == null ==> started && fresh(wait) && wait.Valid() && !wait.done
    {
      hit, wait, started := None, null, false;
      if token != "" && now < expiresAt
         && (now + refreshBefore < expiresAt || (refreshRetryAt.Some? && now < refreshRetryAt.value)) {
        hit := Some(token);
      } else if refresh != null {
        wait := refresh;
      } else {
        refresh := new TokenRefresh();
        wait, started := refresh, true;
      }
    }

    /**
     * The locked section that ends a fetch. A good answer is stored and given out, also when the old token is still
     * valid; otherwise a token that is still valid is given out for now; otherwise there is none.
     */
    method FetchToken(own: TokenRefresh, fetched: Fetched, now: Time)
      requires refresh == own && !own.done
      modifies this, own
      ensures own.Valid() && own.done && refresh == null
      ensures View() == Settle(old(View()), fetched, now).0 && own.outcome == Some(Settle(old(View()), fetched, now).1)
      ensures var outcome := Settle(old(View()), fetched, now).1;
              if outcome.Token?
              then own.error == None && own.token == outcome.token == token && now < expiresAt
              else own.error == Some(outcome.error)
      ensures fetched.Fetched? && fetched.token != "" && 0 < fetched.ttl ==>
        && View() == Cache(fetched.token, now + fetched.ttl, None)
        && own.token == fetched.token && own.error == None
      ensures !(fetched.Fetched? && fetched.token != "" && 0 < fetched.ttl) ==>
        token == old(token) && expiresAt == old(expiresAt)
      ensures !(fetched.Fetched? && fetched.token != "" && 0 < fetched.ttl) && token != "" && now < expiresAt ==>
        own.token == token && own.error == None && refreshRetryAt == Some(now + MINUTE)
      ensures !(fetched.Fetched? && fetched.token != "" && 0 < fetched.ttl) && (token == "" || expiresAt <= now) ==>
        && refreshRetryAt == old(refreshRetryAt)
        && own.error == Some(if fetched.FetchFailed? then fetched.error else Upstream)
    {
      own.outcome := Some(Settle(View(), fetched, now).1);
      if fetched.Fetched? && fetched.token != "" && 0 < fetched.ttl {
        token, expiresAt, refreshRetryAt := fetched.token, now + fetched.ttl, None;
        own.token, own.error := fetched.token, None;
      } else if token != "" && now < expiresAt {
        own.token, own.error := token, None;
        refreshRetryAt := Some(now + REFRESH_FAILURE_BACKOFF);
      } else {
        own.token := if fetched.Fetched? then fetched.token else "";
        own.error := Some(if fetched.FetchFailed? then fetched.error else Upstream);
      }
      refresh := null;
      own.done := true;
    }

    /** A waiter leaves with what the refresh came to or, when cancelled first, with an error; nothing shared changes. */
    method WaitForTokenRefresh(own: TokenRefresh, cancelled: bool) returns (answer: string, error: Option<Error>)
      requires own.Valid() && (own.done || cancelled)
      ensures cancelled ==> error == Some(Unavailable)
      ensures !cancelled ==> Tells(own.outcome.value, answer, error)
    {
      if cancelled {
        return "", Some(Unavailable);
      }
      return own.token, own.error;
    }
  }

  // Any number of callers, in any order.

  datatype Caller =
    | Waiting(refresh: nat)
    | Hit(token: string, chosenAt: Time, expiresAt: Time)
    | Informed(refresh: nat, outcome: Outcome)
    | Cancelled

  /** `started` fetches have been started, `outcomes` are the finished ones, `flight` the running one. */
  datatype System = System(
    cache: Cache,
    refreshBefore: Time,
    started: nat,
    flight: Option<nat>,
    outcomes: map<nat, Outcome>,
    callers: map<nat, Caller>)

  datatype Event =
    | Call(caller: nat, now: Time)
    | Finish(fetched: Fetched, now: Time)
    | Wake(caller: nat)
    | Cancel(caller: nat)

  function Advance(s: System, event: Event): System {
    match event
    case Call(c, now) =>
      if c in s.callers then s
      else if Fresh(s.cache, s.refreshBefore, now) then
        s.(callers := s.callers[c := Hit(s.cache.token, now, s.cache.expiresAt)])
      else if s.flight.Some? then
        s.(callers := s.callers[c := Waiting(s.flight.value)])
      else
        s.(callers := s.callers[c := Waiting(s.started)], flight := Some(s.started), started := s.started + 1)
    case Finish(fetched, now) =>
      if s.flight.None? then s
      else
        var (cache, outcome) := Settle(s.cache, fetched, now);
        s.(cache := cache, outcomes := s.outcomes[s.flight.value := outcome], flight := None)
    case Wake(c) =>
      if c in s.callers && s.callers[c].Waiting? && s.callers[c].refresh in s.outcomes then
        s.(callers := s.callers[c := Informed(s.callers[c].refresh, s.outcomes[s.callers[c].refresh])])
      else s
    case Cancel(c) =>
      if c in s.callers && s.callers[c].Waiting? then s.(callers := s.callers[c := Cancelled]) else s
  }

  function Initial(refreshBefore: Time): System {
    System(Cache("", 0, None), refreshBefore, 0, None, map[], map[])
  }

  function Play(refreshBefore: Time, events: seq<Event>): System {
    if events == [] then Initial(refreshBefore)
    else Advance(Play(refreshBefore, events[..|events| - 1]), events[|events| - 1])
  }

  predicate Unexpired(outcome: Outcome) {
    outcome.Token? ==> outcome.chosenAt < outcome.expiresAt
  }

  predicate CallerOk(s: System, caller: Caller) {
    match caller
    case Waiting(r) => r < s.started
    case Hit(_, chosenAt, expiresAt) => chosenAt < expiresAt
    case Informed(r, outcome) => r in s.outcomes && s.outcomes[r] == outcome
    case Cancelled => true
  }

  ghost predicate Inv(s: System) {
    && (forall r: nat :: r in s.outcomes <==> r < s.started && s.flight != Some(r))
    && (s.flight.Some? ==> s.flight.value < s.started)
    && (forall r :: r in s.outcomes ==> Unexpired(s.outcomes[r]))
    && (forall c :: c in s.callers ==> CallerOk(s, s.callers[c]))
  }

  /** One event keeps the invariant and every outcome there is. */
  lemma {:induction false} AdvanceInv(s: System, event: Event)
    requires Inv(s)
    ensures Inv(Advance(s, event)) && Advance(s, event).refreshBefore == s.refreshBefore
    ensures forall r :: r in s.outcomes ==> r in Advance(s, event).outcomes && Advance(s, event).outcomes[r] == s.outcomes[r]
  {
  }

  lemma {:induction false} PlayInv(refreshBefore: Time, events: seq<Event>)
    ensures Inv(Play(refreshBefore, events)) && Play(refreshBefore, events).refreshBefore == refreshBefore
  {
    if events != [] {
      PlayInv(refreshBefore, events[..|events| - 1]);
      AdvanceInv(Play(refreshBefore, events[..|events| - 1]), events[|events| - 1]);
    }
  }

  /** Every fetch ever started has finished, except at most one. */
  lemma {:induction false} OneFetchInFlight(refreshBefore: Time, events: seq<Event>)
    ensures var s := Play(refreshBefore, events);
            s.started - 1 <= |s.outcomes| <= s.started
  {
    PlayInv(refreshBefore, events);
    var s := Play(refreshBefore, events);
    if s.flight.Some? {
      assert s.outcomes.Keys == Below(s.started) - {s.flight.value};
    } else {
      assert s.outcomes.Keys == Below(s.started);
    }
  }

  ghost function Below(n: nat): (all: set<nat>)
    ensures |all| == n && forall r: nat :: r in all <==> r < n
  {
    if n == 0 then {} else Below(n - 1) + {n - 1}
  }

  /** All waiters of one refresh that are answered get the same result, and a token was valid when it was chosen. */
  lemma {:induction false} WaitersAgree(refreshBefore: Time, events: seq<Event>, c: nat, d: nat)
    requires var s := Play(refreshBefore, events);
             && c in s.callers && s.callers[c].Informed? && d in s.callers && s.callers[d].Informed?
             && s.callers[c].refresh == s.callers[d].refresh
    ensures var s := Play(refreshBefore, events);
            s.callers[c].outcome == s.callers[d].outcome && Unexpired(s.callers[c].outcome)
  {
    PlayInv(refreshBefore, events);
    var s := Play(refreshBefore, events);
    assert CallerOk(s, s.callers[c]) && CallerOk(s, s.callers[d]);
  }

  /** A token handed out at once was valid when it was chosen. */
  lemma {:induction false} HitsAreValid(refreshBefore: Time, events: seq<Event>, c: nat)
    requires c in Play(refreshBefore, events).callers && Play(refreshBefore, events).callers[c].Hit?
    ensures Play(refreshBefore, events).callers[c].chosenAt < Play(refreshBefore, events).callers[c].expiresAt
  {
    PlayInv(refreshBefore, events);
    var s := Play(refreshBefore, events);
    assert CallerOk(s, s.callers[c]);
  }

  // Backoff.

  /** `trace` lists the states the events lead through, from any state on. */
  predicate Leads(trace: seq<System>, events: seq<Event>) {
    |trace| == |events| + 1 && forall k :: 0 <= k < |events| ==> StepAt(trace, events, k)
  }

  predicate StepAt(trace: seq<System>, events: seq<Event>, k: nat)
    requires k < |events| < |trace|
  {
    trace[k + 1] == Advance(trace[k], events[k])
  }

  /** The event starts a fetch. */
  predicate Starts(s: System, event: Event) { Advance(s, event).started > s.started }

  /** The event ends a fetch that failed and falls back on the cached token. */
  predicate FallsBack(s: System, event: Event) {
    && event.Finish? && s.flight.Some?
    && !(event.fetched.Fetched? && event.fetched.token != "" && 0 < event.fetched.ttl)
    && s.cache.token != "" && event.now < s.cache.expiresAt
  }

  predicate Timed(event: Event) { event.Call? || event.Finish? }

  /** The clock read under the lock never goes back. */
  predicate Monotone(events: seq<Event>) {
    forall i, j :: 0 <= i < j < |events| && Timed(events[i]) && Timed(events[j]) ==> events[i].now <= events[j].now
  }

  /** While no fetch starts after a fallback, the cache stays as the fallback left it. */
  lemma {:induction false} QuietCache(trace: seq<System>, events: seq<Event>, i: nat, j: nat)
    requires Leads(trace, events) && i < j <= |events| && FallsBack(trace[i], events[i])
    requires forall k :: i < k < j ==> !Starts(trace[k], events[k])
    ensures trace[j].cache == trace[i + 1].cache && trace[j].flight.None?
    decreases j
  {
    assert StepAt(trace, events, j - 1);
    if i + 1 < j {
      QuietCache(trace, events, i, j - 1);
    }
  }

  /**
   * After a failed refresh that fell back on the cached token, no fetch starts before the retry time
   * or the token's expiry, whichever is earlier.
   */
  lemma {:induction false} BackoffHolds(trace: seq<System>, events: seq<Event>, i: nat, j: nat)
    requires Leads(trace, events) && Monotone(events) && i < j < |events|
    requires FallsBack(trace[i], events[i]) && Starts(trace[j], events[j])
    ensures events[j].Call?
    ensures Min(events[i].now + REFRESH_FAILURE_BACKOFF, trace[i].cache.expiresAt) <= events[j].now
    decreases j
  {
    if k :| i < k < j && Starts(trace[k], events[k]) {
      BackoffHolds(trace, events, i, k);
    } else {
      QuietCache(trace, events, i, j);
      assert StepAt(trace, events, i);
    }
  }

  // What a successful fetch is for.

  /** A fetch with a good answer: its token is stored and given out, and the backoff is over. */
  lemma {:induction false} SuccessIsStored(s: System, t: string, ttl: Time, now: Time)
    requires s.flight.Some? && t != "" && 0 < ttl
    ensures Advance(s, Finish(Fetched(t, ttl), now))
         == s.(cache := Cache(t, now + ttl, None), flight := None,
               outcomes := s.outcomes[s.flight.value := Token(t, now, now + ttl)])
  {
  }

  /** Any other end of a fetch: the old token while it is valid, with a minute until the next try; otherwise an error. */
  lemma {:induction false} FailureIsBridged(s: System, fetched: Fetched, now: Time)
    requires s.flight.Some? && !(fetched.Fetched? && fetched.token != "" && 0 < fetched.ttl)
    ensures var after := Advance(s, Finish(fetched, now));
            if s.cache.token != "" && now < s.cache.expiresAt then
              && after.cache == Cache(s.cache.token, s.cache.expiresAt, Some(now + MINUTE))
              && after.outcomes == s.outcomes[s.flight.value := Token(s.cache.token, now, s.cache.expiresAt)]
            else
              && after.cache == s.cache
              && after.outcomes == s.outcomes[
                   s.flight.value := NoToken(if fetched.FetchFailed? then fetched.error else Upstream)]
  {
  }

  /** The event ends the fetch that is running. */
  predicate EndsFetch(s: System, event: Event) { event.Finish? && s.flight.Some? }

  /** The cache is as the fetch at `i` left it until another fetch ends. */
  lemma {:induction false} CacheStays(trace: seq<System>, events: seq<Event>, i: nat, j: nat)
    requires Leads(trace, events) && i <= j <= |events|
    requires forall k :: i <= k < j ==> !EndsFetch(trace[k], events[k])
    ensures trace[j].cache == trace[i].cache && trace[j].refreshBefore == trace[i].refreshBefore
    decreases j
  {
    if i < j {
      assert StepAt(trace, events, j - 1);
      CacheStays(trace, events, i, j - 1);
    }
  }

  lemma {:induction false} InvAlong(trace: seq<System>, events: seq<Event>, j: nat)
    requires Leads(trace, events) && Inv(trace[0]) && j <= |events|
    ensures Inv(trace[j])
    decreases j
  {
    if j > 0 {
      assert StepAt(trace, events, j - 1);
      InvAlong(trace, events, j - 1);
      AdvanceInv(trace[j - 1], events[j - 1]);
    }
  }

  /** What a refresh came to does not change afterwards. */
  lemma {:induction false} OutcomeStays(trace: seq<System>, events: seq<Event>, i: nat, j: nat, r: nat)
    requires Leads(trace, events) && Inv(trace[0]) && i <= j <= |events|
    requires r in trace[i].outcomes
    ensures r in trace[j].outcomes && trace[j].outcomes[r] == trace[i].outcomes[r]
    decreases j
  {
    if i < j {
      assert StepAt(trace, events, j - 1);
      OutcomeStays(trace, events, i, j - 1, r);
      InvAlong(trace, events, j - 1);
      AdvanceInv(trace[j - 1], events[j - 1]);
    }
  }

  /** At `i` the refresh `r` ended with this good answer. */
  predicate Succeeds(trace: seq<System>, events: seq<Event>, i: nat, r: nat, t: string, ttl: Time)
    requires |events| < |trace|
  {
    && i < |events| && trace[i].flight == Some(r) && t != "" && 0 < ttl
    && events[i].Finish? && events[i].fetched == Fetched(t, ttl)
  }

  predicate CallerIs(s: System, c: nat, caller: Caller) { c in s.callers && s.callers[c] == caller }

  /** Whoever waited for a refresh that succeeded is given the new token, whenever it wakes. */
  lemma {:induction false} WaitersGetTheNewToken(
    trace: seq<System>, events: seq<Event>, i: nat, j: nat, r: nat, t: string, ttl: Time)
    requires Leads(trace, events) && Inv(trace[0]) && Succeeds(trace, events, i, r, t, ttl) && i < j < |events|
    ensures events[j].Wake? && CallerIs(trace[j], events[j].caller, Waiting(r)) ==>
              CallerIs(trace[j + 1], events[j].caller, Informed(r, Token(t, events[i].now, events[i].now + ttl)))
    ensures forall c :: c in trace[j].callers && trace[j].callers[c].Informed? && trace[j].callers[c].refresh == r ==>
              trace[j].callers[c].outcome == Token(t, events[i].now, events[i].now + ttl)
  {
    assert StepAt(trace, events, i) && StepAt(trace, events, j);
    SuccessIsStored(trace[i], t, ttl, events[i].now);
    InvAlong(trace, events, j);
    OutcomeStays(trace, events, i + 1, j, r);
    forall c | c in trace[j].callers && trace[j].callers[c].Informed? && trace[j].callers[c].refresh == r
      ensures trace[j].callers[c].outcome == Token(t, events[i].now, events[i].now + ttl)
    {
      assert CallerOk(trace[j], trace[j].callers[c]);
    }
  }

  /**
   * Every later call gets the new token at once until `refreshBefore` ahead of its expiry, and the first one after
   * that starts the next fetch while the token is still valid: the token is renewed ahead of time.
   */
  lemma {:induction false} CallsGetTheNewToken(
    trace: seq<System>, events: seq<Event>, i: nat, j: nat, r: nat, t: string, ttl: Time)
    requires Leads(trace, events) && Succeeds(trace, events, i, r, t, ttl) && i < j < |events|
    requires forall k :: i < k < j ==> !EndsFetch(trace[k], events[k])
    requires events[j].Call? && events[j].caller !in trace[j].callers && 0 <= trace[j].refreshBefore
    ensures var now, expiresAt := events[j].now, events[i].now + ttl;
            if now + trace[j].refreshBefore < expiresAt
            then CallerIs(trace[j + 1], events[j].caller, Hit(t, now, expiresAt))
            else
              && trace[j + 1].flight.Some? && CallerIs(trace[j + 1], events[j].caller, Waiting(trace[j + 1].flight.value))
              && (trace[j].flight.None? ==> trace[j + 1].started == trace[j].started + 1)
  {
    assert StepAt(trace, events, i) && StepAt(trace, events, j);
    SuccessIsStored(trace[i], t, ttl, events[i].now);
    CacheStays(trace, events, i + 1, j);
  }

  // Cancellation.

  /** Everything shared is equal, and so is every caller that was not cancelled. */
  predicate SameButCancelled(a: System, b: System) {
    && a.cache == b.cache && a.refreshBefore == b.refreshBefore && a.started == b.started
    && a.flight == b.flight && a.outcomes == b.outcomes && a.callers.Keys == b.callers.Keys
    && forall c :: c in a.callers && !a.callers[c].Cancelled? ==> a.callers[c] == b.callers[c]
  }

  function WithoutCancels(events: seq<Event>): seq<Event> {
    if events == [] then []
    else WithoutCancels(events[..|events| - 1])
         + (if events[|events| - 1].Cancel? then [] else [events[|events| - 1]])
  }

  /** Any event but a cancellation does the same to both. */
  lemma {:induction false} SameStep(a: System, b: System, event: Event)
    requires SameButCancelled(a, b) && !event.Cancel?
    ensures SameButCancelled(Advance(a, event), Advance(b, event))
  {
  }

  lemma {:induction false} CancelStep(a: System, b: System, event: Event)
    requires SameButCancelled(a, b) && event.Cancel?
    ensures SameButCancelled(Advance(a, event), b)
  {
  }

  /** Cancelled waiters change nothing for anybody else. */
  lemma {:induction false} CancellationIsLocal(refreshBefore: Time, events: seq<Event>)
    ensures SameButCancelled(Play(refreshBefore, events), Play(refreshBefore, WithoutCancels(events)))
  {
    if events != [] {
      var past, event := events[..|events| - 1], events[|events| - 1];
      var a, b := Play(refreshBefore, past), Play(refreshBefore, WithoutCancels(past));
      CancellationIsLocal(refreshBefore, past);
      if event.Cancel? {
        assert WithoutCancels(events) == WithoutCancels(past);
        CancelStep(a, b, event);
      } else {
        var kept := WithoutCancels(past);
        assert (kept + [event])[..|kept|] == kept;
        SameStep(a, b, event);
      }
    }
  }
}
