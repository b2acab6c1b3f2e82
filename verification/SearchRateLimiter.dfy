/**
 * The per-user search limiter: fixed one-minute windows that open with an admitted request, kept in a map
 * that drops finished windows when it grows past 1024 users.
 */
module SearchRateLimiter {
  import opened Domain
  import opened DecisionLog

  const WINDOW: Time := MINUTE
  const MANY := 1024

  datatype Window = Window(started: Time, requests: nat)

  predicate Finished(window: Window, now: Time) {
    now < window.started || WINDOW <= now - window.started
  }

  function Pruned(states: map<string, Window>, now: Time): map<string, Window> {
    map user | user in states && !Finished(states[user], now) :: states[user]
  }

  /** The window a request of the user is counted in. */
  function Current(states: map<string, Window>, user: string, now: Time): Window {
    if user !in states || Finished(states[user], now) then Window(now, 0) else states[user]
  }

  function After(states: map<string, Window>, limit: nat, user: string, now: Time): map<string, Window> {
    var window := Current(states, user, now);
    var stored := states[user := Window(window.started, window.requests + 1)];
    if limit <= window.requests then states
    else if MANY < |stored| then Pruned(stored, now) else stored
  }

  predicate Admits(states: map<string, Window>, limit: nat, user: string, now: Time) {
    Current(states, user, now).requests < limit
  }

  class SearchLimiter {
    const limit: nat
    var states: map<string, Window>

    constructor (limit: nat)
      ensures this.limit == limit && states == map[]
    {
      this.limit, states := limit, map[];
    }

    method Allow(user: string, now: Time) returns (allowed: bool)
      modifies this
      ensures allowed == Admits(old(states), limit, user, now)
      ensures states == After(old(states), limit, user, now)
    {
      var state := Window(now, 0);
      if user in states && !(now < states[user].started) && !(WINDOW <= now - states[user].started) {
        state := states[user];
      }
      if limit <= state.requests {
        return false;
      }
      states := states[user := state.(requests := state.requests + 1)];
      if MANY < |states| {
        Prune(now);
      }
      return true;
    }

    method Prune(now: Time)
      modifies this
      ensures states == Pruned(old(states), now)
    {
      var all := states;
      var rest := states.Keys;
      while rest != {}
        invariant rest <= all.Keys
        invariant states == map user | user in all && (user in rest || !Finished(all[user], now)) :: all[user]
        decreases |rest|
      {
        var user :| user in rest;
        if now < states[user].started || WINDOW <= now - states[user].started {
          states := states - {user};
        }
        rest := rest - {user};
      }
    }
  }

  // The limiter that never forgets: it decides from the complete history of its answers.

  /** A user's window opens with the first admitted request that no earlier window covers. */
  function Openings(history: seq<Record>, user: string): seq<Time> {
    if history == [] then []
    else
      var last := history[|history| - 1];
      var earlier := Openings(history[..|history| - 1], user);
      if last.key == user && last.admitted && !Covered(earlier, last.now) then earlier + [last.now] else earlier
  }

  /** Whether the latest window is still running. */
  predicate Covered(openings: seq<Time>, now: Time) {
    openings != [] && now < openings[|openings| - 1] + WINDOW
  }

  predicate Ideal(history: seq<Record>, limit: nat, user: string, now: Time) {
    var openings := Openings(history, user);
    if Covered(openings, now)
    then InWindow(history, user, openings[|openings| - 1]) < limit
    else 0 < limit
  }

  function InWindow(history: seq<Record>, user: string, started: Time): nat {
    Count(history, user, started, started + WINDOW)
  }

  datatype Request = Request(user: string, now: Time)

  datatype World = World(states: map<string, Window>, history: seq<Record>)

  function Step(w: World, limit: nat, r: Request): World {
    World(After(w.states, limit, r.user, r.now),
          w.history + [Record(r.user, r.now, Admits(w.states, limit, r.user, r.now))])
  }

  function Run(limit: nat, requests: seq<Request>): World {
    if requests == [] then World(map[], [])
    else Step(Run(limit, requests[..|requests| - 1]), limit, requests[|requests| - 1])
  }

  /** The answers of the limiter that never forgets. */
  function IdealRun(limit: nat, requests: seq<Request>): seq<Record> {
    if requests == [] then []
    else
      var history, r := IdealRun(limit, requests[..|requests| - 1]), requests[|requests| - 1];
      history + [Record(r.user, r.now, Ideal(history, limit, r.user, r.now))]
  }

  predicate Monotone(requests: seq<Request>) {
    forall i, j :: 0 <= i < j < |requests| ==> requests[i].now <= requests[j].now
  }

  lemma {:induction false} OpeningsSnoc(history: seq<Record>, record: Record, user: string)
    ensures Openings(history + [record], user)
         == if record.key == user && record.admitted && !Covered(Openings(history, user), record.now)
            then Openings(history, user) + [record.now] else Openings(history, user)
  {
    assert (history + [record])[..|history|] == history;
  }

  predicate NoneAfter(history: seq<Record>, clock: Time) {
    forall i :: 0 <= i < |history| ==> history[i].now <= clock
  }

  /** A user's windows are disjoint, each within the limit, and together hold every admitted request. */
  predicate WindowsOk(history: seq<Record>, limit: nat, user: string) {
    var openings := Openings(history, user);
    && (forall k :: 0 <= k < |openings| ==> InWindow(history, user, openings[k]) <= limit)
    && (forall k, l :: 0 <= k < l < |openings| ==> openings[k] + WINDOW <= openings[l])
    && (forall i :: 0 <= i < |history| && history[i].key == user && history[i].admitted
          ==> InSomeWindow(openings, history[i].now))
  }

  predicate InSomeWindow(openings: seq<Time>, now: Time) {
    exists k :: 0 <= k < |openings| && openings[k] <= now < openings[k] + WINDOW
  }

  /** The stored window of a user is the latest of the history; a user without one has no running window. */
  predicate StateOk(state: Option<Window>, history: seq<Record>, user: string, clock: Time) {
    var openings := Openings(history, user);
    match state
    case None => !Covered(openings, clock)
    case Some(window) =>
      && openings != [] && window.started == openings[|openings| - 1] <= clock
      && window.requests == InWindow(history, user, window.started)
  }

  function Stored(states: map<string, Window>, user: string): Option<Window> {
    if user in states then Some(states[user]) else None
  }

  lemma {:induction false} PrunedStateOk(
    states: map<string, Window>, history: seq<Record>, user: string, clock: Time)
    requires StateOk(Stored(states, user), history, user, clock)
    ensures StateOk(Stored(Pruned(states, clock), user), history, user, clock)
  {
  }

  /** The limiter and the ideal one answer alike when the state agrees with the history. */
  lemma {:induction false} SameAnswer(
    states: map<string, Window>, history: seq<Record>, limit: nat, user: string, clock: Time, now: Time)
    requires clock <= now && StateOk(Stored(states, user), history, user, clock)
    ensures Admits(states, limit, user, now) == Ideal(history, limit, user, now)
  {
  }

  /** A window that opens now holds nothing earlier. */
  lemma {:induction false} OpensEmpty(history: seq<Record>, user: string, limit: nat, now: Time)
    requires WindowsOk(history, limit, user) && !Covered(Openings(history, user), now)
    ensures InWindow(history, user, now) == 0
  {
    forall i | 0 <= i < |history| && history[i].key == user && history[i].admitted
      ensures history[i].now < now
    {
      assert InSomeWindow(Openings(history, user), history[i].now);
    }
    CountEarlier(history, user, now, now + WINDOW);
  }

  /** Each window stays within the limit. */
  lemma {:induction false} LimitsSnoc(history: seq<Record>, record: Record, limit: nat, user: string, k: nat)
    requires WindowsOk(history, limit, user) && k < |Openings(history + [record], user)|
    requires Openings(history, user) != [] ==> Openings(history, user)[|Openings(history, user)| - 1] <= record.now
    requires record.key == user ==> record.admitted == Ideal(history, limit, user, record.now)
    ensures InWindow(history + [record], user, Openings(history + [record], user)[k]) <= limit
  {
    var before, after := Openings(history, user), Openings(history + [record], user);
    OpeningsSnoc(history, record, user);
    CountSnoc(history, record, user, after[k], after[k] + WINDOW);
    if k == |before| {
      OpensEmpty(history, user, limit, record.now);
    }
  }

  lemma {:induction false} InWindowsSnoc(history: seq<Record>, record: Record, limit: nat, user: string, i: nat)
    requires WindowsOk(history, limit, user) && i < |history + [record]|
    requires Openings(history, user) != [] ==> Openings(history, user)[|Openings(history, user)| - 1] <= record.now
    requires (history + [record])[i].key == user && (history + [record])[i].admitted
    ensures InSomeWindow(Openings(history + [record], user), (history + [record])[i].now)
  {
    var before, after := Openings(history, user), Openings(history + [record], user);
    OpeningsSnoc(history, record, user);
    if i < |history| {
      assert InSomeWindow(before, history[i].now);
      var k :| 0 <= k < |before| && before[k] <= history[i].now < before[k] + WINDOW;
      assert after[k] == before[k];
    } else {
      assert after[|after| - 1] <= record.now < after[|after| - 1] + WINDOW;
    }
  }

  /** An admitted request extends the running window or opens one after all others. */
  lemma {:induction false} WindowsOkSnoc(history: seq<Record>, record: Record, limit: nat, user: string)
    requires WindowsOk(history, limit, user)
    requires record.key == user ==> record.admitted == Ideal(history, limit, user, record.now)
    requires Openings(history, user) != [] ==> Openings(history, user)[|Openings(history, user)| - 1] <= record.now
    ensures WindowsOk(history + [record], limit, user)
  {
    var after := Openings(history + [record], user);
    OpeningsSnoc(history, record, user);
    forall k | 0 <= k < |after|
      ensures InWindow(history + [record], user, after[k]) <= limit
    {
      LimitsSnoc(history, record, limit, user, k);
    }
    forall i | 0 <= i < |history + [record]| && (history + [record])[i].key == user && (history + [record])[i].admitted
      ensures InSomeWindow(after, (history + [record])[i].now)
    {
      InWindowsSnoc(history, record, limit, user, i);
    }
  }

  /** What an admitted or refused request leaves before any pruning. */
  function Unpruned(states: map<string, Window>, limit: nat, user: string, now: Time): map<string, Window> {
    var window := Current(states, user, now);
    if window.requests < limit then states[user := Window(window.started, window.requests + 1)] else states
  }

  /** Somebody else's request, a refused one, and the passing of time leave the user's window as it was. */
  lemma {:induction false} StateOkElse(
    state: Option<Window>, history: seq<Record>, record: Record, user: string, clock: Time)
    requires clock <= record.now && StateOk(state, history, user, clock)
    requires record.key != user || !record.admitted
    ensures StateOk(state, history + [record], user, record.now)
  {
  }

  lemma {:induction false} StateOkOwn(
    states: map<string, Window>, history: seq<Record>, record: Record, limit: nat, clock: Time)
    requires clock <= record.now && StateOk(Stored(states, record.key), history, record.key, clock)
    requires WindowsOk(history, limit, record.key)
    requires record.admitted
    ensures var window := Current(states, record.key, record.now);
            StateOk(Some(Window(window.started, window.requests + 1)), history + [record], record.key, record.now)
  {
    var user, openings := record.key, Openings(history, record.key);
    var window := Current(states, user, record.now);
    OpeningsSnoc(history, record, user);
    CountSnoc(history, record, user, window.started, window.started + WINDOW);
    if !Covered(openings, record.now) {
      forall i | 0 <= i < |history| && history[i].key == user && history[i].admitted
        ensures history[i].now < record.now
      {
        assert InSomeWindow(openings, history[i].now);
      }
      CountEarlier(history, user, record.now, record.now + WINDOW);
    }
  }

  lemma {:induction false} StateOkSnoc(
    states: map<string, Window>, history: seq<Record>, record: Record, limit: nat, user: string, clock: Time)
    requires clock <= record.now && StateOk(Stored(states, user), history, user, clock)
    requires WindowsOk(history, limit, user)
    requires record.admitted == Admits(states, limit, record.key, record.now)
    ensures StateOk(Stored(After(states, limit, record.key, record.now), user), history + [record], user, record.now)
  {
    var next := Unpruned(states, limit, record.key, record.now);
    if record.key != user || !record.admitted {
      StateOkElse(Stored(states, user), history, record, user, clock);
      assert Stored(next, user) == Stored(states, user);
    } else {
      StateOkOwn(states, history, record, limit, clock);
    }
    PrunedStateOk(next, history + [record], user, record.now);
  }

  predicate WorldOk(w: World, limit: nat, user: string, clock: Time) {
    NoneAfter(w.history, clock) && WindowsOk(w.history, limit, user) && StateOk(Stored(w.states, user), w.history, user, clock)
  }

  function Clock(requests: seq<Request>): Time {
    if requests == [] then 0 else requests[|requests| - 1].now
  }

  lemma {:induction false} OpeningsInHistory(history: seq<Record>, user: string, clock: Time)
    requires NoneAfter(history, clock)
    ensures forall k :: 0 <= k < |Openings(history, user)| ==> Openings(history, user)[k] <= clock
  {
    if history != [] {
      OpeningsInHistory(history[..|history| - 1], user, clock);
    }
  }

  lemma {:induction false} StepOk(w: World, limit: nat, r: Request, user: string, clock: Time)
    requires clock <= r.now && WorldOk(w, limit, user, clock)
    ensures WorldOk(Step(w, limit, r), limit, user, r.now)
  {
    var record := Record(r.user, r.now, Admits(w.states, limit, r.user, r.now));
    StateOkSnoc(w.states, w.history, record, limit, user, clock);
    if r.user == user {
      SameAnswer(w.states, w.history, limit, user, clock, r.now);
    }
    OpeningsInHistory(w.history, user, r.now);
    WindowsOkSnoc(w.history, record, limit, user);
  }

  lemma {:induction false} RunOk(limit: nat, requests: seq<Request>, user: string)
    requires Monotone(requests)
    ensures WorldOk(Run(limit, requests), limit, user, Clock(requests))
  {
    if requests != [] {
      var before, r := requests[..|requests| - 1], requests[|requests| - 1];
      RunOk(limit, before, user);
      StepOk(Run(limit, before), limit, r, user, if before == [] then r.now else Clock(before));
    }
  }

  /** Dropping finished windows never changes an answer. */
  lemma {:induction false} PruningIsExact(limit: nat, requests: seq<Request>)
    requires Monotone(requests)
    ensures Run(limit, requests).history == IdealRun(limit, requests)
  {
    if requests != [] {
      var before, r := requests[..|requests| - 1], requests[|requests| - 1];
      PruningIsExact(limit, before);
      RunOk(limit, before, r.user);
      var w := Run(limit, before);
      SameAnswer(w.states, w.history, limit, r.user, if before == [] then r.now else Clock(before), r.now);
    }
  }

  /** Every user's windows are disjoint, hold all its admitted requests, and admit at most the limit each. */
  lemma {:induction false} EachWindowWithinTheLimit(limit: nat, requests: seq<Request>, user: string)
    requires Monotone(requests)
    ensures WindowsOk(Run(limit, requests).history, limit, user)
    ensures var history := Run(limit, requests).history;
            var starts := Openings(history, user);
            && (forall k :: 0 <= k < |starts| ==> Count(history, user, starts[k], starts[k] + MINUTE) <= limit)
            && (forall k, l :: 0 <= k < l < |starts| ==> starts[k] + MINUTE <= starts[l])
  {
    RunOk(limit, requests, user);
    var history := Run(limit, requests).history;
    forall k | 0 <= k < |Openings(history, user)|
      ensures Count(history, user, Openings(history, user)[k], Openings(history, user)[k] + MINUTE) <= limit
    {
      assert InWindow(history, user, Openings(history, user)[k]) <= limit;
    }
  }

  lemma {:induction false} CountUpToClock(history: seq<Record>, user: string, from: Time, until: Time, clock: Time)
    requires NoneAfter(history, clock)
    ensures Count(history, user, from, until) <= Count(history, user, from, clock + 1)
  {
    if history != [] {
      CountUpToClock(history[..|history| - 1], user, from, until, clock);
    }
  }

  /** A user is refused only after as many admitted searches as the limit says within the last minute. */
  lemma {:induction false} RefusedOnlyWhenFull(limit: nat, requests: seq<Request>, request: Request)
    requires Monotone(requests + [request])
    ensures var w := Run(limit, requests);
            Admits(w.states, limit, request.user, request.now)
            || limit <= Count(w.history, request.user, request.now - MINUTE + 1, request.now + 1)
  {
    var w, user, now := Run(limit, requests), request.user, request.now;
    assert forall i :: 0 <= i < |requests| ==> (requests + [request])[i] == requests[i];
    assert (requests + [request])[|requests|] == request;
    RunOk(limit, requests, user);
    var clock := if requests == [] then now else Clock(requests);
    SameAnswer(w.states, w.history, limit, user, clock, now);
    var openings := Openings(w.history, user);
    if !Admits(w.states, limit, user, now) && Covered(openings, now) {
      var start := openings[|openings| - 1];
      CountUpToClock(w.history, user, start, start + WINDOW, now);
      CountWithin(w.history, user, start, now + 1, now - MINUTE + 1, now + 1);
    }
  }
}
