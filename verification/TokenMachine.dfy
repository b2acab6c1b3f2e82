/**
 * The application-token cache in use: the cache object, its shared refreshes and their callers change in
 * place, and every change is an event of the runs the cache's theorems speak about.
 */
module TokenMachine {
  import opened Domain
  import opened TokenCache

  /** One more event. */
  lemma {:induction false} PlaySnoc(refreshBefore: Time, events: seq<Event>, event: Event)
    ensures Play(refreshBefore, events + [event]) == Advance(Play(refreshBefore, events), event)
  {
    assert (events + [event])[..|events|] == events;
  }

  /** The three things a call can do. */
  lemma {:induction false} CallStep(s: System, c: nat, now: Time)
    requires c !in s.callers
    ensures Advance(s, Call(c, now))
         == if Fresh(s.cache, s.refreshBefore, now) then
              s.(callers := s.callers[c := Hit(s.cache.token, now, s.cache.expiresAt)])
            else if s.flight.Some? then s.(callers := s.callers[c := Waiting(s.flight.value)])
            else s.(callers := s.callers[c := Waiting(s.started)], flight := Some(s.started), started := s.started + 1)
  {
  }

  class Machine {
    const cache: AppTokenCache
    ghost var refreshes: seq<TokenRefresh>
    ghost var callers: map<nat, Caller>
    ghost var events: seq<Event>

    /** What the finished refreshes came to. */
    ghost function Outcomes(): map<nat, Outcome>
      reads this`refreshes, set r | r in refreshes
    {
      map r: nat | r < |refreshes| && refreshes[r].outcome.Some? :: refreshes[r].outcome.value
    }

    /** The running refresh is the newest one. */
    ghost function Flight(): Option<nat>
      reads this`refreshes, cache
    {
      if cache.refresh == null || |refreshes| == 0 then None
      else var last: nat := |refreshes| - 1; Some(last)
    }

    ghost function View(): System
      reads this`refreshes, this`callers, cache, set r | r in refreshes
    {
      System(cache.View(), cache.refreshBefore, |refreshes|,
             Flight(), Outcomes(), callers)
    }

    /** The shared refresh is the newest one and still open; all others are closed. */
    ghost predicate Consistent()
      reads this`refreshes, cache, set r | r in refreshes
    {
      && (forall i, j :: 0 <= i < j < |refreshes| ==> refreshes[i] != refreshes[j])
      && (forall i :: 0 <= i < |refreshes| ==> refreshes[i].Valid())
      && (cache.refresh != null ==>
            |refreshes| > 0 && cache.refresh == refreshes[|refreshes| - 1] && !cache.refresh.done)
    }

    ghost predicate Valid()
      reads this, cache, set r | r in refreshes
    {
      Consistent() && View() == Play(cache.refreshBefore, events)
    }

    /** The one change since `before` is this event. */
    ghost predicate Did(before: System, past: seq<Event>, event: Event)
      reads this, cache, set r | r in refreshes
    {
      Valid() && View() == Advance(before, event) && events == past + [event]
    }

    constructor (refreshBefore: Time)
      ensures Valid() && events == [] && fresh(cache) && refreshes == []
      ensures cache.refreshBefore == refreshBefore
    {
      cache := new AppTokenCache(refreshBefore);
      refreshes, callers, events := [], map[], [];
    }

    ghost method Record(before: System, event: Event)
      requires Consistent() && before == Play(cache.refreshBefore, events) && View() == Advance(before, event)
      modifies this`events
      ensures Did(before, old(events), event)
    {
      PlaySnoc(cache.refreshBefore, events, event);
      events := events + [event];
    }

    /** A call: a token at once, or the shared refresh to wait for. */
    method Call(ghost c: nat, now: Time) returns (hit: Option<string>, wait: TokenRefresh?)
      requires Valid() && c !in callers
      modifies this, cache
      ensures Did(old(View()), old(events), TokenCache.Call(c, now))
      ensures hit.Some? ==> callers[c] == Hit(hit.value, now, cache.expiresAt) && now < cache.expiresAt
      ensures hit.None? ==> callers[c].Waiting? && WaitsFor(c, wait)
    {
      ghost var before := View();
      var started;
      hit, wait, started := cache.Ask(now);
      CallStep(before, c, now);
      if hit.Some? {
        Enter(c, Hit(hit.value, now, cache.expiresAt), before, now);
      } else if started {
        EnterFirst(c, wait, before, now);
      } else {
        Enter(c, Waiting(|refreshes| - 1), before, now);
      }
    }

    /** A refresh was started. */
    ghost method Start(own: TokenRefresh)
      requires Apart(own) && cache.refresh == own && own.Valid() && !own.done
      modifies this`refreshes
      ensures refreshes == old(refreshes) + [own] && Consistent() && Outcomes() == old(Outcomes())
    {
      ghost var before := Outcomes();
      refreshes := refreshes + [own];
      assert Outcomes() == before;
    }

    /** As `Consistent`, before the refresh that was just started is among the others. */
    ghost predicate Apart(own: TokenRefresh)
      reads this`refreshes, set r | r in refreshes
    {
      && own !in refreshes
      && (forall i, j :: 0 <= i < j < |refreshes| ==> refreshes[i] != refreshes[j])
      && (forall i :: 0 <= i < |refreshes| ==> refreshes[i].Valid())
    }

    /** The caller that starts a refresh is its first waiter. */
    ghost method EnterFirst(c: nat, own: TokenRefresh, before: System, now: Time)
      requires Apart(own) && cache.refresh == own && own.Valid() && !own.done
      requires before == Play(cache.refreshBefore, events) && c !in before.callers && before.flight.None?
      requires before.cache == cache.View() && before.refreshBefore == cache.refreshBefore
      requires before.started == |refreshes| && before.outcomes == Outcomes() && before.callers == callers
      requires !Fresh(before.cache, before.refreshBefore, now)
      modifies this`refreshes, this`callers, this`events
      ensures Did(before, old(events), TokenCache.Call(c, now)) && refreshes == old(refreshes) + [own]
      ensures callers == old(callers)[c := Waiting(|refreshes| - 1)]
    {
      Start(own);
      CallStep(before, c, now);
      Enter(c, Waiting(|refreshes| - 1), before, now);
    }

    /** A caller takes its place. */
    ghost method Enter(c: nat, caller: Caller, before: System, now: Time)
      requires Consistent() && before == Play(cache.refreshBefore, events)
      requires View().(callers := callers[c := caller]) == Advance(before, TokenCache.Call(c, now))
      modifies this`callers, this`events
      ensures Did(before, old(events), TokenCache.Call(c, now)) && callers == old(callers)[c := caller]
    {
      callers := callers[c := caller];
      Record(before, TokenCache.Call(c, now));
    }

    /** The waiter's refresh is this object. */
    ghost predicate WaitsFor(c: nat, own: TokenRefresh?)
      reads this
    {
      c in callers && callers[c].Waiting? && callers[c].refresh < |refreshes| && refreshes[callers[c].refresh] == own
    }

    /** The running fetch ends. */
    method Finish(fetched: Fetched, now: Time)
      requires Valid() && cache.refresh != null
      modifies this, cache, cache.refresh
      ensures Did(old(View()), old(events), TokenCache.Finish(fetched, now))
    {
      ghost var before, last := View(), |refreshes| - 1;
      cache.FetchToken(cache.refresh, fetched, now);
      assert Outcomes() == before.outcomes[last := Settle(before.cache, fetched, now).1];
      Record(before, TokenCache.Finish(fetched, now));
    }

    /**
     * A waiter whose refresh has ended returns with what that refresh came to: the same as every other waiter
     * of it, and a token only if the token was unexpired when it was chosen.
     */
    method Wake(ghost c: nat, own: TokenRefresh) returns (answer: string, error: Option<Error>)
      requires Valid() && WaitsFor(c, own) && own.done
      modifies this
      ensures Did(old(View()), old(events), TokenCache.Wake(c))
      ensures c in callers && callers[c].Informed? && callers[c].refresh == old(callers)[c].refresh
      ensures Unexpired(callers[c].outcome)
      ensures forall d :: d in callers && callers[d].Informed? && callers[d].refresh == callers[c].refresh ==>
                Tells(callers[d].outcome, answer, error)
    {
      ghost var before, r := View(), callers[c].refresh;
      answer, error := cache.WaitForTokenRefresh(own, false);
      callers := callers[c := Informed(r, before.outcomes[r])];
      assert Outcomes() == before.outcomes;
      Record(before, TokenCache.Wake(c));
      PlayInv(cache.refreshBefore, events);
      forall d | d in callers && callers[d].Informed? && callers[d].refresh == r
        ensures Tells(callers[d].outcome, answer, error)
      {
        assert CallerOk(View(), callers[d]);
      }
    }

    /** A waiter is cancelled: only its own entry changes. */
    method Cancel(ghost c: nat, own: TokenRefresh) returns (error: Error)
      requires Valid() && WaitsFor(c, own)
      modifies this
      ensures Did(old(View()), old(events), TokenCache.Cancel(c)) && error == Unavailable
      ensures callers == old(callers)[c := Cancelled]
    {
      ghost var before := View();
      var _, cause := cache.WaitForTokenRefresh(own, true);
      callers := callers[c := Cancelled];
      assert Outcomes() == before.outcomes;
      Record(before, TokenCache.Cancel(c));
      error := cause.value;
    }
  }
}
