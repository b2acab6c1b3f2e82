/**
 * The per-user catalogue cache: at most 1024 entries that live one minute, loads shared between callers of
 * one user, and the oldest load evicted when the cache is full.
 */
module CatalogCache {
  import opened Domain
  import opened Catalog
  import opened Sets

  const TTL: Time := MINUTE
  const MAX_ENTRIES := 1024

  datatype Entry = Entry(categories: seq<Category>, loadedAt: Time, expiresAt: Time)

  type Entries = map<UserKey, Entry>

  function Lookup(entries: Entries, user: UserKey, now: Time): Option<seq<Category>> {
    if user in entries && now < entries[user].expiresAt then Some(entries[user].categories) else None
  }

  function Unexpired(entries: Entries, now: Time): Entries {
    map user | user in entries && now < entries[user].expiresAt :: entries[user]
  }

  ghost predicate Oldest(entries: Entries, user: UserKey) {
    user in entries && forall other | other in entries :: entries[user].loadedAt <= entries[other].loadedAt
  }

  /** `after` is `before` with the user's catalogue stored, expired entries gone, and one oldest evicted if full. */
  ghost predicate Stores(before: Entries, after: Entries, user: UserKey, categories: seq<Category>, now: Time) {
    var kept := Unexpired(before, now);
    var entry := Entry(categories, now, now + TTL);
    if user in kept || |kept| < MAX_ENTRIES then after == kept[user := entry]
    else exists oldest :: Oldest(kept, oldest) && after == (kept - {oldest})[user := entry]
  }

  class Cache {
    var entries: Entries

    constructor ()
      ensures entries == map[]
    {
      entries := map[];
    }

    method Cached(user: UserKey, now: Time) returns (r: Option<seq<Category>>)
      ensures r == Lookup(entries, user, now)
    {
      if user !in entries || !(now < entries[user].expiresAt) {
        return None;
      }
      r := Some(entries[user].categories);
    }

    method Store(user: UserKey, categories: seq<Category>, now: Time)
      modifies this
      ensures Stores(old(entries), entries, user, categories, now)
    {
      DropExpired(now);
      if user !in entries && MAX_ENTRIES <= |entries| {
        var oldest := FindOldest();
        entries := entries - {oldest};
      }
      entries := entries[user := Entry(categories, now, now + TTL)];
    }

    method DropExpired(now: Time)
      modifies this
      ensures entries == Unexpired(old(entries), now)
    {
      var all := entries;
      var rest := entries.Keys;
      while rest != {}
        invariant rest <= all.Keys
        invariant entries == map user | user in all && (user in rest || now < all[user].expiresAt) :: all[user]
        decreases |rest|
      {
        var user :| user in rest;
        if !(now < entries[user].expiresAt) {
          entries := entries - {user};
        }
        rest := rest - {user};
      }
    }

    method FindOldest() returns (oldest: UserKey)
      requires |entries| > 0
      ensures Oldest(entries, oldest)
    {
      var rest := entries.Keys;
      var found := None;
      assert entries.Keys != {};
      while rest != {}
        invariant rest <= entries.Keys
        invariant found.None? ==> rest == entries.Keys
        invariant found.Some? ==> found.value in entries
        invariant found.Some? ==>
          forall u | u in entries && u !in rest :: entries[found.value].loadedAt <= entries[u].loadedAt
        decreases |rest|
      {
        var user :| user in rest;
        if found.None? || entries[user].loadedAt < entries[found.value].loadedAt {
          found := Some(user);
        }
        rest := rest - {user};
      }
      oldest := found.value;
    }
  }

  // Callers, shared loads and the cache together.

  /** A load that was started for a user; `hit` when it found the cache filled in the meantime. */
  datatype Load = Load(user: UserKey, refreshTime: Option<Time>)

  datatype Caller =
    | Missed(user: UserKey)
    | Waiting(user: UserKey, load: nat)
    | Cancelled
    | Served(user: UserKey, categories: seq<Category>, since: Time, via: Option<nat>)
    | Refused(load: nat, error: Error)

  /** A completed upstream fetch. */
  datatype Fetch = Fetch(user: UserKey, categories: seq<Category>, started: Time)

  datatype Result = Result(user: UserKey, outcome: Answer<seq<Category>>, readAt: Time)

  /** `flights` is the load in flight of each user, `results` what finished loads gave, `fetches` a history. */
  datatype System = System(
    entries: Entries, flights: map<UserKey, nat>, loads: map<nat, Load>, results: map<nat, Result>,
    callers: map<nat, Caller>, started: nat, fetches: set<Fetch>)

  datatype Event =
    | Ask(c: nat, user: UserKey, now: Time)
    | Join(c: nat)
    | Begin(load: nat, now: Time)
    | Fetched(load: nat, answer: Answer<seq<Category>>)
    | Wake(c: nat)
    | Cancel(c: nat)

  function Initial(): System {
    System(map[], map[], map[], map[], map[], 0, {})
  }

  /** The load ends: its user has no load in flight any more and its result is known. */
  function End(s: System, load: nat, result: Result): System {
    s.(flights := s.flights - {result.user}, results := s.results[load := result])
  }

  /** One atomic step; only storing chooses, which of several oldest entries to evict. */
  ghost predicate Step(s: System, e: Event, t: System) {
    match e
    case Ask(c, user, now) =>
      if c in s.callers then t == s
      else if Lookup(s.entries, user, now).Some? then
        t == s.(callers := s.callers[c := Served(user, Lookup(s.entries, user, now).value, now, None)])
      else t == s.(callers := s.callers[c := Missed(user)])
    case Join(c) =>
      if c !in s.callers || !s.callers[c].Missed? then t == s
      else
        var user := s.callers[c].user;
        if user in s.flights then t == s.(callers := s.callers[c := Waiting(user, s.flights[user])])
        else
          t == s.(callers := s.callers[c := Waiting(user, s.started)], flights := s.flights[user := s.started],
                  loads := s.loads[s.started := Load(user, None)], started := s.started + 1)
    case Begin(load, now) =>
      if load !in s.loads || s.loads[load].refreshTime.Some? then t == s
      else
        var user := s.loads[load].user;
        var begun := s.(loads := s.loads[load := Load(user, Some(now))]);
        if Lookup(s.entries, user, now).Some?
        then t == End(begun, load, Result(user, Answered(Lookup(s.entries, user, now).value), now))
        else t == begun
    case Fetched(load, answer) =>
      if load !in s.loads || s.loads[load].refreshTime.None? || load in s.results then t == s
      else
        var user, now := s.loads[load].user, s.loads[load].refreshTime.value;
        if answer.Failed? then t == End(s, load, Result(user, answer, now))
        else
          && Stores(s.entries, t.entries, user, answer.value, now)
          && t == End(s, load, Result(user, answer, now))
                  .(entries := t.entries, fetches := s.fetches + {Fetch(user, answer.value, now)})
    case Wake(c) =>
      if c !in s.callers || !s.callers[c].Waiting? || s.callers[c].load !in s.results then t == s
      else
        var load := s.callers[c].load;
        var result := s.results[load];
        t == s.(callers := s.callers[c :=
                  match result.outcome
                  case Answered(categories) => Served(s.callers[c].user, categories, result.readAt, Some(load))
                  case Failed(error) => Refused(load, error)])
    case Cancel(c) =>
      if c !in s.callers || !s.callers[c].Waiting? then t == s
      else t == s.(callers := s.callers[c := Cancelled])
  }

  /** A run: the systems between the events. */
  ghost predicate Run(events: seq<Event>, trace: seq<System>) {
    && |trace| == |events| + 1 && trace[0] == Initial()
    && forall i :: 0 <= i < |events| ==> Step(trace[i], events[i], trace[i + 1])
  }

  /** A fetch for the user gave these categories and started less than a minute before `now`, or at it. */
  ghost predicate Recent(fetches: set<Fetch>, user: UserKey, categories: seq<Category>, now: Time) {
    exists started :: Fetch(user, categories, started) in fetches && now < started + TTL
  }

  ghost predicate EntriesOk(entries: Entries, fetches: set<Fetch>) {
    && |entries| <= MAX_ENTRIES
    && forall user | user in entries ::
         entries[user].expiresAt == entries[user].loadedAt + TTL
         && Fetch(user, entries[user].categories, entries[user].loadedAt) in fetches
  }

  ghost predicate ResultsOk(results: map<nat, Result>, fetches: set<Fetch>) {
    forall load | load in results :: ResultOk(results[load], fetches)
  }

  ghost predicate ResultOk(result: Result, fetches: set<Fetch>) {
    result.outcome.Answered? ==> Recent(fetches, result.user, result.outcome.value, result.readAt)
  }

  /** Each user's load in flight is its own, not finished, and belongs to nobody else. */
  ghost predicate LoadsOk(flights: map<UserKey, nat>, loads: map<nat, Load>, results: map<nat, Result>, started: nat) {
    && (forall load | load in loads :: load < started)
    && (forall user | user in flights ::
          flights[user] in loads && loads[flights[user]].user == user && flights[user] !in results)
    && (forall load | load in loads && load !in results ::
          loads[load].user in flights && flights[loads[load].user] == load)
    && (forall load | load in results ::
          load in loads && loads[load].user == results[load].user && loads[load].refreshTime.Some?)
  }

  ghost predicate CallerOk(loads: map<nat, Load>, results: map<nat, Result>, fetches: set<Fetch>, caller: Caller) {
    match caller
    case Missed(user) => true
    case Waiting(user, load) => load in loads && loads[load].user == user
    case Cancelled => true
    case Served(user, categories, since, via) =>
      && Recent(fetches, user, categories, since)
      && (via.Some? ==> via.value in results && results[via.value] == Result(user, Answered(categories), since))
    case Refused(load, error) => load in results && results[load].outcome == Failed(error)
  }

  ghost predicate CallersOk(
    loads: map<nat, Load>, results: map<nat, Result>, fetches: set<Fetch>, callers: map<nat, Caller>)
  {
    forall c | c in callers :: CallerOk(loads, results, fetches, callers[c])
  }

  ghost predicate Inv(s: System) {
    && EntriesOk(s.entries, s.fetches) && ResultsOk(s.results, s.fetches)
    && LoadsOk(s.flights, s.loads, s.results, s.started) && CallersOk(s.loads, s.results, s.fetches, s.callers)
  }

  lemma {:induction false} StoreBounded(
    before: Entries, after: Entries, user: UserKey, categories: seq<Category>, now: Time)
    requires |before| <= MAX_ENTRIES && Stores(before, after, user, categories, now)
    ensures |after| <= MAX_ENTRIES
  {
    var kept, entry := Unexpired(before, now), Entry(categories, now, now + TTL);
    SubsetSize(kept.Keys, before.Keys);
    if user in kept || |kept| < MAX_ENTRIES {
      assert after.Keys == kept.Keys + {user};
    } else {
      var oldest :| Oldest(kept, oldest) && after == (kept - {oldest})[user := entry];
      assert after.Keys == (kept.Keys - {oldest}) + {user};
    }
  }

  /** An unexpired entry is dropped only for want of room, and only one that was loaded no later than all that stay. */
  lemma {:induction false} OnlyTheOldestIsEvicted(
    before: Entries, after: Entries, user: UserKey, categories: seq<Category>, now: Time, dropped: UserKey)
    requires Stores(before, after, user, categories, now)
    requires dropped in before && now < before[dropped].expiresAt && dropped !in after
    ensures |before| >= 1024
    ensures forall other :: other in after && other != user ==> before[dropped].loadedAt <= before[other].loadedAt
  {
    SubsetSize(Unexpired(before, now).Keys, before.Keys);
  }

  /** Storing touches no other entry but by dropping it. */
  lemma {:induction false} StoreKeeps(
    before: Entries, after: Entries, user: UserKey, categories: seq<Category>, now: Time, other: UserKey)
    requires Stores(before, after, user, categories, now) && other in after
    ensures if other == user then after[other] == Entry(categories, now, now + TTL)
            else other in before && after[other] == before[other]
  {
  }

  /** Storing keeps the bound and the origin of every entry, in whatever order loads finish. */
  lemma {:induction false} StoreOk(
    before: Entries, after: Entries, user: UserKey, categories: seq<Category>, now: Time, fetches: set<Fetch>)
    requires EntriesOk(before, fetches) && Stores(before, after, user, categories, now)
    ensures EntriesOk(after, fetches + {Fetch(user, categories, now)})
  {
    StoreBounded(before, after, user, categories, now);
    forall other | other in after
      ensures after[other].expiresAt == after[other].loadedAt + TTL
      ensures Fetch(other, after[other].categories, after[other].loadedAt) in fetches + {Fetch(user, categories, now)}
    {
      StoreKeeps(before, after, user, categories, now, other);
    }
  }

  ghost predicate SameLoads(loads: map<nat, Load>, more: map<nat, Load>) {
    forall load | load in loads :: load in more && more[load].user == loads[load].user
  }

  /** What callers were told stays true when loads, results and fetches only grow. */
  lemma {:induction false} CallersGrow(
    loads: map<nat, Load>, results: map<nat, Result>, fetches: set<Fetch>, callers: map<nat, Caller>,
    loads': map<nat, Load>, results': map<nat, Result>, fetches': set<Fetch>)
    requires CallersOk(loads, results, fetches, callers)
    requires SameLoads(loads, loads') && fetches <= fetches'
    requires forall load | load in results :: load in results' && results'[load] == results[load]
    ensures CallersOk(loads', results', fetches', callers)
  {
  }

  lemma {:induction false} ResultsGrow(results: map<nat, Result>, fetches: set<Fetch>, fetches': set<Fetch>)
    requires ResultsOk(results, fetches) && fetches <= fetches'
    ensures ResultsOk(results, fetches')
  {
  }

  lemma {:induction false} HitIsRecent(entries: Entries, fetches: set<Fetch>, user: UserKey, now: Time)
    requires EntriesOk(entries, fetches) && Lookup(entries, user, now).Some?
    ensures Recent(fetches, user, Lookup(entries, user, now).value, now)
  {
    assert Fetch(user, entries[user].categories, entries[user].loadedAt) in fetches;
  }

  lemma {:induction false} NewCaller(s: System, c: nat, caller: Caller)
    requires Inv(s) && CallerOk(s.loads, s.results, s.fetches, caller)
    ensures Inv(s.(callers := s.callers[c := caller]))
  {
  }

  lemma {:induction false} NewLoad(s: System, user: UserKey)
    requires Inv(s) && user !in s.flights
    ensures Inv(s.(flights := s.flights[user := s.started], loads := s.loads[s.started := Load(user, None)],
                   started := s.started + 1))
  {
  }

  lemma {:induction false} AskInv(s: System, e: Event, t: System)
    requires Inv(s) && e.Ask? && Step(s, e, t)
    ensures Inv(t)
  {
    if e.c !in s.callers {
      if Lookup(s.entries, e.user, e.now).Some? {
        HitIsRecent(s.entries, s.fetches, e.user, e.now);
        NewCaller(s, e.c, Served(e.user, Lookup(s.entries, e.user, e.now).value, e.now, None));
      } else {
        NewCaller(s, e.c, Missed(e.user));
      }
    }
  }

  lemma {:induction false} JoinInv(s: System, e: Event, t: System)
    requires Inv(s) && e.Join? && Step(s, e, t)
    ensures Inv(t)
  {
    if e.c in s.callers && s.callers[e.c].Missed? {
      var user := s.callers[e.c].user;
      if user in s.flights {
        NewCaller(s, e.c, Waiting(user, s.flights[user]));
      } else {
        var u := s.(flights := s.flights[user := s.started], loads := s.loads[s.started := Load(user, None)],
                    started := s.started + 1);
        NewLoad(s, user);
        NewCaller(u, e.c, Waiting(user, s.started));
        assert t == u.(callers := u.callers[e.c := Waiting(user, s.started)]);
      }
    }
  }

  /** A result is known for a load in flight. */
  lemma {:induction false} EndInv(s: System, load: nat, result: Result)
    requires Inv(s) && load in s.loads && load !in s.results && ResultOk(result, s.fetches)
    requires s.loads[load].user == result.user && s.loads[load].refreshTime.Some?
    ensures Inv(End(s, load, result))
  {
  }

  /** A fetch is stored. */
  lemma {:induction false} StoredInv(s: System, entries: Entries, user: UserKey, categories: seq<Category>, now: Time)
    requires Inv(s) && Stores(s.entries, entries, user, categories, now)
    ensures Inv(s.(entries := entries, fetches := s.fetches + {Fetch(user, categories, now)}))
  {
    var fetches := s.fetches + {Fetch(user, categories, now)};
    StoreOk(s.entries, entries, user, categories, now, s.fetches);
    ResultsGrow(s.results, s.fetches, fetches);
    CallersGrow(s.loads, s.results, s.fetches, s.callers, s.loads, s.results, fetches);
  }

  lemma {:induction false} BegunInv(s: System, load: nat, now: Time)
    requires Inv(s) && load in s.loads && s.loads[load].refreshTime.None?
    ensures Inv(s.(loads := s.loads[load := Load(s.loads[load].user, Some(now))])) && load !in s.results
  {
  }

  lemma {:induction false} BeginInv(s: System, e: Event, t: System)
    requires Inv(s) && e.Begin? && Step(s, e, t)
    ensures Inv(t)
  {
    if e.load in s.loads && s.loads[e.load].refreshTime.None? {
      var user := s.loads[e.load].user;
      var begun := s.(loads := s.loads[e.load := Load(user, Some(e.now))]);
      BegunInv(s, e.load, e.now);
      if Lookup(s.entries, user, e.now).Some? {
        HitIsRecent(s.entries, s.fetches, user, e.now);
        EndInv(begun, e.load, Result(user, Answered(Lookup(s.entries, user, e.now).value), e.now));
      }
    }
  }

  lemma {:induction false} FetchedInv(s: System, e: Event, t: System)
    requires Inv(s) && e.Fetched? && Step(s, e, t)
    ensures Inv(t)
  {
    if e.load in s.loads && s.loads[e.load].refreshTime.Some? && e.load !in s.results {
      var user, now := s.loads[e.load].user, s.loads[e.load].refreshTime.value;
      var result := Result(user, e.answer, now);
      if e.answer.Failed? {
        EndInv(s, e.load, result);
      } else {
        var fetch := Fetch(user, e.answer.value, now);
        var u := s.(entries := t.entries, fetches := s.fetches + {fetch});
        StoredInv(s, t.entries, user, e.answer.value, now);
        assert fetch in u.fetches;
        EndInv(u, e.load, result);
        assert t == End(u, e.load, result);
      }
    }
  }

  lemma {:induction false} WakeInv(s: System, e: Event, t: System)
    requires Inv(s) && (e.Wake? || e.Cancel?) && Step(s, e, t)
    ensures Inv(t)
  {
  }

  lemma {:induction false} RunInv(events: seq<Event>, trace: seq<System>, i: nat)
    requires Run(events, trace) && i <= |events|
    ensures Inv(trace[i])
  {
    if i > 0 {
      RunInv(events, trace, i - 1);
      var s, e, t := trace[i - 1], events[i - 1], trace[i];
      assert Step(s, e, t);
      if e.Ask? { AskInv(s, e, t); }
      else if e.Join? { JoinInv(s, e, t); }
      else if e.Begin? { BeginInv(s, e, t); }
      else if e.Fetched? { FetchedInv(s, e, t); }
      else { WakeInv(s, e, t); }
    }
  }

  /** The cache never holds more than 1024 users, in whatever order loads finish. */
  lemma {:induction false} CacheIsBounded(events: seq<Event>, trace: seq<System>, i: nat)
    requires Run(events, trace) && i <= |events|
    ensures |trace[i].entries| <= 1024
  {
    RunInv(events, trace, i);
  }

  /**
   * Whatever a caller is served, from the cache or through a shared load, is what a fetch for that same user
   * gave, started less than a minute before the answer was chosen.
   */
  lemma {:induction false} ServedFromOwnFetch(events: seq<Event>, trace: seq<System>, i: nat, c: nat)
    requires Run(events, trace) && i <= |events| && c in trace[i].callers && trace[i].callers[c].Served?
    ensures var caller := trace[i].callers[c];
            Recent(trace[i].fetches, caller.user, caller.categories, caller.since)
  {
    RunInv(events, trace, i);
  }

  lemma {:induction false} NewFetch(s: System, e: Event, t: System, fetch: Fetch)
    requires Step(s, e, t) && fetch in t.fetches && fetch !in s.fetches
    ensures Records(s, e, fetch)
  {
  }

  /** The event is the upstream's answer to a load, and the fetch records it. */
  ghost predicate Records(s: System, e: Event, fetch: Fetch) {
    && e.Fetched? && e.answer == Answered(fetch.categories) && e.load in s.loads
    && s.loads[e.load] == Load(fetch.user, Some(fetch.started))
  }

  /** A history entry is an answer the upstream really gave to a load of that user. */
  lemma {:induction false} FetchesAreAnswers(events: seq<Event>, trace: seq<System>, i: nat, fetch: Fetch)
    requires Run(events, trace) && i <= |events| && fetch in trace[i].fetches
    ensures exists k :: 0 <= k < i && Records(trace[k], events[k], fetch)
  {
    if i > 0 {
      if fetch in trace[i - 1].fetches {
        FetchesAreAnswers(events, trace, i - 1, fetch);
      } else {
        assert Step(trace[i - 1], events[i - 1], trace[i]);
        NewFetch(trace[i - 1], events[i - 1], trace[i], fetch);
        assert Records(trace[i - 1], events[i - 1], fetch);
      }
    }
  }

  // What a fetch is for.

  /** At `i` the upstream answers a load that still runs and was begun at `started`. */
  ghost predicate Answers(events: seq<Event>, trace: seq<System>, i: nat, load: nat, user: UserKey, started: Time)
    requires |events| < |trace|
  {
    && i < |events| && events[i].Fetched? && events[i].load == load && load !in trace[i].results
    && load in trace[i].loads && trace[i].loads[load] == Load(user, Some(started))
  }

  /** The event stores nothing for the user, drops nothing that lives at `until`, and finds room. */
  ghost predicate LeavesEntry(s: System, e: Event, user: UserKey, until: Time) {
    e.Fetched? && e.answer.Answered? && e.load in s.loads && e.load !in s.results && s.loads[e.load].refreshTime.Some? ==>
      s.loads[e.load].user != user && |s.entries| < 1024 && s.loads[e.load].refreshTime.value < until
  }

  lemma {:induction false} EntryLeft(s: System, e: Event, t: System, user: UserKey, entry: Entry)
    requires Step(s, e, t) && Holds(s, user, entry) && LeavesEntry(s, e, user, entry.expiresAt)
    ensures Holds(t, user, entry)
  {
    if e.Fetched? && t.entries != s.entries {
      var now := s.loads[e.load].refreshTime.value;
      SubsetSize(Unexpired(s.entries, now).Keys, s.entries.Keys);
    }
  }

  /** Nothing between the two positions disturbs the user's entry. */
  ghost predicate LeftAlone(events: seq<Event>, trace: seq<System>, i: nat, j: nat, user: UserKey, until: Time)
    requires j <= |events| < |trace|
  {
    forall k :: i <= k < j ==> LeavesEntry(trace[k], events[k], user, until)
  }

  predicate Holds(s: System, user: UserKey, entry: Entry) {
    user in s.entries && s.entries[user] == entry
  }

  /** The k-th event keeps the entry. */
  predicate Keeps(trace: seq<System>, k: nat, user: UserKey, entry: Entry)
    requires k + 1 < |trace|
  {
    Holds(trace[k], user, entry) ==> Holds(trace[k + 1], user, entry)
  }

  lemma {:induction false} EntryStays(trace: seq<System>, i: nat, j: nat, user: UserKey, entry: Entry)
    requires i <= j < |trace| && Holds(trace[i], user, entry)
    requires forall k :: i <= k < j ==> Keeps(trace, k, user, entry)
    ensures Holds(trace[j], user, entry)
    decreases j
  {
    if i < j {
      EntryStays(trace, i, j - 1, user, entry);
      assert Keeps(trace, j - 1, user, entry);
    }
  }

  lemma {:induction false} EntryKept(events: seq<Event>, trace: seq<System>, k: nat, user: UserKey, entry: Entry)
    requires Run(events, trace) && k < |events| && LeavesEntry(trace[k], events[k], user, entry.expiresAt)
    ensures Keeps(trace, k, user, entry)
  {
    assert Step(trace[k], events[k], trace[k + 1]);
    if Holds(trace[k], user, entry) {
      EntryLeft(trace[k], events[k], trace[k + 1], user, entry);
    }
  }

  lemma {:induction false} AnswerIsStored(s: System, e: Event, t: System, user: UserKey, started: Time)
    requires Step(s, e, t) && e.Fetched? && e.load in s.loads && s.loads[e.load] == Load(user, Some(started))
    requires e.load !in s.results
    ensures e.load in t.results && t.results[e.load] == Result(user, e.answer, started)
    ensures e.answer.Answered? ==>
      user in t.entries && t.entries[user] == Entry(e.answer.value, started, started + MINUTE)
  {
  }

  /**
   * What a load fetched is served at once to every call of that user for a minute, counted from the start of the
   * load, and no longer, while the user's catalogue is not loaded anew and the cache has room.
   */
  lemma {:induction false} FetchServesForAMinute(
    events: seq<Event>, trace: seq<System>, i: nat, j: nat, load: nat, user: UserKey, started: Time)
    requires Run(events, trace) && i < j < |events| && Answers(events, trace, i, load, user, started)
    requires events[i].answer.Answered?
    requires LeftAlone(events, trace, i + 1, j, user, started + MINUTE)
    requires events[j].Ask? && events[j].user == user && events[j].c !in trace[j].callers
    ensures events[j].c in trace[j + 1].callers
    ensures trace[j + 1].callers[events[j].c]
         == if events[j].now < started + MINUTE then Served(user, events[i].answer.value, events[j].now, None)
            else Missed(user)
  {
    assert Step(trace[i], events[i], trace[i + 1]) && Step(trace[j], events[j], trace[j + 1]);
    AnswerIsStored(trace[i], events[i], trace[i + 1], user, started);
    var entry := Entry(events[i].answer.value, started, started + MINUTE);
    forall k | i + 1 <= k < j
      ensures Keeps(trace, k, user, entry)
    {
      EntryKept(events, trace, k, user, entry);
    }
    EntryStays(trace, i + 1, j, user, entry);
  }

  lemma {:induction false} ResultStays(events: seq<Event>, trace: seq<System>, i: nat, j: nat, load: nat)
    requires Run(events, trace) && i <= j <= |events| && load in trace[i].results
    ensures load in trace[j].results && trace[j].results[load] == trace[i].results[load]
    decreases j
  {
    if i < j {
      ResultStays(events, trace, i, j - 1, load);
      assert Step(trace[j - 1], events[j - 1], trace[j]);
      RunInv(events, trace, j - 1);
      ResultKept(trace[j - 1], events[j - 1], trace[j], load);
    }
  }

  lemma {:induction false} ResultKept(s: System, e: Event, t: System, load: nat)
    requires Inv(s) && Step(s, e, t) && load in s.results
    ensures load in t.results && t.results[load] == s.results[load]
  {
  }

  /** Whoever waits for a load is told what the upstream answered to it, whenever it wakes. */
  lemma {:induction false} WaitersGetTheAnswer(
    events: seq<Event>, trace: seq<System>, i: nat, j: nat, load: nat, user: UserKey, started: Time)
    requires Run(events, trace) && i < j < |events| && Answers(events, trace, i, load, user, started)
    requires events[j].Wake? && events[j].c in trace[j].callers && trace[j].callers[events[j].c] == Waiting(user, load)
    ensures events[j].c in trace[j + 1].callers
    ensures trace[j + 1].callers[events[j].c]
         == match events[i].answer
            case Answered(categories) => Served(user, categories, started, Some(load))
            case Failed(error) => Refused(load, error)
  {
    assert Step(trace[i], events[i], trace[i + 1]) && Step(trace[j], events[j], trace[j + 1]);
    AnswerIsStored(trace[i], events[i], trace[i + 1], user, started);
    ResultStays(events, trace, i + 1, j, load);
  }

  /** Callers that shared a load are told the same. */
  lemma {:induction false} SharersAgree(events: seq<Event>, trace: seq<System>, i: nat, c: nat, d: nat)
    requires Run(events, trace) && i <= |events| && c in trace[i].callers && d in trace[i].callers
    requires trace[i].callers[c].Served? && trace[i].callers[d].Served?
    requires trace[i].callers[c].via.Some? && trace[i].callers[c].via == trace[i].callers[d].via
    ensures trace[i].callers[c] == trace[i].callers[d]
  {
    RunInv(events, trace, i);
    assert CallerOk(trace[i].loads, trace[i].results, trace[i].fetches, trace[i].callers[c]);
    assert CallerOk(trace[i].loads, trace[i].results, trace[i].fetches, trace[i].callers[d]);
  }

  /** One user never has two loads running. */
  lemma {:induction false} OneLoadPerUser(events: seq<Event>, trace: seq<System>, i: nat, a: nat, b: nat)
    requires Run(events, trace) && i <= |events| && a in trace[i].loads && b in trace[i].loads
    requires a !in trace[i].results && b !in trace[i].results && trace[i].loads[a].user == trace[i].loads[b].user
    ensures a == b
  {
    RunInv(events, trace, i);
  }
}
