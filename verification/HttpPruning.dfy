/**
 * Exactly when forgetting idle entries changes a decision of the request limiter: when a prune has made room
 * for an address that a limiter which never forgets would send to the overflow bucket.
 */
module HttpPruning {
  import opened Domain
  import opened DecisionLog
  import opened HttpRateLimiter
  import opened Sets

  /** A request counted by a limiter that never prunes. */
  function Kept(table: Table, key: string, now: Time): Table {
    Table(Counted(table, key, now), (table.requests + 1) % UINT64)
  }

  datatype Plain = Plain(table: Table, log: seq<Record>)

  function NeverStep(p: Plain, limit: nat, r: Request): Plain {
    Plain(Kept(p.table, r.key, r.now),
          p.log + [Record(Bucket(p.table.entries, r.key), r.now, Admits(p.table, limit, r.key, r.now))])
  }

  /** The run of a limiter that never prunes. */
  function Never(limit: nat, requests: seq<Request>): Plain {
    if requests == [] then Plain(Table(map[OVERFLOW := Entry(None, 0, 0)], 0), [])
    else NeverStep(Never(limit, requests[..|requests| - 1]), limit, requests[|requests| - 1])
  }

  // What a prune has forgotten.

  /** The request at this position is followed by a prune. */
  predicate PruneDue(j: nat) {
    (j + 1) % UINT64 % 1000 == 0
  }

  /** A prune before position `n` found an entry last seen then idle. */
  predicate IdleAtPrune(requests: seq<Request>, n: nat, lastSeen: Time) {
    exists j | 0 <= j < n && j < |requests| :: ForgottenAt(requests, j, lastSeen)
  }

  predicate ForgottenAt(requests: seq<Request>, j: nat, lastSeen: Time)
    requires j < |requests|
  {
    PruneDue(j) && lastSeen < requests[j].now - IDLE
  }

  lemma {:induction false} IdleNext(requests: seq<Request>, n: nat, lastSeen: Time)
    requires n < |requests|
    ensures IdleAtPrune(requests, n + 1, lastSeen)
       <==> IdleAtPrune(requests, n, lastSeen) || ForgottenAt(requests, n, lastSeen)
  {
    if IdleAtPrune(requests, n + 1, lastSeen) {
      var j :| 0 <= j < n + 1 && j < |requests| && ForgottenAt(requests, j, lastSeen);
    }
  }

  /** The entry is forgotten by now in the pruned table. */
  predicate Forgotten(full: map<string, Entry>, requests: seq<Request>, n: nat, key: string)
    requires key in full
  {
    key != OVERFLOW && IdleAtPrune(requests, n, full[key].lastSeen)
  }

  /** The times of an entry; only the overflow bucket can be without a window. */
  predicate EntryTimes(key: string, entry: Entry, clock: Time) {
    if entry.windowStart.None? then key == OVERFLOW else entry.windowStart.value <= entry.lastSeen <= clock
  }

  /** After `n` requests the pruned table is the full one without exactly the forgotten entries. */
  ghost predicate Agree(full: map<string, Entry>, kept: map<string, Entry>, requests: seq<Request>, n: nat, clock: Time) {
    && OVERFLOW in full && |full| <= MAX_ENTRIES
    && (forall key :: key in kept ==> key in full && kept[key] == full[key])
    && (forall key :: key in full ==> (key !in kept <==> Forgotten(full, requests, n, key)))
    && (forall key :: key in full ==> EntryTimes(key, full[key], clock))
  }

  ghost predicate SomeForgotten(full: map<string, Entry>, requests: seq<Request>, n: nat) {
    exists key :: key in full && Forgotten(full, requests, n, key)
  }

  /** The two tables count a request in different buckets iff its key is new to a full table that forgets. */
  predicate NewToFull(full: map<string, Entry>, key: string) {
    key !in full && MAX_ENTRIES <= |full|
  }

  lemma {:induction false} KeptIsSmaller(
    full: map<string, Entry>, kept: map<string, Entry>, requests: seq<Request>, n: nat, clock: Time)
    requires Agree(full, kept, requests, n, clock)
    ensures |kept| <= |full| && (|kept| < |full| <==> SomeForgotten(full, requests, n))
  {
    assert kept.Keys <= full.Keys;
    SubsetSize(kept.Keys, full.Keys);
    if SomeForgotten(full, requests, n) {
      var key :| key in full && Forgotten(full, requests, n, key);
      SubsetSize(kept.Keys, full.Keys - {key});
      OneKeyLess(full, key);
    } else {
      assert kept.Keys == full.Keys;
    }
  }

  lemma {:induction false} OneKeyLess(entries: map<string, Entry>, key: string)
    requires key in entries
    ensures |entries.Keys - {key}| == |entries| - 1
  {
    var rest := entries.Keys - {key};
    assert entries.Keys == rest + {key} && |rest + {key}| == |rest| + 1;
  }

  lemma {:induction false} BucketsPartIff(
    full: map<string, Entry>, kept: map<string, Entry>, requests: seq<Request>, n: nat, clock: Time, key: string)
    requires Agree(full, kept, requests, n, clock)
    ensures Bucket(full, key) != Bucket(kept, key) <==> NewToFull(full, key) && SomeForgotten(full, requests, n)
  {
    KeptIsSmaller(full, kept, requests, n, clock);
    if key in full && key !in kept {
      assert Forgotten(full, requests, n, key);
    }
  }

  /** In one bucket the two tables count alike: an entry that is missing would have started a new window anyway. */
  lemma {:induction false} SameCount(
    full: map<string, Entry>, kept: map<string, Entry>, requests: seq<Request>, n: nat, clock: Time, bucket: string,
    now: Time)
    requires Agree(full, kept, requests, n, clock) && clock <= now
    requires forall j :: 0 <= j < n && j < |requests| ==> requests[j].now <= clock
    ensures Touch(Lookup(full, bucket), now) == Touch(Lookup(kept, bucket), now)
  {
    if bucket in full && bucket !in kept {
      assert EntryTimes(bucket, full[bucket], clock);
      var j :| 0 <= j < n && j < |requests| && ForgottenAt(requests, j, full[bucket].lastSeen);
    }
  }

  lemma {:induction false} NotIdleNow(requests: seq<Request>, n: nat, now: Time)
    requires forall j :: 0 <= j < n && j < |requests| ==> requests[j].now <= now
    ensures !IdleAtPrune(requests, n, now)
  {
  }

  lemma {:induction false} TouchTimes(key: string, entry: Option<Entry>, clock: Time, now: Time)
    requires clock <= now && (entry.Some? ==> EntryTimes(key, entry.value, clock))
    ensures EntryTimes(key, Touch(entry, now), now) && Touch(entry, now).lastSeen == now
  {
  }

  lemma {:induction false} CountedAgree(
    full: map<string, Entry>, kept: map<string, Entry>, requests: seq<Request>, n: nat, clock: Time, bucket: string,
    now: Time)
    requires Agree(full, kept, requests, n, clock) && clock <= now
    requires forall j :: 0 <= j < n && j < |requests| ==> requests[j].now <= clock
    requires bucket in full || |full| < MAX_ENTRIES
    ensures Agree(full[bucket := Touch(Lookup(full, bucket), now)], kept[bucket := Touch(Lookup(kept, bucket), now)],
                  requests, n, now)
  {
    SameCount(full, kept, requests, n, clock, bucket, now);
    NotIdleNow(requests, n, now);
    TouchTimes(bucket, Lookup(full, bucket), clock, now);
    var entry := Touch(Lookup(full, bucket), now);
    assert full[bucket := entry].Keys == full.Keys + {bucket};
    forall key | key in full
      ensures EntryTimes(key, full[key], now)
    {
      assert EntryTimes(key, full[key], clock);
    }
  }

  lemma {:induction false} PrunedAgree(
    full: map<string, Entry>, kept: map<string, Entry>, requests: seq<Request>, n: nat)
    requires n < |requests| && Agree(full, kept, requests, n, requests[n].now)
    ensures Agree(full, if PruneDue(n) then Pruned(kept, requests[n].now - IDLE) else kept, requests, n + 1, requests[n].now)
  {
    forall key | key in full
      ensures Forgotten(full, requests, n + 1, key)
         <==> Forgotten(full, requests, n, key)
              || (key != OVERFLOW && ForgottenAt(requests, n, full[key].lastSeen))
    {
      IdleNext(requests, n, full[key].lastSeen);
    }
  }

  // Whole runs.

  /** After `n` requests both runs have decided alike, and their tables agree. */
  ghost predicate AlikeAfter(limit: nat, requests: seq<Request>, epoch: Time, n: nat)
    requires n <= |requests|
  {
    Alike(Run(limit, requests[..n], epoch), Never(limit, requests[..n]), requests, epoch, n)
  }

  ghost predicate Alike(w: World, p: Plain, requests: seq<Request>, epoch: Time, n: nat)
    requires n <= |requests|
  {
    && w.log == p.log && |p.log| == n && w.clock == ClockAt(requests, epoch, n)
    && w.table.requests == p.table.requests == n % UINT64
    && Agree(p.table.entries, w.table.entries, requests, n, w.clock)
  }

  function ClockAt(requests: seq<Request>, epoch: Time, n: nat): Time
    requires n <= |requests|
  {
    if n == 0 then epoch else requests[n - 1].now
  }

  lemma {:induction false} PrefixNext(limit: nat, requests: seq<Request>, epoch: Time, n: nat)
    requires n < |requests|
    ensures Run(limit, requests[..n + 1], epoch) == Advance(Run(limit, requests[..n], epoch), limit, requests[n])
    ensures Never(limit, requests[..n + 1]) == NeverStep(Never(limit, requests[..n]), limit, requests[n])
  {
    assert requests[..n + 1][..n] == requests[..n];
  }

  lemma {:induction false} CountWraps(n: nat)
    ensures (n % UINT64 + 1) % UINT64 == (n + 1) % UINT64
  {
  }

  lemma {:induction false} StepAgree(w: World, p: Plain, limit: nat, requests: seq<Request>, n: nat)
    requires n < |requests| && w.clock <= requests[n].now && w.table.requests == p.table.requests == n % UINT64
    requires forall j :: 0 <= j < n ==> requests[j].now <= w.clock
    requires Agree(p.table.entries, w.table.entries, requests, n, w.clock)
    requires Bucket(p.table.entries, requests[n].key) == Bucket(w.table.entries, requests[n].key)
    ensures Advance(w, limit, requests[n]).table.requests == (n + 1) % UINT64
    ensures Agree(NeverStep(p, limit, requests[n]).table.entries, Advance(w, limit, requests[n]).table.entries,
                  requests, n + 1, requests[n].now)
  {
    var full, kept, r := p.table.entries, w.table.entries, requests[n];
    CountWraps(n);
    CountedAgree(full, kept, requests, n, w.clock, Bucket(full, r.key), r.now);
    PrunedAgree(Counted(p.table, r.key, r.now), Counted(w.table, r.key, r.now), requests, n);
  }

  lemma {:induction false} SameRecord(w: World, p: Plain, limit: nat, requests: seq<Request>, n: nat)
    requires n < |requests| && w.clock <= requests[n].now && w.log == p.log
    requires forall j :: 0 <= j < n ==> requests[j].now <= w.clock
    requires Agree(p.table.entries, w.table.entries, requests, n, w.clock)
    requires Bucket(p.table.entries, requests[n].key) == Bucket(w.table.entries, requests[n].key)
    ensures Advance(w, limit, requests[n]).log == NeverStep(p, limit, requests[n]).log
  {
    SameCount(p.table.entries, w.table.entries, requests, n, w.clock, Bucket(p.table.entries, requests[n].key), requests[n].now);
  }

  /** The request at `q` parts the two runs: its address is new to a full table from which a prune forgot an entry. */
  ghost predicate Told(limit: nat, requests: seq<Request>, q: nat)
    requires q < |requests|
  {
    var full := Never(limit, requests[..q]).table.entries;
    NewToFull(full, requests[q].key) && SomeForgotten(full, requests, q)
  }

  lemma {:induction false} ClockIsLast(requests: seq<Request>, epoch: Time, n: nat)
    requires Monotone(requests, epoch) && n < |requests|
    ensures ClockAt(requests, epoch, n) <= requests[n].now
    ensures forall j :: 0 <= j < n ==> requests[j].now <= ClockAt(requests, epoch, n)
  {
  }

  lemma {:induction false} AlikeStep(w: World, p: Plain, limit: nat, requests: seq<Request>, epoch: Time, n: nat)
    requires Monotone(requests, epoch) && n < |requests| && Alike(w, p, requests, epoch, n)
    requires !(NewToFull(p.table.entries, requests[n].key) && SomeForgotten(p.table.entries, requests, n))
    ensures Alike(Advance(w, limit, requests[n]), NeverStep(p, limit, requests[n]), requests, epoch, n + 1)
  {
    ClockIsLast(requests, epoch, n);
    BucketsPartIff(p.table.entries, w.table.entries, requests, n, w.clock, requests[n].key);
    StepAgree(w, p, limit, requests, n);
    SameRecord(w, p, limit, requests, n);
    CountWraps(n);
  }

  lemma {:induction false} AlikeUntilTold(limit: nat, requests: seq<Request>, epoch: Time, n: nat)
    requires Monotone(requests, epoch) && n <= |requests| && forall q :: 0 <= q < n ==> !Told(limit, requests, q)
    ensures AlikeAfter(limit, requests, epoch, n)
  {
    if n == 0 {
      assert requests[..0] == [];
    } else {
      AlikeUntilTold(limit, requests, epoch, n - 1);
      PrefixNext(limit, requests, epoch, n - 1);
      assert !Told(limit, requests, n - 1);
      AlikeStep(Run(limit, requests[..n - 1], epoch), Never(limit, requests[..n - 1]), limit, requests, epoch, n - 1);
    }
  }

  /** The first request that parts the runs is counted in different buckets. */
  lemma {:induction false} ToldApartAt(limit: nat, requests: seq<Request>, epoch: Time, q: nat)
    requires q < |requests| && AlikeAfter(limit, requests, epoch, q) && Told(limit, requests, q)
    ensures Run(limit, requests[..q + 1], epoch).log != Never(limit, requests[..q + 1]).log
  {
    var w, p := Run(limit, requests[..q], epoch), Never(limit, requests[..q]);
    PrefixNext(limit, requests, epoch, q);
    BucketsPartIff(p.table.entries, w.table.entries, requests, q, w.clock, requests[q].key);
    assert Advance(w, limit, requests[q]).log[q].key != NeverStep(p, limit, requests[q]).log[q].key;
  }

  /** Logs are only appended to. */
  lemma {:induction false} LogsGrow(limit: nat, requests: seq<Request>, epoch: Time, n: nat)
    requires n <= |requests|
    ensures |Run(limit, requests, epoch).log| == |Never(limit, requests).log| == |requests|
    ensures Run(limit, requests[..n], epoch).log == Run(limit, requests, epoch).log[..n]
    ensures Never(limit, requests[..n]).log == Never(limit, requests).log[..n]
  {
    if n == |requests| {
      assert requests[..n] == requests;
      LogLength(limit, requests, epoch);
    } else {
      var before := requests[..|requests| - 1];
      LogsGrow(limit, before, epoch, n);
      assert before[..n] == requests[..n];
    }
  }

  lemma {:induction false} LogLength(limit: nat, requests: seq<Request>, epoch: Time)
    ensures |Run(limit, requests, epoch).log| == |Never(limit, requests).log| == |requests|
  {
    if requests != [] { LogLength(limit, requests[..|requests| - 1], epoch); }
  }

  /** The first position that parts the runs, if there is one. */
  lemma {:induction false} FirstTold(limit: nat, requests: seq<Request>, q: nat) returns (first: nat)
    requires q < |requests| && Told(limit, requests, q)
    ensures first <= q && Told(limit, requests, first) && forall k :: 0 <= k < first ==> !Told(limit, requests, k)
  {
    first := q;
    if k :| 0 <= k < q && Told(limit, requests, k) {
      first := FirstTold(limit, requests, k);
    }
  }

  /**
   * On a clock that does not go back, pruning makes a difference exactly when some request comes from an address
   * that is new to the full table of a limiter that never prunes, after a prune forgot one of its entries.
   */
  lemma {:induction false} PruningTellsIff(limit: nat, requests: seq<Request>, epoch: Time)
    requires Monotone(requests, epoch)
    ensures Run(limit, requests, epoch).log != Never(limit, requests).log
       <==> exists q :: 0 <= q < |requests| && Told(limit, requests, q)
  {
    if exists q :: 0 <= q < |requests| && Told(limit, requests, q) {
      var q :| 0 <= q < |requests| && Told(limit, requests, q);
      var first := FirstTold(limit, requests, q);
      AlikeUntilTold(limit, requests, epoch, first);
      ToldApartAt(limit, requests, epoch, first);
      LogsGrow(limit, requests, epoch, first + 1);
    } else {
      AlikeUntilTold(limit, requests, epoch, |requests|);
      assert requests[..|requests|] == requests;
    }
  }

  // While all addresses fit, nothing parts the runs.

  /** All addresses, and the overflow bucket, fit the table. */
  predicate Fits(requests: seq<Request>) {
    |Addresses(requests) + {OVERFLOW}| <= MAX_ENTRIES
  }

  /** The table that never forgets holds the addresses seen so far, and nothing else. */
  lemma {:induction false} NeverKeys(limit: nat, requests: seq<Request>)
    ensures Never(limit, requests).table.entries.Keys <= Addresses(requests) + {OVERFLOW}
  {
    if requests != [] {
      var before := requests[..|requests| - 1];
      NeverKeys(limit, before);
      assert forall r :: r in before ==> r in requests;
    }
  }

  lemma {:induction false} NeverTold(limit: nat, requests: seq<Request>, q: nat)
    requires Fits(requests) && q < |requests|
    ensures !Told(limit, requests, q)
  {
    var entries := Never(limit, requests[..q]).table.entries;
    NeverKeys(limit, requests[..q]);
    assert requests[q] in requests && forall r :: r in requests[..q] ==> r in requests;
    if requests[q].key !in entries {
      SubsetSize(entries.Keys + {requests[q].key}, Addresses(requests) + {OVERFLOW});
      assert |entries.Keys + {requests[q].key}| == |entries| + 1;
    }
  }

  /** With no more addresses than fit the table, the limiter decides as one that never prunes. */
  lemma {:induction false} PruningKeepsDecisions(limit: nat, requests: seq<Request>, epoch: Time)
    requires Monotone(requests, epoch) && Fits(requests)
    ensures Run(limit, requests, epoch).log == Never(limit, requests).log
  {
    PruningTellsIff(limit, requests, epoch);
    forall q | 0 <= q < |requests|
      ensures !Told(limit, requests, q)
    {
      NeverTold(limit, requests, q);
    }
  }

  // A full table breaks it.

  const LATER: Time := 11 * MINUTE

  /** Addresses told apart by their length. */
  function Address(i: nat): string {
    seq(i + 1, _ => 'a')
  }

  /** The table after the first `n` addresses have sent one request each. */
  ghost predicate Filled(table: Table, n: nat) {
    && table.requests == n && |table.entries| == n + 1
    && OVERFLOW in table.entries && table.entries[OVERFLOW] == Entry(None, 0, 0)
    && (forall key :: key in table.entries && key != OVERFLOW ==>
          1 <= |key| <= n && key[0] == 'a' && table.entries[key] == Entry(Some(0), 0, 1))
    && (1 <= n ==> Address(0) in table.entries)
  }

  lemma {:induction false} NewAddress(table: Table, n: nat)
    requires Filled(table, n)
    ensures Address(n) !in table.entries && Address(n) != OVERFLOW
  {
    assert |Address(n)| == n + 1 && Address(n)[0] == 'a' && OVERFLOW[0] == '_';
  }

  lemma {:induction false} FillStep(table: Table, n: nat)
    requires Filled(table, n) && n < MAX_ENTRIES - 1
    ensures Filled(Kept(table, Address(n), 0), n + 1)
  {
    NewAddress(table, n);
    assert |Address(n)| == n + 1 && Address(n)[0] == 'a';
    assert Kept(table, Address(n), 0).entries.Keys == table.entries.Keys + {Address(n)};
  }

  /** Entries that are not idle survive a prune. */
  lemma {:induction false} FillPrunesNothing(table: Table, n: nat)
    requires Filled(Kept(table, Address(n), 0), n + 1)
    ensures After(table, Address(n), 0) == Kept(table, Address(n), 0)
  {
    var next := Kept(table, Address(n), 0);
    assert forall key :: key in next.entries && key != OVERFLOW ==> next.entries[key] == Entry(Some(0), 0, 1);
    assert Pruned(next.entries, 0 - IDLE) == next.entries;
  }

  /** The full table while one address goes on, eleven minutes later. */
  ghost predicate Waiting(table: Table, m: nat) {
    && table.requests == MAX_ENTRIES - 1 + m && |table.entries| == MAX_ENTRIES
    && OVERFLOW in table.entries && table.entries[OVERFLOW] == Entry(None, 0, 0) && Address(0) in table.entries
    && (forall key :: key in table.entries && key != OVERFLOW ==> key != [] && key[0] == 'a')
    && (forall key :: key in table.entries && key != OVERFLOW && key != Address(0) ==> table.entries[key].lastSeen == 0)
    && (1 <= m ==> table.entries[Address(0)].lastSeen == LATER)
  }

  lemma {:induction false} WaitStep(table: Table, m: nat)
    requires Waiting(table, m) && m < 904
    ensures After(table, Address(0), LATER) == Kept(table, Address(0), LATER)
    ensures Waiting(Kept(table, Address(0), LATER), m + 1)
  {
    assert Kept(table, Address(0), LATER).entries.Keys == table.entries.Keys;
  }

  function Burst(n: nat): seq<Request> {
    if n == 0 then [] else Burst(n - 1) + [Request(Address(n - 1), 0)]
  }

  function BurstAndWait(m: nat): seq<Request> {
    if m == 0 then Burst(MAX_ENTRIES - 1) else BurstAndWait(m - 1) + [Request(Address(0), LATER)]
  }

  lemma {:induction false} RunSnoc(limit: nat, requests: seq<Request>, r: Request)
    ensures Run(limit, requests + [r], 0) == Advance(Run(limit, requests, 0), limit, r)
    ensures Never(limit, requests + [r]) == NeverStep(Never(limit, requests), limit, r)
  {
    assert (requests + [r])[..|requests|] == requests;
  }

  /** One request that prunes nothing keeps the two tables equal. */
  lemma {:induction false} SameStep(requests: seq<Request>, r: Request)
    ensures var table, next := Never(1, requests).table, Kept(Never(1, requests).table, r.key, r.now);
            Run(1, requests, 0).table == table && After(table, r.key, r.now) == next ==>
              Run(1, requests + [r], 0).table == Never(1, requests + [r]).table == next
  {
    RunSnoc(1, requests, r);
  }

  lemma {:induction false} NothingFilled()
    ensures Filled(Never(1, []).table, 0) && Run(1, [], 0).table == Never(1, []).table
  {
    assert Never(1, []).table.entries.Keys == {OVERFLOW};
  }

  lemma {:induction false} OneMoreFilled(requests: seq<Request>, n: nat)
    requires n < MAX_ENTRIES - 1
    requires Filled(Never(1, requests).table, n) && Run(1, requests, 0).table == Never(1, requests).table
    ensures var more := requests + [Request(Address(n), 0)];
            Filled(Never(1, more).table, n + 1) && Run(1, more, 0).table == Never(1, more).table
  {
    FillStep(Never(1, requests).table, n);
    FillPrunesNothing(Never(1, requests).table, n);
    SameStep(requests, Request(Address(n), 0));
  }

  lemma {:induction false} BurstFills(n: nat)
    requires n <= MAX_ENTRIES - 1
    ensures Filled(Never(1, Burst(n)).table, n) && Run(1, Burst(n), 0).table == Never(1, Burst(n)).table
  {
    if n == 0 {
      NothingFilled();
    } else {
      BurstFills(n - 1);
      OneMoreFilled(Burst(n - 1), n - 1);
    }
  }

  lemma {:induction false} WaitKeepsFull(m: nat)
    requires m <= 904
    ensures Waiting(Never(1, BurstAndWait(m)).table, m)
    ensures Run(1, BurstAndWait(m), 0).table == Never(1, BurstAndWait(m)).table
  {
    if m == 0 {
      BurstFills(MAX_ENTRIES - 1);
    } else {
      WaitKeepsFull(m - 1);
      WaitStep(Never(1, BurstAndWait(m - 1)).table, m - 1);
      SameStep(BurstAndWait(m - 1), Request(Address(0), LATER));
    }
  }

  /** The five-thousandth request: a new address is sent to the overflow bucket, and the idle entries go. */
  lemma {:induction false} Overflows(table: Table)
    requires Waiting(table, 904)
    ensures var kept, pruned := Kept(table, "b", LATER), After(table, "b", LATER);
            && |kept.entries| == MAX_ENTRIES && "c" !in kept.entries
            && kept.entries[OVERFLOW] == Entry(Some(LATER), LATER, 1)
            && |pruned.entries| < MAX_ENTRIES && "c" !in pruned.entries
  {
    var kept, pruned := Kept(table, "b", LATER), After(table, "b", LATER);
    assert Bucket(table.entries, "b") == OVERFLOW;
    assert kept.entries.Keys == table.entries.Keys;
    assert pruned.entries.Keys <= {OVERFLOW, Address(0)};
    SubsetSize(pruned.entries.Keys, {OVERFLOW, Address(0)});
  }

  /** Of two more addresses, the second is told apart. */
  lemma {:induction false} TwoMore(requests: seq<Request>, b: Request, c: Request)
    requires Run(1, requests, 0).table == Never(1, requests).table && Waiting(Never(1, requests).table, 904)
    requires b == Request("b", LATER) && c == Request("c", LATER)
    ensures LastAdmitted(Run(1, requests + [b] + [c], 0).log) && !LastAdmitted(Never(1, requests + [b] + [c]).log)
  {
    RunSnoc(1, requests, b);
    RunSnoc(1, requests + [b], c);
    Overflows(Never(1, requests).table);
  }

  predicate LastAdmitted(log: seq<Record>) {
    log != [] && log[|log| - 1].admitted
  }

  /** The run and the one without prunes decide the last request differently, on a clock that does not go back. */
  ghost predicate ToldApart(requests: seq<Request>) {
    Monotone(requests, 0) && LastAdmitted(Run(1, requests, 0).log) && !LastAdmitted(Never(1, requests).log)
  }

  lemma {:induction false} TwoMoreMonotone(requests: seq<Request>, b: Request, c: Request)
    requires Monotone(requests, 0) && (forall i :: 0 <= i < |requests| ==> requests[i].now <= LATER)
    requires b.now == c.now == LATER
    ensures Monotone(requests + [b] + [c], 0)
  {
    MonotoneMore(requests, b);
    MonotoneMore(requests + [b], c);
  }

  lemma {:induction false} FullRunTells()
    ensures ToldApart(BurstAndWait(904) + [Request("b", LATER)] + [Request("c", LATER)])
  {
    WaitKeepsFull(904);
    TwoMore(BurstAndWait(904), Request("b", LATER), Request("c", LATER));
    WaitMonotone(904);
    TwoMoreMonotone(BurstAndWait(904), Request("b", LATER), Request("c", LATER));
  }

  /** With a limit of one, a run of 5001 requests whose last one is admitted only because of a prune. */
  lemma {:induction false} FullTableBreaksIt()
    ensures exists requests :: ToldApart(requests)
  {
    FullRunTells();
  }

  lemma {:induction false} MonotoneMore(requests: seq<Request>, r: Request)
    requires Monotone(requests, 0) && 0 <= r.now && forall i :: 0 <= i < |requests| ==> requests[i].now <= r.now
    ensures Monotone(requests + [r], 0)
  {
  }

  lemma {:induction false} BurstIsEarly(n: nat)
    ensures forall i :: 0 <= i < |Burst(n)| ==> Burst(n)[i].now == 0
  {
    if n > 0 { BurstIsEarly(n - 1); }
  }

  lemma {:induction false} WaitMonotone(m: nat)
    ensures Monotone(BurstAndWait(m), 0) && forall i :: 0 <= i < |BurstAndWait(m)| ==> BurstAndWait(m)[i].now <= LATER
  {
    if m > 0 { WaitMonotone(m - 1); } else { BurstIsEarly(MAX_ENTRIES - 1); }
  }
}
