/**
 * The per-address request limiter of the HTTP layer: fixed one-minute windows, a bounded table with an
 * overflow bucket for addresses that do not fit, and a prune of idle entries every thousand requests.
 */
module HttpRateLimiter {
  import opened Domain
  import opened DecisionLog
  import opened Sets

  const MAX_ENTRIES := 4096
  const OVERFLOW := "__overflow__"
  const WINDOW: Time := MINUTE
  const IDLE: Time := 10 * MINUTE
  const UINT64 := 0x1_0000_0000_0000_0000

  /** An entry whose window never started is the zero value. */
  datatype Entry = Entry(windowStart: Option<Time>, lastSeen: Time, count: nat)

  datatype Table = Table(entries: map<string, Entry>, requests: nat)

  /** The bucket a request is counted in. */
  function Bucket(entries: map<string, Entry>, key: string): string {
    if key !in entries && MAX_ENTRIES <= |entries| then OVERFLOW else key
  }

  predicate Restarts(entry: Option<Entry>, now: Time) {
    entry.None? || entry.value.windowStart.None? || WINDOW <= now - entry.value.windowStart.value
  }

  function Lookup(entries: map<string, Entry>, key: string): Option<Entry> {
    if key in entries then Some(entries[key]) else None
  }

  function Touch(entry: Option<Entry>, now: Time): Entry {
    if Restarts(entry, now) then Entry(Some(now), now, 1)
    else entry.value.(lastSeen := now, count := entry.value.count + 1)
  }

  function Pruned(entries: map<string, Entry>, before: Time): map<string, Entry> {
    map key | key in entries && (key == OVERFLOW || before <= entries[key].lastSeen) :: entries[key]
  }

  /** The entries with the request counted, before any prune. */
  function Counted(table: Table, key: string, now: Time): map<string, Entry> {
    var bucket := Bucket(table.entries, key);
    table.entries[bucket := Touch(Lookup(table.entries, bucket), now)]
  }

  function After(table: Table, key: string, now: Time): Table {
    var entries := Counted(table, key, now);
    var requests := (table.requests + 1) % UINT64;
    Table(if requests % 1000 == 0 then Pruned(entries, now - IDLE) else entries, requests)
  }

  predicate Admits(table: Table, limit: nat, key: string, now: Time) {
    Touch(Lookup(table.entries, Bucket(table.entries, key)), now).count <= limit
  }

  class RateLimiter {
    const limit: nat
    var entries: map<string, Entry>
    var requests: nat

    function View(): Table
      reads this
    {
      Table(entries, requests)
    }

    /** The table is bounded and always has the overflow bucket. */
    ghost predicate Valid()
      reads this
    {
      OVERFLOW in entries && |entries| <= MAX_ENTRIES
    }

    constructor (limit: nat)
      ensures Valid() && this.limit == limit
      ensures View() == Table(map[OVERFLOW := Entry(None, 0, 0)], 0)
    {
      this.limit, entries, requests := limit, map[OVERFLOW := Entry(None, 0, 0)], 0;
    }

    method Allow(key: string, now: Time) returns (allowed: bool)
      requires Valid()
      modifies this
      ensures Valid()
      ensures allowed == Admits(old(View()), limit, key, now) && View() == After(old(View()), key, now)
      ensures |entries| <= 4096
    {
      var bucket := key;
      if key !in entries && MAX_ENTRIES <= |entries| {
        bucket := OVERFLOW;
      }
      var entry := if bucket in entries then entries[bucket] else Entry(None, 0, 0);
      if entry.windowStart.None? || WINDOW <= now - entry.windowStart.value {
        entry := entry.(windowStart := Some(now), count := 0);
      }
      entry := entry.(lastSeen := now, count := entry.count + 1);
      TableGrows(entries, bucket, entry);
      entries := entries[bucket := entry];
      assert entries == Counted(old(View()), key, now);
      requests := (requests + 1) % UINT64;
      if requests % 1000 == 0 {
        Prune(now - IDLE);
      }
      allowed := entry.count <= limit;
    }

    method Prune(before: Time)
      requires Valid()
      modifies this`entries
      ensures Valid() && entries == Pruned(old(entries), before)
    {
      var all := entries;
      var rest := entries.Keys;
      while rest != {}
        invariant rest <= all.Keys
        invariant entries == map key |
            key in all && (key in rest || key == OVERFLOW || before <= all[key].lastSeen) :: all[key]
        decreases |rest|
      {
        var key :| key in rest;
        if key != OVERFLOW && entries[key].lastSeen < before {
          entries := entries - {key};
        }
        rest := rest - {key};
      }
      KeysShrink(all, entries);
    }
  }

  lemma {:induction false} TableGrows(entries: map<string, Entry>, bucket: string, entry: Entry)
    requires OVERFLOW in entries && |entries| <= MAX_ENTRIES
    requires bucket in entries || |entries| < MAX_ENTRIES
    ensures OVERFLOW in entries[bucket := entry] && |entries[bucket := entry]| <= MAX_ENTRIES
  {
  }

  lemma {:induction false} KeysShrink(a: map<string, Entry>, b: map<string, Entry>)
    requires b.Keys <= a.Keys
    ensures |b| <= |a|
  {
    SubsetSize(b.Keys, a.Keys);
  }

  // Whole runs on a clock that does not go back.

  datatype Request = Request(key: string, now: Time)

  /** `start` remembers the beginning of each bucket's latest window, also after its entry is pruned. */
  datatype World = World(table: Table, log: seq<Record>, start: map<string, Time>, clock: Time)

  function Advance(w: World, limit: nat, request: Request): World {
    var bucket := Bucket(w.table.entries, request.key);
    World(After(w.table, request.key, request.now),
          w.log + [Record(bucket, request.now, Admits(w.table, limit, request.key, request.now))],
          if Restarts(Lookup(w.table.entries, bucket), request.now) then w.start[bucket := request.now] else w.start,
          request.now)
  }

  function Run(limit: nat, requests: seq<Request>, epoch: Time): World {
    if requests == [] then World(Table(map[OVERFLOW := Entry(None, 0, 0)], 0), [], map[], epoch)
    else Advance(Run(limit, requests[..|requests| - 1], epoch), limit, requests[|requests| - 1])
  }

  predicate Monotone(requests: seq<Request>, epoch: Time) {
    && (forall i :: 0 <= i < |requests| ==> epoch <= requests[i].now)
    && (forall i, j :: 0 <= i < j < |requests| ==> requests[i].now <= requests[j].now)
  }

  /** No record of the bucket is at or after `t`. */
  predicate QuietSince(log: seq<Record>, bucket: string, t: Time) {
    forall i :: 0 <= i < |log| && log[i].key == bucket ==> log[i].now < t
  }

  function Fewer(limit: nat): nat { if limit == 0 then 0 else limit - 1 }

  /** The most a half-open minute can admit: it never contains the starts of two windows. */
  function Most(limit: nat): nat { if limit == 0 then 0 else 2 * limit - 1 }

  /**
   * The latest window of a bucket admitted at most `limit`, its first request among them, and the minute
   * before it fewer.
   */
  predicate WindowOk(log: seq<Record>, bucket: string, limit: nat, start: Time, clock: Time) {
    && start <= clock
    && QuietSince(log, bucket, clock + 1) && QuietSince(log, bucket, start + WINDOW)
    && Count(log, bucket, start, clock + 1) <= limit
    && Count(log, bucket, start, start + 1) >= Min(1, limit)
    && Count(log, bucket, start - WINDOW + 1, start) <= Fewer(limit)
  }

  /** The table's entry of a bucket agrees with the log; a bucket without entry has been idle. */
  predicate EntryOk(log: seq<Record>, bucket: string, limit: nat, entry: Option<Entry>, start: Option<Time>, clock: Time) {
    match entry
    case None => start.Some? ==> QuietSince(log, bucket, clock - IDLE)
    case Some(e) =>
      && e.windowStart == start
      && (start.Some? ==> QuietSince(log, bucket, e.lastSeen + 1)
                          && Count(log, bucket, start.value, clock + 1) == Min(e.count, limit))
  }

  predicate Unseen(log: seq<Record>, bucket: string) {
    forall i :: 0 <= i < |log| ==> log[i].key != bucket
  }

  /** Admissions in the minute that starts at `from`. */
  function InMinute(log: seq<Record>, bucket: string, from: Time): nat {
    Count(log, bucket, from, from + WINDOW)
  }

  ghost predicate Sliding(log: seq<Record>, bucket: string, limit: nat) {
    forall from :: InMinute(log, bucket, from) <= Most(limit)
  }

  function StartOf(w: World, bucket: string): Option<Time> {
    if bucket in w.start then Some(w.start[bucket]) else None
  }

  ghost predicate BucketOk(w: World, limit: nat, bucket: string) {
    && (bucket in w.start ==> WindowOk(w.log, bucket, limit, w.start[bucket], w.clock))
    && (bucket !in w.start ==> Unseen(w.log, bucket))
    && EntryOk(w.log, bucket, limit, Lookup(w.table.entries, bucket), StartOf(w, bucket), w.clock)
    && Sliding(w.log, bucket, limit)
  }

  /** Nothing after `t`, so the end of the interval does not matter beyond it. */
  lemma {:induction false} CountUpTo(log: seq<Record>, bucket: string, from: Time, t: Time, until: Time)
    requires QuietSince(log, bucket, t) && t <= until
    ensures Count(log, bucket, from, until) == Count(log, bucket, from, t)
  {
    if log != [] { CountUpTo(log[..|log| - 1], bucket, from, t, until); }
  }

  /** A request counted elsewhere, and the passing of time, change nothing for this bucket. */
  lemma {:induction false} OtherBucketOk(
    log: seq<Record>, record: Record, bucket: string, limit: nat, start: Option<Time>, clock: Time)
    requires record.key != bucket && clock <= record.now
    requires start.Some? ==> WindowOk(log, bucket, limit, start.value, clock)
    requires Sliding(log, bucket, limit)
    ensures Sliding(log + [record], bucket, limit)
    ensures start.Some? ==>
      && WindowOk(log + [record], bucket, limit, start.value, record.now)
      && Count(log + [record], bucket, start.value, record.now + 1) == Count(log, bucket, start.value, clock + 1)
  {
    forall from
      ensures InMinute(log + [record], bucket, from) <= Most(limit)
    {
      CountSnoc(log, record, bucket, from, from + WINDOW);
      assert InMinute(log, bucket, from) <= Most(limit);
    }
    if start.Some? {
      CountSnoc(log, record, bucket, start.value, record.now + 1);
      CountSnoc(log, record, bucket, start.value - WINDOW + 1, start.value);
      CountSnoc(log, record, bucket, start.value, start.value + 1);
      CountUpTo(log, bucket, start.value, clock + 1, record.now + 1);
    }
  }

  /** A window that starts now: everything before it was admitted in at most one window of the last minute. */
  lemma {:induction false} RestartOk(
    log: seq<Record>, bucket: string, limit: nat, entry: Option<Entry>, start: Option<Time>, clock: Time, now: Time)
    requires clock <= now && Restarts(entry, now)
    requires start.Some? ==> WindowOk(log, bucket, limit, start.value, clock)
    requires start.None? ==> Unseen(log, bucket)
    requires EntryOk(log, bucket, limit, entry, start, clock)
    ensures QuietSince(log, bucket, now) && Count(log, bucket, now - WINDOW + 1, now) <= Fewer(limit)
  {
    if start.None? {
      CountEarlier(log, bucket, now - WINDOW + 1, now);
    } else if entry.None? {
      CountEarlier(log, bucket, now - WINDOW + 1, now);
    } else {
      CountSplit(log, bucket, start.value, start.value + 1, now + 1);
      CountWithin(log, bucket, now - WINDOW + 1, now, start.value + 1, now + 1);
      CountUpTo(log, bucket, start.value, clock + 1, now + 1);
    }
  }

  /** One more admission in the latest window keeps every minute within twice the limit. */
  lemma {:induction false} SlidingOk(log: seq<Record>, record: Record, limit: nat, start: Time)
    requires Sliding(log, record.key, limit) && start <= record.now < start + WINDOW
    requires Count(log, record.key, start - WINDOW + 1, start) <= Fewer(limit)
    requires QuietSince(log, record.key, record.now + 1)
    requires record.admitted ==> Count(log, record.key, start, record.now + 1) < limit
    ensures Sliding(log + [record], record.key, limit)
  {
    forall from
      ensures InMinute(log + [record], record.key, from) <= Most(limit)
    {
      CountSnoc(log, record, record.key, from, from + WINDOW);
      assert InMinute(log, record.key, from) <= Most(limit);
      if record.admitted && from <= record.now < from + WINDOW {
        MinuteOk(log, record.key, limit, start, record.now, from);
      }
    }
  }

  lemma {:induction false} MinuteOk(log: seq<Record>, b: string, limit: nat, start: Time, now: Time, from: Time)
    requires start <= now < start + WINDOW && from <= now < from + WINDOW
    requires Count(log, b, start - WINDOW + 1, start) <= Fewer(limit)
    requires QuietSince(log, b, now + 1) && Count(log, b, start, now + 1) < limit
    ensures InMinute(log, b, from) < Most(limit)
  {
    CountUpTo(log, b, from, now + 1, from + WINDOW);
    if from <= start {
      CountSplit(log, b, from, start, now + 1);
      CountWithin(log, b, from, start, start - WINDOW + 1, start);
    } else {
      CountWithin(log, b, from, now + 1, start, now + 1);
    }
  }

  /** The bucket's own request when it opens a window. */
  lemma {:induction false} RestartedBucketOk(
    log: seq<Record>, record: Record, limit: nat, entry: Option<Entry>, start: Option<Time>, clock: Time)
    requires clock <= record.now && Restarts(entry, record.now) && record.admitted == (1 <= limit)
    requires start.Some? ==> WindowOk(log, record.key, limit, start.value, clock)
    requires start.None? ==> Unseen(log, record.key)
    requires EntryOk(log, record.key, limit, entry, start, clock) && Sliding(log, record.key, limit)
    ensures WindowOk(log + [record], record.key, limit, record.now, record.now)
    ensures Count(log + [record], record.key, record.now, record.now + 1) == Min(1, limit)
    ensures Sliding(log + [record], record.key, limit)
  {
    var b, now := record.key, record.now;
    RestartOk(log, b, limit, entry, start, clock, now);
    CountEarlier(log, b, now, now + 1);
    SlidingOk(log, record, limit, now);
    CountSnoc(log, record, b, now, now + 1);
    CountSnoc(log, record, b, now - WINDOW + 1, now);
  }

  /** The bucket's own request within its window. */
  lemma {:induction false} ContinuedBucketOk(
    log: seq<Record>, record: Record, limit: nat, count: nat, start: Time, clock: Time)
    requires clock <= record.now < start + WINDOW && record.admitted == (count + 1 <= limit)
    requires WindowOk(log, record.key, limit, start, clock)
    requires Count(log, record.key, start, clock + 1) == Min(count, limit)
    requires Sliding(log, record.key, limit)
    ensures WindowOk(log + [record], record.key, limit, start, record.now)
    ensures Count(log + [record], record.key, start, record.now + 1) == Min(count + 1, limit)
    ensures Sliding(log + [record], record.key, limit)
  {
    var b, now := record.key, record.now;
    CountUpTo(log, b, start, clock + 1, now + 1);
    SlidingOk(log, record, limit, start);
    CountSnoc(log, record, b, start, now + 1);
    CountSnoc(log, record, b, start - WINDOW + 1, start);
    CountSnoc(log, record, b, start, start + 1);
  }

  /** What pruning may do to one bucket's entry. */
  lemma {:induction false} PrunedEntryOk(
    log: seq<Record>, bucket: string, limit: nat, entries: map<string, Entry>, start: Option<Time>, clock: Time)
    requires EntryOk(log, bucket, limit, Lookup(entries, bucket), start, clock)
    ensures EntryOk(log, bucket, limit, Lookup(Pruned(entries, clock - IDLE), bucket), start, clock)
  {
  }

  lemma {:induction false} AdvanceOther(w: World, limit: nat, request: Request, bucket: string)
    requires w.clock <= request.now && BucketOk(w, limit, bucket)
    requires bucket != Bucket(w.table.entries, request.key)
    ensures BucketOk(Advance(w, limit, request), limit, bucket)
  {
    var own, next := Bucket(w.table.entries, request.key), Advance(w, limit, request);
    var record := Record(own, request.now, Admits(w.table, limit, request.key, request.now));
    OtherBucketOk(w.log, record, bucket, limit, StartOf(w, bucket), w.clock);
    var entries := w.table.entries[own := Touch(Lookup(w.table.entries, own), request.now)];
    assert Lookup(entries, bucket) == Lookup(w.table.entries, bucket);
    assert EntryOk(w.log + [record], bucket, limit, Lookup(entries, bucket), StartOf(w, bucket), request.now);
    PrunedEntryOk(next.log, bucket, limit, entries, StartOf(w, bucket), request.now);
    assert StartOf(next, bucket) == StartOf(w, bucket);
  }

  lemma {:induction false} AdvanceOwn(w: World, limit: nat, request: Request)
    requires w.clock <= request.now && BucketOk(w, limit, Bucket(w.table.entries, request.key))
    ensures BucketOk(Advance(w, limit, request), limit, Bucket(w.table.entries, request.key))
  {
    var own, next := Bucket(w.table.entries, request.key), Advance(w, limit, request);
    var entry := Lookup(w.table.entries, own);
    var record := Record(own, request.now, Admits(w.table, limit, request.key, request.now));
    if Restarts(entry, request.now) {
      RestartedBucketOk(w.log, record, limit, entry, StartOf(w, own), w.clock);
    } else {
      ContinuedBucketOk(w.log, record, limit, entry.value.count, w.start[own], w.clock);
    }
    var entries := w.table.entries[own := Touch(entry, request.now)];
    assert EntryOk(next.log, own, limit, Lookup(entries, own), StartOf(next, own), request.now);
    PrunedEntryOk(next.log, own, limit, entries, StartOf(next, own), request.now);
  }

  /** Every bucket's log stays within bounds for the whole run, across prunes and re-created entries. */
  lemma {:induction false} RunBucketOk(limit: nat, requests: seq<Request>, epoch: Time, bucket: string)
    requires Monotone(requests, epoch)
    ensures BucketOk(Run(limit, requests, epoch), limit, bucket)
    ensures Run(limit, requests, epoch).clock == if requests == [] then epoch else requests[|requests| - 1].now
  {
    if requests == [] {
      forall from
        ensures InMinute([], bucket, from) == 0
      {
      }
    } else {
      var before := requests[..|requests| - 1];
      RunBucketOk(limit, before, epoch, bucket);
      var w, request := Run(limit, before, epoch), requests[|requests| - 1];
      if bucket == Bucket(w.table.entries, request.key) {
        AdvanceOwn(w, limit, request);
      } else {
        AdvanceOther(w, limit, request, bucket);
      }
    }
  }

  /** A request is refused only when its bucket admitted the full limit within the last minute. */
  lemma {:induction false} RefusedOnlyWhenFull(limit: nat, requests: seq<Request>, epoch: Time, request: Request)
    requires Monotone(requests + [request], epoch)
    ensures var w := Run(limit, requests, epoch);
            var bucket := Bucket(w.table.entries, request.key);
            Admits(w.table, limit, request.key, request.now)
            || limit <= Count(w.log, bucket, request.now - MINUTE + 1, request.now + 1)
  {
    assert forall i :: 0 <= i < |requests| ==> (requests + [request])[i] == requests[i];
    assert (requests + [request])[|requests|] == request;
    var w := Run(limit, requests, epoch);
    var bucket := Bucket(w.table.entries, request.key);
    RunBucketOk(limit, requests, epoch, bucket);
    if !Admits(w.table, limit, request.key, request.now) && limit > 0 {
      var start := w.start[bucket];
      CountUpTo(w.log, bucket, start, w.clock + 1, request.now + 1);
      CountWithin(w.log, bucket, start, request.now + 1, request.now - MINUTE + 1, request.now + 1);
    }
  }

  /**
   * On a clock that does not go back, a bucket admits fewer than twice the limit in any half-open minute,
   * whatever was pruned and created again in between.
   */
  lemma {:induction false} FewerThanTwiceTheLimit(
    limit: nat, requests: seq<Request>, epoch: Time, bucket: string, from: Time)
    requires Monotone(requests, epoch)
    ensures Count(Run(limit, requests, epoch).log, bucket, from, from + MINUTE) <= Most(limit)
  {
    RunBucketOk(limit, requests, epoch, bucket);
    assert InMinute(Run(limit, requests, epoch).log, bucket, from) <= Most(limit);
  }

  /** The addresses of the requests. */
  function Addresses(requests: seq<Request>): set<string> {
    set r | r in requests :: r.key
  }

  lemma {:induction false} TableWithin(limit: nat, requests: seq<Request>, epoch: Time)
    ensures Run(limit, requests, epoch).table.entries.Keys <= Addresses(requests) + {OVERFLOW}
  {
    if requests != [] {
      var before, last := requests[..|requests| - 1], requests[|requests| - 1];
      TableWithin(limit, before, epoch);
      assert requests == before + [last];
      assert Addresses(before) <= Addresses(requests) && last.key in Addresses(requests);
    }
  }

  /** An address is counted in its own bucket while all addresses fit into the table beside the overflow bucket. */
  lemma {:induction false} OwnBucket(limit: nat, requests: seq<Request>, epoch: Time, key: string)
    requires |Addresses(requests) + {key, "__overflow__"}| <= 4096
    ensures Bucket(Run(limit, requests, epoch).table.entries, key) == key
  {
    var entries := Run(limit, requests, epoch).table.entries;
    TableWithin(limit, requests, epoch);
    if key !in entries {
      SubsetSize(entries.Keys + {key}, Addresses(requests) + {key, OVERFLOW});
    }
  }

  /** While all addresses fit, every decision is logged under the address it was made for, and depends on no other. */
  lemma {:induction false} AddressesAreSeparate(limit: nat, requests: seq<Request>, epoch: Time, i: nat)
    requires i < |requests| && |Addresses(requests) + {"__overflow__"}| <= 4096
    ensures var log := Run(limit, requests, epoch).log;
            |log| == |requests| && log[i].key == requests[i].key && log[i].now == requests[i].now
  {
    var before, last := requests[..|requests| - 1], requests[|requests| - 1];
    assert requests == before + [last];
    assert Addresses(before) + {last.key, OVERFLOW} == Addresses(requests) + {OVERFLOW};
    OwnBucket(limit, before, epoch, last.key);
    if before != [] {
      SubsetSize(Addresses(before) + {OVERFLOW}, Addresses(requests) + {OVERFLOW});
      AddressesAreSeparate(limit, before, epoch, if i < |before| then i else 0);
    }
  }

  /** A refused address has itself been admitted as often as the limit says within the last minute. */
  lemma {:induction false} RefusedForOwnRequests(limit: nat, requests: seq<Request>, epoch: Time, request: Request)
    requires Monotone(requests + [request], epoch)
    requires |Addresses(requests) + {request.key, "__overflow__"}| <= 4096
    ensures var w := Run(limit, requests, epoch);
            Admits(w.table, limit, request.key, request.now)
            || limit <= Count(w.log, request.key, request.now - MINUTE + 1, request.now + 1)
  {
    RefusedOnlyWhenFull(limit, requests, epoch, request);
    OwnBucket(limit, requests, epoch, request.key);
  }

  /** A request while the table is small and no prune is due. */
  lemma {:induction false} SmallStep(w: World, limit: nat, request: Request)
    requires |w.table.entries| < MAX_ENTRIES && w.table.requests < 998
    ensures var key, now := request.key, request.now;
            var entry := Touch(Lookup(w.table.entries, key), now);
            var next := Advance(w, limit, request);
            && next.table == Table(w.table.entries[key := entry], w.table.requests + 1)
            && next.log == w.log + [Record(key, now, entry.count <= limit)]
  {
  }

  /** The bound is reached: a late burst in one window and an early one in the next. */
  lemma {:induction false} TheBoundIsReached()
    ensures var requests := [Request("a", 0), Request("a", MINUTE - 1), Request("a", MINUTE), Request("a", MINUTE)];
            Count(Run(2, requests, 0).log, "a", 1, 1 + MINUTE) == Most(2)
  {
    var r := [Request("a", 0), Request("a", MINUTE - 1), Request("a", MINUTE), Request("a", MINUTE)];
    assert r[..3][..2] == r[..2] && r[..2][..1] == r[..1] && r[..1][..0] == [];
    var w0, w1, w2, w3 := Run(2, [], 0), Run(2, r[..1], 0), Run(2, r[..2], 0), Run(2, r[..3], 0);
    assert w0.table.entries == map[OVERFLOW := Entry(None, 0, 0)] && |w0.table.entries| == 1;
    SmallStep(w0, 2, r[0]);
    assert w1.table.entries.Keys == {OVERFLOW, "a"};
    assert w1.table.entries["a"] == Entry(Some(0), 0, 1);
    SmallStep(w1, 2, r[1]);
    assert w2.table.entries.Keys == {OVERFLOW, "a"};
    assert w2.table.entries["a"] == Entry(Some(0), MINUTE - 1, 2);
    SmallStep(w2, 2, r[2]);
    assert w3.table.entries.Keys == {OVERFLOW, "a"};
    assert w3.table.entries["a"] == Entry(Some(MINUTE), MINUTE, 1);
    SmallStep(w3, 2, r[3]);
    assert Run(2, r, 0).log == ([] + [Record("a", 0, true)] + [Record("a", MINUTE - 1, true)]
                                + [Record("a", MINUTE, true)] + [Record("a", MINUTE, true)]);
    CountFour(Record("a", 0, true), Record("a", MINUTE - 1, true), Record("a", MINUTE, true));
  }

  lemma {:induction false} CountFour(a: Record, b: Record, c: Record)
    requires a == Record("a", 0, true) && b == Record("a", MINUTE - 1, true) && c == Record("a", MINUTE, true)
    ensures Count([] + [a] + [b] + [c] + [c], "a", 1, 1 + MINUTE) == 3
  {
    CountSnoc([], a, "a", 1, 1 + MINUTE);
    CountSnoc([] + [a], b, "a", 1, 1 + MINUTE);
    CountSnoc([] + [a] + [b], c, "a", 1, 1 + MINUTE);
    CountSnoc([] + [a] + [b] + [c], c, "a", 1, 1 + MINUTE);
  }
}
