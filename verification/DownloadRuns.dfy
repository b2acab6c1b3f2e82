/**
 * Any number of downloads at once: calls that run, bodies that stream, and bodies that are read and closed
 * again after they have ended, in any order. `Machine` runs them on the limiter in place.
 */
module DownloadRuns {
  import opened Domain
  import opened Streams
  import opened Downloads

  /** A call waits for nothing once it has its slot; its body streams until the first fault or close. */
  datatype Phase = Refused | Running | Streaming | Ended

  /** `releases` counts how often the counter was given back for this download. */
  datatype Transfer = Transfer(user: string, phase: Phase, releases: nat)

  datatype System = System(limit: nat, active: map<string, nat>, transfers: map<nat, Transfer>)

  datatype Event =
    | Begin(d: nat, user: string)
    | Fail(d: nat)
    | Deliver(d: nat)
    | Read(d: nat, fault: bool)
    | Close(d: nat)

  predicate Holds(transfer: Transfer) {
    transfer.phase.Running? || transfer.phase.Streaming?
  }

  /** The slot is given back, unless it was before. */
  function Release(s: System, d: nat): System
    requires d in s.transfers
  {
    var transfer := s.transfers[d];
    if !Holds(transfer) then s
    else s.(active := Returned(s.active, transfer.user),
            transfers := s.transfers[d := Transfer(transfer.user, Ended, transfer.releases + 1)])
  }

  function Advance(s: System, e: Event): System {
    match e
    case Begin(d, user) =>
      if d in s.transfers then s
      else if s.limit <= Active(s.active, user) then s.(transfers := s.transfers[d := Transfer(user, Refused, 0)])
      else s.(active := Acquired(s.active, user), transfers := s.transfers[d := Transfer(user, Running, 0)])
    case Fail(d) => if d in s.transfers && s.transfers[d].phase.Running? then Release(s, d) else s
    case Deliver(d) =>
      if d in s.transfers && s.transfers[d].phase.Running?
      then s.(transfers := s.transfers[d := s.transfers[d].(phase := Streaming)]) else s
    case Read(d, fault) =>
      if d in s.transfers && !s.transfers[d].phase.Running? && fault then Release(s, d) else s
    case Close(d) => if d in s.transfers && !s.transfers[d].phase.Running? then Release(s, d) else s
  }

  function Play(limit: nat, events: seq<Event>): System {
    if events == [] then System(limit, map[], map[])
    else Advance(Play(limit, events[..|events| - 1]), events[|events| - 1])
  }

  /** The user's running calls and unreleased bodies. */
  function Holders(transfers: map<nat, Transfer>, user: string): set<nat> {
    set d | d in transfers && Holds(transfers[d]) && transfers[d].user == user
  }

  /** A slot is given back exactly once, when the download ends. */
  predicate ReleasedOnce(transfer: Transfer) {
    transfer.releases == if transfer.phase.Ended? then 1 else 0
  }

  ghost predicate Inv(s: System) {
    && (forall user :: Active(s.active, user) == |Holders(s.transfers, user)| <= s.limit)
    && (forall user :: user in s.active ==> 0 < s.active[user])
    && (forall d :: d in s.transfers ==> ReleasedOnce(s.transfers[d]))
  }

  lemma {:induction false} HoldersAdd(transfers: map<nat, Transfer>, d: nat, transfer: Transfer)
    requires d in transfers ==> !Holds(transfers[d])
    requires Holds(transfer)
    ensures |Holders(transfers[d := transfer], transfer.user)| == |Holders(transfers, transfer.user)| + 1
    ensures forall user :: user != transfer.user ==> Holders(transfers[d := transfer], user) == Holders(transfers, user)
  {
    assert Holders(transfers[d := transfer], transfer.user) == Holders(transfers, transfer.user) + {d};
  }

  lemma {:induction false} HoldersRemove(transfers: map<nat, Transfer>, d: nat, transfer: Transfer)
    requires d in transfers && Holds(transfers[d]) && !Holds(transfer)
    ensures |Holders(transfers[d := transfer], transfers[d].user)| == |Holders(transfers, transfers[d].user)| - 1
    ensures forall user :: user != transfers[d].user ==> Holders(transfers[d := transfer], user) == Holders(transfers, user)
  {
    assert Holders(transfers[d := transfer], transfers[d].user) == Holders(transfers, transfers[d].user) - {d};
    assert d in Holders(transfers, transfers[d].user);
  }

  /** Replacing a download by one that holds as before changes nobody's count. */
  lemma {:induction false} HoldersSame(transfers: map<nat, Transfer>, d: nat, transfer: Transfer)
    requires if d in transfers then Holds(transfer) == Holds(transfers[d]) && transfer.user == transfers[d].user
             else !Holds(transfer)
    ensures forall user :: Holders(transfers[d := transfer], user) == Holders(transfers, user)
  {
    forall user
      ensures Holders(transfers[d := transfer], user) == Holders(transfers, user)
    {
      assert forall x :: x in Holders(transfers[d := transfer], user) <==> x in Holders(transfers, user);
    }
  }

  lemma {:induction false} ReturnedCounts(active: map<string, nat>, user: string)
    requires 1 <= Active(active, user) && forall other :: other in active ==> 0 < active[other]
    ensures var after := Returned(active, user);
            && (forall other :: other in after ==> 0 < after[other])
            && (forall other :: Active(after, other) == Active(active, other) - (if other == user then 1 else 0))
  {
  }

  lemma {:induction false} AcquiredCounts(active: map<string, nat>, user: string)
    requires forall other :: other in active ==> 0 < active[other]
    ensures var after := Acquired(active, user);
            && (forall other :: other in after ==> 0 < after[other])
            && (forall other :: Active(after, other) == Active(active, other) + (if other == user then 1 else 0))
  {
  }

  lemma {:induction false} ReleaseInv(s: System, d: nat)
    requires Inv(s) && d in s.transfers
    ensures Inv(Release(s, d))
  {
    var transfer := s.transfers[d];
    if Holds(transfer) {
      HoldersRemove(s.transfers, d, Transfer(transfer.user, Ended, transfer.releases + 1));
      ReturnedCounts(s.active, transfer.user);
      assert ReleasedOnce(transfer);
    }
  }

  lemma {:induction false} BeginInv(s: System, e: Event)
    requires Inv(s) && e.Begin? && e.d !in s.transfers
    ensures Inv(Advance(s, e))
  {
    if s.limit <= Active(s.active, e.user) {
      HoldersSame(s.transfers, e.d, Transfer(e.user, Refused, 0));
    } else {
      HoldersAdd(s.transfers, e.d, Transfer(e.user, Running, 0));
      AcquiredCounts(s.active, e.user);
    }
  }

  lemma {:induction false} AdvanceInv(s: System, e: Event)
    requires Inv(s)
    ensures Inv(Advance(s, e))
  {
    if e.d !in s.transfers {
      if e.Begin? { BeginInv(s, e); }
    } else if e.Deliver? && s.transfers[e.d].phase.Running? {
      HoldersSame(s.transfers, e.d, s.transfers[e.d].(phase := Streaming));
    } else {
      ReleaseInv(s, e.d);
    }
  }

  lemma {:induction false} PlayInv(limit: nat, events: seq<Event>)
    ensures Inv(Play(limit, events)) && Play(limit, events).limit == limit
  {
    if events == [] {
      assert forall user :: Holders(map[], user) == {};
    } else {
      PlayInv(limit, events[..|events| - 1]);
      AdvanceInv(Play(limit, events[..|events| - 1]), events[|events| - 1]);
    }
  }

  /**
   * After any events, a user's counter is the number of its running calls and unreleased bodies, within the
   * limit, and there is no counter at zero.
   */
  lemma {:induction false} SlotsAreConserved(limit: nat, events: seq<Event>, user: string)
    ensures var s := Play(limit, events);
            && Active(s.active, user) == |Holders(s.transfers, user)| <= limit
            && (user in s.active <==> Holders(s.transfers, user) != {})
  {
    PlayInv(limit, events);
  }

  /** A slot is given back exactly once, however often an ended body is read or closed again. */
  lemma {:induction false} EachSlotIsReleasedOnce(limit: nat, events: seq<Event>, d: nat)
    requires d in Play(limit, events).transfers
    ensures ReleasedOnce(Play(limit, events).transfers[d])
  {
    PlayInv(limit, events);
  }

  /** A call is refused exactly when the user has as many calls and bodies as the limit allows. */
  lemma {:induction false} RefusedIffFull(limit: nat, events: seq<Event>, d: nat, user: string)
    requires d !in Play(limit, events).transfers
    ensures var s, next := Play(limit, events), Advance(Play(limit, events), Begin(d, user));
            next.transfers[d].phase.Refused? <==> limit <= |Holders(s.transfers, user)|
  {
    PlayInv(limit, events);
  }

  // The objects: each operation on them is one event.

  /** The download's slot is held while it runs or streams, and released after. */
  ghost predicate SlotOk(limiter: DownloadLimiter, slot: Slot, transfer: Transfer)
    reads limiter, slot
  {
    && slot.limiter == limiter && slot.user == transfer.user
    && (Holds(transfer) <==> !slot.released) && (Holds(transfer) <==> slot in limiter.held)
  }

  /** The limiter is where the run is: its counters are the run's, and every held slot is a download's. */
  ghost predicate Linked(limiter: DownloadLimiter, slots: map<nat, Slot>, s: System)
    reads limiter, limiter.held, slots.Values
  {
    && limiter.Valid() && s.limit == limiter.limit && s.active == limiter.active
    && (forall e :: e in slots ==> e in s.transfers)
    && (forall e :: e in s.transfers ==> (e in slots <==> !s.transfers[e].phase.Refused?))
    && (forall e :: e in slots ==> SlotOk(limiter, slots[e], s.transfers[e]))
    && (forall slot :: slot in limiter.held ==> slot in slots.Values)
    && (forall e, f :: e in slots && f in slots && e != f ==> slots[e] != slots[f])
  }

  /** A new limiter is where the empty run is. */
  method NewLimiter(limit: nat) returns (limiter: DownloadLimiter)
    ensures fresh(limiter) && limiter.limit == limit && Linked(limiter, map[], Play(limit, []))
  {
    limiter := new DownloadLimiter(limit);
  }

  /** One event after another: a limiter where a run's next state is, is where the longer run is. */
  lemma {:induction false} LinkedLonger(limiter: DownloadLimiter, slots: map<nat, Slot>, events: seq<Event>, e: Event)
    requires Linked(limiter, slots, Advance(Play(limiter.limit, events), e))
    ensures Linked(limiter, slots, Play(limiter.limit, events + [e]))
  {
    assert (events + [e])[..|events|] == events;
  }

  /** So on the objects, too, a user's counter is the number of its running calls and unreleased bodies. */
  lemma {:induction false} LimiterIsConserved(
    limiter: DownloadLimiter, slots: map<nat, Slot>, events: seq<Event>, user: string)
    requires Linked(limiter, slots, Play(limiter.limit, events))
    ensures var holders := Holders(Play(limiter.limit, events).transfers, user);
            && Active(limiter.active, user) == |holders| == |Of(limiter.held, user)| <= limiter.limit
            && Of(limiter.held, user) == set d | d in holders && d in slots :: slots[d]
  {
    var transfers := Play(limiter.limit, events).transfers;
    SlotsAreConserved(limiter.limit, events, user);
    assert forall d :: d in slots ==> SlotOk(limiter, slots[d], transfers[d]);
    limiter.CountOf(user);
  }

  /** What no operation on a slot changes: whose slots they are, and that they are all there is. */
  ghost predicate Assigned(limiter: DownloadLimiter, slots: map<nat, Slot>, s: System, held: set<Slot>) {
    && (forall e :: e in slots ==>
          e in s.transfers && slots[e].limiter == limiter && slots[e].user == s.transfers[e].user)
    && (forall e :: e in s.transfers ==> (e in slots <==> !s.transfers[e].phase.Refused?))
    && (forall slot :: slot in held ==> slot in slots.Values)
    && (forall e, f :: e in slots && f in slots && e != f ==> slots[e] != slots[f])
  }

  /** The slots but that of `d` hold or are released as the run says, given by what was held and released. */
  ghost predicate Others(slots: map<nat, Slot>, s: System, d: nat, held: set<Slot>, released: map<nat, bool>) {
    forall e :: e in slots && e != d ==>
      && e in s.transfers && e in released
      && (Holds(s.transfers[e]) <==> !released[e]) && (Holds(s.transfers[e]) <==> slots[e] in held)
  }

  ghost function ReleasedSlots(slots: map<nat, Slot>): map<nat, bool>
    reads slots.Values
  {
    map e | e in slots :: slots[e].released
  }

  ghost predicate ReleasedAsBefore(slots: map<nat, Slot>, d: nat, released: map<nat, bool>)
    reads slots.Values
  {
    forall e :: e in slots && e != d ==> e in released && slots[e].released == released[e]
  }

  lemma {:induction false} Snapshot(limiter: DownloadLimiter, slots: map<nat, Slot>, s: System, d: nat)
    requires Linked(limiter, slots, s) && d in slots
    ensures Assigned(limiter, slots, s, limiter.held) && Others(slots, s, d, limiter.held, ReleasedSlots(slots))
    ensures d in s.transfers && SlotOk(limiter, slots[d], s.transfers[d])
  {
  }

  /** After an operation on the slot of `d`, which now is as `s'` says, the limiter is where `s'` is. */
  lemma {:induction false} LinkBack(
    limiter: DownloadLimiter, slots: map<nat, Slot>, s: System, s': System, d: nat, held: set<Slot>,
    released: map<nat, bool>)
    requires Assigned(limiter, slots, s, held) && Others(slots, s, d, held, released) && d in slots && limiter.Valid()
    requires ReleasedAsBefore(slots, d, released)
    requires limiter.held == held || limiter.held == held - {slots[d]}
    requires d in s'.transfers && s'.transfers == s.transfers[d := s'.transfers[d]]
    requires s'.limit == limiter.limit && s'.active == limiter.active
    requires SlotOk(limiter, slots[d], s'.transfers[d]) && !s'.transfers[d].phase.Refused?
    ensures Linked(limiter, slots, s')
  {
  }

  /** A download call begins: it gets a slot unless the user has as many as the limit allows. */
  method BeginDownload(limiter: DownloadLimiter, user: string, ghost slots: map<nat, Slot>, ghost s: System, ghost d: nat)
    returns (slot: Slot?, ghost slots': map<nat, Slot>, ghost s': System)
    requires Linked(limiter, slots, s) && d !in s.transfers
    modifies limiter
    ensures s' == Advance(s, Begin(d, user)) && Linked(limiter, slots', s')
    ensures slot == null <==> limiter.limit <= Active(s.active, user)
    ensures slots' == if slot == null then slots else slots[d := slot]
    ensures slot != null ==> fresh(slot) && s'.transfers[d].phase.Running?
  {
    slot := limiter.Acquire(user);
    s', slots' := Advance(s, Begin(d, user)), slots;
    if slot != null {
      slots' := slots[d := slot];
      NewSlotLinks(limiter, slots, s, d, slot);
    }
  }

  /** The slot that was just acquired, among the others. */
  lemma {:induction false} NewSlotLinks(limiter: DownloadLimiter, slots: map<nat, Slot>, s: System, d: nat, slot: Slot)
    requires d !in s.transfers && limiter.Valid() && s.limit == limiter.limit && slot in limiter.held
    requires forall e :: e in s.transfers ==> (e in slots <==> !s.transfers[e].phase.Refused?)
    requires forall e :: e in slots ==> e in s.transfers
    requires forall e :: e in slots ==> slots[e] != slot && SlotOk(limiter, slots[e], s.transfers[e])
    requires forall other :: other in limiter.held && other != slot ==> other in slots.Values
    requires forall e, f :: e in slots && f in slots && e != f ==> slots[e] != slots[f]
    ensures Linked(limiter, slots[d := slot],
                   s.(active := limiter.active, transfers := s.transfers[d := Transfer(slot.user, Running, 0)]))
  {
    var more := slots[d := slot];
    assert more[d] == slot && forall e :: e in slots ==> more[e] == slots[e];
  }

  /** The reader is the body that the download handed over; its once-flag says whether the download has ended. */
  ghost predicate Attached(slots: map<nat, Slot>, s: System, d: nat, reader: ReleaseReader)
    reads reader
  {
    && d in slots && d in s.transfers && slots[d] == reader.slot
    && (s.transfers[d].phase.Streaming? || s.transfers[d].phase.Ended?)
    && (reader.once <==> s.transfers[d].phase.Ended?)
  }

  /** The rest of the call, holding its slot: it fails, or hands over a body that owns the slot. */
  method CarryDownload(
    service: Service, request: Request, world: Answers, own: Slot,
    ghost slots: map<nat, Slot>, ghost s: System, ghost d: nat)
    returns (result: Answer<Delivery>, ghost s': System)
    requires service.Inadmissible(request).None? && Service.Unread(world)
    requires Linked(service.limiter, slots, s) && d in slots && slots[d] == own && s.transfers[d].phase.Running?
    modifies service, service.limiter, own
    modifies if world.body.Answered? then {world.body.value.reader.body} else {}
    ensures s' == Advance(s, if result.Answered? then Deliver(d) else Fail(d)) && Linked(service.limiter, slots, s')
    ensures result.Answered? <==> service.Permits(world, request.user, request.fileId) && world.auditOk
    ensures result.Answered? ==> Attached(slots, s', d, result.value.body)
  {
    Snapshot(service.limiter, slots, s, d);
    ghost var held, released := service.limiter.held, ReleasedSlots(slots);
    result := CarrySlot(service, request, world, own);
    s' := Advance(s, if result.Answered? then Deliver(d) else Fail(d));
    LinkBack(service.limiter, slots, s, s', d, held, released);
  }

  /** What the rest of the call does to its slot, while nobody else acts. */
  method CarrySlot(service: Service, request: Request, world: Answers, own: Slot) returns (result: Answer<Delivery>)
    requires service.Inadmissible(request).None? && Service.Unread(world)
    requires service.limiter.Valid() && own.limiter == service.limiter && own in service.limiter.held
    modifies service, service.limiter, own
    modifies if world.body.Answered? then {world.body.value.reader.body} else {}
    ensures service.limiter.Valid() && (own.released <==> result.Failed?)
    ensures service.limiter.held
         == if result.Failed? then old(service.limiter.held) - {own} else old(service.limiter.held)
    ensures service.limiter.active
         == if result.Failed? then Returned(old(service.limiter.active), own.user) else old(service.limiter.active)
    ensures result.Answered? <==> service.Permits(world, request.user, request.fileId) && world.auditOk
    ensures result.Answered? ==> result.value.body.slot == own && !result.value.body.once
  {
    result := service.Proceed(request.user, request.instance.value, request.fileId, world, Rivals([], _ => []), own);
  }

  /** A download that streams or has ended is ended by a fault or a close, and otherwise stays as it is. */
  lemma {:induction false} EndEffect(s: System, d: nat, e: Event, ends: bool)
    requires d in s.transfers && (s.transfers[d].phase.Streaming? || s.transfers[d].phase.Ended?)
    requires (e == Read(d, ends)) || (e == Close(d) && ends)
    ensures var next := Advance(s, e);
            && next.limit == s.limit && d in next.transfers && next.transfers == s.transfers[d := next.transfers[d]]
            && next.transfers[d].user == s.transfers[d].user
            && (next.transfers[d].phase.Ended? <==> ends || s.transfers[d].phase.Ended?)
            && (next.transfers[d].phase.Streaming? <==> !next.transfers[d].phase.Ended?)
            && next.active == (if ends && s.transfers[d].phase.Streaming? then Returned(s.active, s.transfers[d].user)
                               else s.active)
  {
  }

  /** What a read does to the slot of its body. */
  method ReadSlot(reader: ReleaseReader, n: nat, ghost slots: map<nat, Slot>, ghost d: nat)
    returns (bytes: seq<Byte>, fault: Option<Fault>)
    requires reader.Valid() && Readable(reader.body)
    requires forall e :: e in slots && e != d ==> slots[e] != reader.slot
    modifies reader, reader.slot, reader.slot.limiter, Parts(reader.body)
    ensures Readable(reader.body) && reader.slot.limiter.Valid()
    ensures reader.once == reader.slot.released == (old(reader.once) || fault.Some?)
    ensures reader.slot.limiter.held
         == if fault.Some? then old(reader.slot.limiter.held) - {reader.slot} else old(reader.slot.limiter.held)
    ensures reader.slot.limiter.active
         == if old(reader.once) || fault.None? then old(reader.slot.limiter.active)
            else Returned(old(reader.slot.limiter.active), reader.slot.user)
    ensures ReleasedAsBefore(slots, d, old(ReleasedSlots(slots)))
  {
    bytes, fault := reader.Read(n);
  }

  method CloseSlot(reader: ReleaseReader)
    requires reader.Valid()
    modifies reader, reader.slot, reader.slot.limiter, SourceOf(reader.body)`closed
    ensures reader.slot.limiter.Valid() && reader.once && reader.slot.released && SourceOf(reader.body).closed
    ensures reader.slot.limiter.held == old(reader.slot.limiter.held) - {reader.slot}
    ensures reader.slot.limiter.active
         == if old(reader.once) then old(reader.slot.limiter.active)
            else Returned(old(reader.slot.limiter.active), reader.slot.user)
  {
    reader.Close();
  }

  /** A read of a body, also of one that has ended; a fault ends the download. */
  method ReadBody(
    limiter: DownloadLimiter, reader: ReleaseReader, n: nat, ghost slots: map<nat, Slot>, ghost s: System, ghost d: nat)
    returns (bytes: seq<Byte>, fault: Option<Fault>, ghost s': System)
    requires Linked(limiter, slots, s) && Attached(slots, s, d, reader) && Readable(reader.body)
    modifies reader, reader.slot, limiter, Parts(reader.body)
    ensures s' == Advance(s, Read(d, fault.Some?)) && Linked(limiter, slots, s')
    ensures Attached(slots, s', d, reader) && Readable(reader.body)
  {
    Snapshot(limiter, slots, s, d);
    ghost var held, released := limiter.held, ReleasedSlots(slots);
    bytes, fault := ReadSlot(reader, n, slots, d);
    s' := Advance(s, Read(d, fault.Some?));
    EndEffect(s, d, Read(d, fault.Some?), fault.Some?);
    LinkBack(limiter, slots, s, s', d, held, released);
  }

  /** A close of a body, the first or any later one. */
  method CloseBody(
    limiter: DownloadLimiter, reader: ReleaseReader, ghost slots: map<nat, Slot>, ghost s: System, ghost d: nat)
    returns (ghost s': System)
    requires Linked(limiter, slots, s) && Attached(slots, s, d, reader)
    modifies reader, reader.slot, limiter, SourceOf(reader.body)`closed
    ensures s' == Advance(s, Close(d)) && Linked(limiter, slots, s')
    ensures Attached(slots, s', d, reader) && SourceOf(reader.body).closed
  {
    Snapshot(limiter, slots, s, d);
    ghost var held, released := limiter.held, ReleasedSlots(slots);
    CloseSlot(reader);
    s' := Advance(s, Close(d));
    EndEffect(s, d, Close(d), true);
    LinkBack(limiter, slots, s, s', d, held, released);
  }
}
