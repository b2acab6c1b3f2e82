/**
 * Downloading one attachment: the per-user slot, the checks and audit records on the way to the body,
 * and the release of the slot when the stream ends, fails or is closed.
 */
module Downloads {
  import opened Domain
  import opened Streams
  import opened Approvals
  import opened Text

  /** One acquired slot, with the once-flag of its release function. */
  class Slot {
    const user: string
    const limiter: DownloadLimiter
    var released: bool

    constructor (user: string, limiter: DownloadLimiter)
      ensures this.user == user && this.limiter == limiter && !released
    {
      this.user, this.limiter, released := user, limiter, false;
    }
  }

  ghost function Of(held: set<Slot>, user: string): set<Slot> {
    set slot | slot in held && slot.user == user
  }

  lemma {:induction false} OfAdd(held: set<Slot>, slot: Slot)
    requires slot !in held
    ensures |Of(held + {slot}, slot.user)| == |Of(held, slot.user)| + 1
    ensures forall other :: other != slot.user ==> Of(held + {slot}, other) == Of(held, other)
  {
    assert Of(held + {slot}, slot.user) == Of(held, slot.user) + {slot};
  }

  lemma {:induction false} OfRemove(held: set<Slot>, slot: Slot)
    requires slot in held
    ensures |Of(held - {slot}, slot.user)| == |Of(held, slot.user)| - 1
    ensures forall other :: other != slot.user ==> Of(held - {slot}, other) == Of(held, other)
  {
    assert slot in Of(held, slot.user);
    assert Of(held - {slot}, slot.user) == Of(held, slot.user) - {slot};
  }

  // The counters of active downloads; a user without downloads has none.

  function Active(active: map<string, nat>, user: string): nat {
    if user in active then active[user] else 0
  }

  function Acquired(active: map<string, nat>, user: string): map<string, nat> {
    active[user := Active(active, user) + 1]
  }

  function Returned(active: map<string, nat>, user: string): map<string, nat> {
    if Active(active, user) <= 1 then map other | other in active && other != user :: active[other]
    else active[user := active[user] - 1]
  }

  class DownloadLimiter {
    const limit: nat
    var active: map<string, nat>
    ghost var held: set<Slot>

    /** The counter of a user is the number of slots not yet released; there is no counter at zero. */
    ghost predicate Valid()
      reads this, held
    {
      && (forall slot :: slot in held ==> !slot.released && slot.limiter == this && slot.user in active)
      && (forall user :: user in active ==> active[user] == |Of(held, user)| && 0 < active[user] <= limit)
    }

    constructor (limit: nat)
      ensures Valid() && this.limit == limit && held == {} && active == map[]
    {
      this.limit, active, held := limit, map[], {};
    }

    method Acquire(user: string) returns (slot: Slot?)
      requires Valid()
      modifies this
      ensures Valid()
      ensures slot == null <==> limit <= |Of(old(held), user)|
      ensures slot == null <==> limit <= Active(old(active), user)
      ensures slot == null ==> held == old(held) && active == old(active)
      ensures slot != null ==> active == Acquired(old(active), user)
      ensures slot != null ==>
        fresh(slot) && slot.user == user && slot.limiter == this && held == old(held) + {slot}
    {
      var count := if user in active then active[user] else 0;
      CountOf(user);
      if limit <= count {
        return null;
      }
      slot := new Slot(user, this);
      OfAdd(held, slot);
      active := active[user := count + 1];
      held := held + {slot};
    }

    lemma {:induction false} CountOf(user: string)
      requires Valid()
      ensures (if user in active then active[user] else 0) == |Of(held, user)|
    {
      if user !in active {
        assert Of(held, user) == {};
      }
    }

    /** Only the first release of a slot counts. */
    method Release(slot: Slot)
      requires Valid() && slot.limiter == this && (slot.released || slot in held)
      modifies this, slot
      ensures Valid() && slot.released && held == old(held) - {slot}
      ensures active == if old(slot.released) then old(active) else Returned(old(active), slot.user)
    {
      if slot.released {
        return;
      }
      OfRemove(held, slot);
      slot.released := true;
      var count := active[slot.user] - 1;
      held := held - {slot};
      if count == 0 {
        active := map user | user in active && user != slot.user :: active[user];
        assert forall other :: other in held && other.user == slot.user ==> other in Of(held, slot.user);
      } else {
        active := active[slot.user := count];
      }
    }
  }

  /** One turn of another request: it acquires a slot, or ends and releases the k-th slot it knows. */
  datatype Turn = Takes(user: string) | Drops(k: nat)

  /** Other requests: the slots they hold or held, and their turns at each point where they can act. */
  datatype Rivals = Rivals(slots: seq<Slot>, turns: nat -> seq<Turn>)

  /** Nobody acts during a call. */
  predicate Quiet(rivals: Rivals) {
    rivals.turns(0) == rivals.turns(1) == []
  }

  /** These are slots of the limiter, held or already released, and not this one. */
  ghost predicate Foreign(slots: seq<Slot>, limiter: DownloadLimiter, own: Slot?)
    reads limiter, set slot | slot in slots
  {
    forall slot :: slot in slots ==> slot != own && slot.limiter == limiter && (slot.released || slot in limiter.held)
  }

  /** Other requests take their turns; what they know of slots grows by the ones they acquire. */
  method Interfere(limiter: DownloadLimiter, ghost own: Slot?, slots: seq<Slot>, turns: seq<Turn>)
    returns (slots': seq<Slot>)
    requires limiter.Valid() && Foreign(slots, limiter, own)
    modifies limiter, set slot | slot in slots
    ensures limiter.Valid() && Foreign(slots', limiter, own)
    ensures own != null ==> (own in limiter.held <==> own in old(limiter.held))
    ensures forall slot :: slot in slots' ==> slot in slots || fresh(slot)
    ensures forall slot :: slot in limiter.held && slot !in old(limiter.held) ==> fresh(slot)
    ensures turns == [] ==> limiter.held == old(limiter.held) && limiter.active == old(limiter.active)
  {
    slots' := slots;
    for turn := 0 to |turns|
      invariant limiter.Valid() && Foreign(slots', limiter, own)
      invariant own != null ==> (own in limiter.held <==> own in old(limiter.held))
      invariant forall slot :: slot in slots' ==> slot in slots || fresh(slot)
      invariant forall slot :: slot in limiter.held && slot !in old(limiter.held) ==> fresh(slot)
      invariant turn == 0 ==> limiter.held == old(limiter.held) && limiter.active == old(limiter.active)
    {
      match turns[turn]
      case Takes(user) =>
        var slot := limiter.Acquire(user);
        if slot != null {
          slots' := slots' + [slot];
        }
      case Drops(k) =>
        if k < |slots'| {
          limiter.Release(slots'[k]);
        }
    }
  }

  class ReleaseReader {
    const body: Body
    const slot: Slot
    var once: bool

    ghost predicate Valid()
      reads this, slot, slot.limiter, slot.limiter.held
    {
      slot.limiter.Valid() && (once <==> slot.released) && (!once ==> slot in slot.limiter.held)
    }

    constructor (body: Body, slot: Slot)
      requires slot.limiter.Valid() && !slot.released && slot in slot.limiter.held
      ensures Valid() && this.body == body && this.slot == slot && !once
    {
      this.body, this.slot, once := body, slot, false;
    }

    method ReleaseOnce()
      requires Valid()
      modifies this, slot, slot.limiter
      ensures Valid() && once && slot.limiter.held == old(slot.limiter.held) - {slot}
      ensures slot.limiter.active == if old(once) then old(slot.limiter.active)
                                     else Returned(old(slot.limiter.active), slot.user)
    {
      if !once {
        once := true;
        slot.limiter.Release(slot);
      }
    }

    /**
     * Any fault releases the slot, the first time; this needs nothing of the stream. Up to the first fault the
     * bytes are what the stream promises.
     */
    method Read(n: nat) returns (bytes: seq<Byte>, fault: Option<Fault>)
      requires Valid() && Readable(body)
      modifies this, slot, slot.limiter, Parts(body)
      ensures Valid() && Readable(body)
      ensures once == (old(once) || fault.Some?)
      ensures slot.limiter.held == if fault.Some? then old(slot.limiter.held) - {slot} else old(slot.limiter.held)
      ensures slot.limiter.active == if old(once) || fault.None? then old(slot.limiter.active)
                                     else Returned(old(slot.limiter.active), slot.user)
      ensures HandsOver(body, n, old(Delivered(body)), old(Consumed(SourceOf(body))), bytes, fault)
      ensures old(Open(body)) ==> EndsRight(body, fault)
    {
      ghost var open, before, consumed := Open(body), Delivered(body), Consumed(SourceOf(body));
      bytes, fault := ReadUpstream(n);
      ReleaseAfter(n, open, before, consumed, bytes, fault);
    }

    /** The stream's side of a read: the slot is not touched. */
    method ReadUpstream(n: nat) returns (bytes: seq<Byte>, fault: Option<Fault>)
      requires Valid() && Readable(body)
      modifies Parts(body)
      ensures Valid() && Readable(body) && (old(Open(body)) ==> EndsRight(body, fault))
      ensures HandsOver(body, n, old(Delivered(body)), old(Consumed(SourceOf(body))), bytes, fault)
    {
      bytes, fault := ReadBody(body, n);
    }

    /** The slot's side: the stream is not touched. */
    method ReleaseAfter(
      ghost n: nat, ghost open: bool, ghost before: seq<Byte>, ghost consumed: nat, ghost bytes: seq<Byte>,
      fault: Option<Fault>)
      requires Valid() && Readable(body) && HandsOver(body, n, before, consumed, bytes, fault)
      requires open ==> EndsRight(body, fault)
      modifies this, slot, slot.limiter
      ensures Valid() && Readable(body) && HandsOver(body, n, before, consumed, bytes, fault)
      ensures open ==> EndsRight(body, fault)
      ensures once == (old(once) || fault.Some?)
      ensures slot.limiter.held == if fault.Some? then old(slot.limiter.held) - {slot} else old(slot.limiter.held)
      ensures slot.limiter.active == if old(once) || fault.None? then old(slot.limiter.active)
                                     else Returned(old(slot.limiter.active), slot.user)
    {
      if fault.Some? {
        ReleaseOnce();
      }
    }

    method Close()
      requires Valid()
      modifies this, slot, slot.limiter, SourceOf(body)`closed
      ensures Valid() && once && SourceOf(body).closed
      ensures slot.limiter.held == old(slot.limiter.held) - {slot}
      ensures slot.limiter.active == if old(once) then old(slot.limiter.active)
                                     else Returned(old(slot.limiter.active), slot.user)
    {
      CloseBody(body);
      ReleaseOnce();
    }

    /** One read of an open body, after other requests had their turns. */
    method ReadAmong(n: nat, slots: seq<Slot>, turns: seq<Turn>)
      returns (bytes: seq<Byte>, fault: Option<Fault>, slots': seq<Slot>)
      requires Valid() && !once && Open(body) && Foreign(slots, slot.limiter, slot)
      modifies this, slot, slot.limiter, Parts(body), set other | other in slots
      ensures Valid() && Readable(body) && (once <==> fault.Some?)
      ensures HandsOver(body, n, old(Delivered(body)), old(Consumed(SourceOf(body))), bytes, fault)
      ensures EndsRight(body, fault)
      ensures Foreign(slots', slot.limiter, slot)
      ensures forall other :: other in slots' ==> other in slots || fresh(other)
    {
      slots' := Meanwhile(slots, turns);
      bytes, fault := ReadAside(n, slots');
    }

    /** A read of an open body, which leaves the slots of other requests alone. */
    method ReadAside(n: nat, ghost slots: seq<Slot>) returns (bytes: seq<Byte>, fault: Option<Fault>)
      requires Valid() && !once && Open(body) && Foreign(slots, slot.limiter, slot)
      modifies this, slot, slot.limiter, Parts(body)
      ensures Valid() && Readable(body) && (once <==> fault.Some?) && Foreign(slots, slot.limiter, slot)
      ensures HandsOver(body, n, old(Delivered(body)), old(Consumed(SourceOf(body))), bytes, fault)
      ensures EndsRight(body, fault)
    {
      bytes, fault := ReadOpen(n);
    }

    /** A read of an open body. */
    method ReadOpen(n: nat) returns (bytes: seq<Byte>, fault: Option<Fault>)
      requires Valid() && !once && Open(body)
      modifies this, slot, slot.limiter, Parts(body)
      ensures Valid() && Readable(body) && (once <==> fault.Some?)
      ensures slot.limiter.held == if fault.Some? then old(slot.limiter.held) - {slot} else old(slot.limiter.held)
      ensures HandsOver(body, n, old(Delivered(body)), old(Consumed(SourceOf(body))), bytes, fault)
      ensures EndsRight(body, fault)
    {
      bytes, fault := Read(n);
    }

    /** Other requests have their turns; neither the slot nor the stream of this one changes. */
    method Meanwhile(slots: seq<Slot>, turns: seq<Turn>) returns (slots': seq<Slot>)
      requires Valid() && !once && Open(body) && Foreign(slots, slot.limiter, slot)
      modifies slot.limiter, set other | other in slots
      ensures Valid() && !once && Open(body) && Foreign(slots', slot.limiter, slot)
      ensures Delivered(body) == old(Delivered(body)) && Consumed(SourceOf(body)) == old(Consumed(SourceOf(body)))
      ensures forall other :: other in slots' ==> other in slots || fresh(other)
    {
      slots' := Interfere(slot.limiter, slot, slots, turns);
    }

    /** The end of a stream: other requests have their turns, then the body is closed. */
    method CloseAmong(slots: seq<Slot>, turns: seq<Turn>)
      requires Valid() && Foreign(slots, slot.limiter, slot)
      modifies this, slot, slot.limiter, SourceOf(body)`closed, set other | other in slots
      ensures Valid() && slot.released && slot !in slot.limiter.held && SourceOf(body).closed
      ensures SourceOf(body).given == old(SourceOf(body).given) && SourceOf(body).last == old(SourceOf(body).last)
    {
      var _ := Interfere(slot.limiter, slot, slots, turns);
      Close();
    }

    /** One turn of a copy: a read, and what the consumer then has. */
    method CopyOnce(n: nat, slots: seq<Slot>, turns: seq<Turn>, output: seq<Byte>)
      returns (output': seq<Byte>, fault: Option<Fault>, slots': seq<Slot>)
      requires Valid() && !once && Copied(body, output, None) && Foreign(slots, slot.limiter, slot)
      modifies this, slot, slot.limiter, Parts(body), set other | other in slots
      ensures Valid() && Readable(body) && (once <==> fault.Some?) && Copied(body, output', fault)
      ensures fault.Some? || n == 0
              || (TerminalOf(body) in {None, Some(Eof)} && old(Consumed(SourceOf(body))) < Consumed(SourceOf(body)))
      ensures Foreign(slots', slot.limiter, slot)
      ensures forall other :: other in slots' ==> other in slots || fresh(other)
    {
      var bytes;
      bytes, fault, slots' := ReadAmong(n, slots, turns);
      output' := output + bytes;
    }

    /** Copy until the first fault. */
    method Copy(sizes: nat -> nat, rounds: nat, rivals: Rivals)
      returns (output: seq<Byte>, fault: Option<Fault>, slots: seq<Slot>)
      requires Valid() && !once && Open(body) && Delivered(body) == []
      requires Foreign(rivals.slots, slot.limiter, slot)
      modifies this, slot, slot.limiter, Parts(body), set other | other in rivals.slots
      ensures Valid() && Readable(body) && Copied(body, output, fault) && Foreign(slots, slot.limiter, slot)
      ensures forall other :: other in slots ==> other in rivals.slots || fresh(other)
      ensures (forall k: nat :: 0 < sizes(k)) ==> fault.Some? || Goes(body, rounds)
    {
      output, fault, slots := [], None, rivals.slots;
      var round := 0;
      while round < rounds && fault.None?
        invariant round <= rounds && Valid() && Readable(body) && Copied(body, output, fault) && (once <==> fault.Some?)
        invariant Foreign(slots, slot.limiter, slot)
        invariant forall other :: other in slots ==> other in rivals.slots || fresh(other)
        invariant (forall k: nat :: 0 < sizes(k)) ==> fault.Some? || Goes(body, round)
        decreases rounds - round
      {
        output, fault, slots := CopyOnce(sizes(round), slots, rivals.turns(round), output);
        round := round + 1;
      }
    }

    /**
     * The handler: copy until the first fault, then close, while other requests come and go between any two
     * steps. Whatever happens, the slot is released and the upstream body is closed. With enough buffers the
     * client has exactly the upstream's bytes and a clean end when the upstream's chunks end cleanly, and a fault
     * when they do not.
     */
    method Serve(sizes: nat -> nat, rounds: nat, rivals: Rivals) returns (output: seq<Byte>, fault: Option<Fault>)
      requires Valid() && !once && Open(body) && Delivered(body) == []
      requires Foreign(rivals.slots, slot.limiter, slot)
      modifies this, slot, slot.limiter, Parts(body), set other | other in rivals.slots
      ensures Valid() && slot.released && slot !in slot.limiter.held
      ensures SourceOf(body).closed
      ensures output <= SourceOf(body).given && |output| <= LimitOf(body)
      ensures fault.Some? ==> (fault == Some(Eof) <==> CleanEnd(body))
      ensures fault == Some(Eof) ==> EndedWith(SourceOf(body), output)
      ensures forall n: nat :: FirstFault(SourceOf(body).plan, n) && Enough(body, n, sizes, rounds) ==>
                Complete(body, output, fault, n)
    {
      var slots;
      output, fault, slots := Copy(sizes, rounds, rivals);
      forall n: nat | FirstFault(SourceOf(body).plan, n) && Enough(body, n, sizes, rounds)
        ensures Complete(body, output, fault, n)
      {
        CopiedAll(body, output, fault, n, sizes, rounds, rounds);
      }
      CloseAmong(slots, rivals.turns(rounds));
    }
  }

  // The service.

  /** What the downloader opened; a negative content length is unknown. */
  datatype OpenedBody = OpenedBody(reader: LimitedReader, contentLength: int)

  /** What the outside world answers to one download call, and whether its audit record can be written. */
  datatype Answers = Answers(approval: Answer<Approval>, url: Answer<string>, body: Answer<OpenedBody>, auditOk: bool)

  datatype Delivery = Delivery(body: ReleaseReader, attachment: Attachment, contentLength: int)

  datatype Decision = Allowed | Denied(cause: Error)

  datatype Audit = Audit(user: string, instance: string, fileId: string, decision: Decision)

  /** The size known from the approval contradicts the download limit or the announced length. */
  predicate SizeFits(attachment: Attachment, received: OpenedBody) {
    0 < attachment.size ==>
      && (0 < received.reader.maxBytes ==> attachment.size <= received.reader.maxBytes)
      && (0 <= received.contentLength ==> received.contentLength == attachment.size)
  }

  /** Who asks for what; `instance` is the normal form of the instance ID, if it is valid. */
  datatype Request = Request(corp: string, user: string, instance: Option<string>, requestId: string, fileId: string)

  class Service {
    const limiter: DownloadLimiter
    const administrators: set<string>
    var audit: seq<Audit>

    constructor (limiter: DownloadLimiter, administrators: set<string>)
      ensures this.limiter == limiter && this.administrators == administrators && audit == []
    {
      this.limiter, this.administrators, audit := limiter, administrators, [];
    }

    /** Every step up to the opened body succeeds for this user and file. */
    predicate Reaches(world: Answers, user: string, fileId: string) {
      && world.approval.Answered? && world.approval.value.CanAccess(user, administrators)
      && world.approval.value.FindAttachment(fileId).Some?
      && world.url.Answered? && world.body.Answered?
    }

    predicate Permits(world: Answers, user: string, fileId: string) {
      && Reaches(world, user, fileId)
      && SizeFits(world.approval.value.FindAttachment(fileId).value, world.body.value)
    }

    method Record(entry: Audit, auditOk: bool) returns (failure: Option<Error>)
      modifies this
      ensures audit == if auditOk then old(audit) + [entry] else old(audit)
      ensures failure == if !auditOk then Some(Unavailable)
                         else if entry.decision.Denied? then Some(entry.decision.cause) else None
    {
      if auditOk {
        audit := audit + [entry];
      }
      failure := if !auditOk then Some(Unavailable)
                 else if entry.decision.Denied? then Some(entry.decision.cause) else None;
    }

    /** The first check that fails after the slot was acquired. */
    function Obstacle(world: Answers, user: string, fileId: string): (cause: Option<Error>)
      ensures cause.None? <==> Permits(world, user, fileId)
    {
      if world.approval.Failed? then Some(world.approval.error)
      else if !world.approval.value.CanAccess(user, administrators) then Some(Forbidden)
      else if world.approval.value.FindAttachment(fileId).None? then Some(NotFound)
      else if world.url.Failed? then Some(world.url.error)
      else if world.body.Failed? then Some(world.body.error)
      else
        var attachment := world.approval.value.FindAttachment(fileId).value;
        var received := world.body.value;
        if 0 < attachment.size && 0 < received.reader.maxBytes && received.reader.maxBytes < attachment.size
        then Some(TooLarge)
        else if 0 < attachment.size && 0 <= received.contentLength && received.contentLength != attachment.size
        then Some(Upstream)
        else None
    }

    /** The first attachment with this identifier, which is not empty. */
    predicate Names(approval: Approval, i: nat, fileId: string) {
      && fileId != "" && i < |approval.attachments| && approval.attachments[i].fileId == fileId
      && forall j :: 0 <= j < i ==> approval.attachments[j].fileId != fileId
    }

    lemma {:induction false} NamedIsFound(approval: Approval, i: nat, fileId: string)
      requires Names(approval, i, fileId)
      ensures approval.FindAttachment(fileId) == Some(approval.attachments[i])
    {
      var found := approval.FindAttachment(fileId).value;
      var k :| 0 <= k < |approval.attachments| && approval.attachments[k] == found
               && forall j :: 0 <= j < k ==> approval.attachments[j].fileId != fileId;
    }

    /**
     * What a download needs once it has a slot: an approval that the user takes part in or administers, the
     * attachment in it, a link and a body, and no contradiction between the sizes that are known. Otherwise the
     * error names the first of these that is missing.
     */
    lemma {:induction false} PermitsIff(world: Answers, user: string, fileId: string)
      ensures Permits(world, user, fileId) <==>
        && world.approval.Answered? && user in Participants(world.approval.value) + administrators - {""}
        && world.url.Answered? && world.body.Answered?
        && exists i: nat | Names(world.approval.value, i, fileId) ::
             var size, limit, announced := world.approval.value.attachments[i].size,
                                           world.body.value.reader.maxBytes, world.body.value.contentLength;
             size <= 0 || ((limit == 0 || size <= limit) && (announced < 0 || announced == size))
      ensures world.approval.Answered? && user !in Participants(world.approval.value) + administrators - {""} ==>
        Obstacle(world, user, fileId) == Some(Forbidden)
      ensures world.approval.Answered? && user in Participants(world.approval.value) + administrators - {""}
              && (forall i: nat :: !Names(world.approval.value, i, fileId)) ==>
        Obstacle(world, user, fileId) == Some(NotFound)
      ensures world.approval.Failed? ==> Obstacle(world, user, fileId) == Some(world.approval.error)
    {
      if world.approval.Answered? {
        var approval := world.approval.value;
        WhoHasAccess(approval, administrators, user);
        var found := approval.FindAttachment(fileId);
        if found.Some? {
          var k :| 0 <= k < |approval.attachments| && approval.attachments[k] == found.value
                   && forall j :: 0 <= j < k ==> approval.attachments[j].fileId != fileId;
          assert Names(approval, k, fileId);
        }
        forall i: nat | Names(approval, i, fileId)
          ensures found == Some(approval.attachments[i])
        {
          NamedIsFound(approval, i, fileId);
        }
      }
    }

    /** What the opener must hand over: an unread body with a positive limit. */
    static ghost predicate Unread(world: Answers)
      reads if world.body.Answered? then {world.body.value.reader, world.body.value.reader.body} else {}
    {
      world.body.Answered? ==>
        world.body.value.reader.Valid() && world.body.value.reader.delivered == []
        && world.body.value.reader.terminal == None && 0 < world.body.value.reader.maxBytes
    }

    /** The delivery wraps the opened body, sized when the approval knows a size, and owns the slot. */
    ghost predicate Delivers(delivery: Delivery, world: Answers, fileId: string, own: Slot)
      reads delivery.body, delivery.body.slot, delivery.body.slot.limiter, delivery.body.slot.limiter.held
      reads own, own.limiter, own.limiter.held, Parts(delivery.body.body)
      requires world.approval.Answered? && world.approval.value.FindAttachment(fileId).Some? && world.body.Answered?
    {
      && delivery.body.Valid() && delivery.body.slot == own && !own.released && own in own.limiter.held
      && Open(delivery.body.body) && Delivered(delivery.body.body) == []
      && SourceOf(delivery.body.body) == world.body.value.reader.body
      && delivery.attachment == world.approval.value.FindAttachment(fileId).value
      && (delivery.body.body.Sized? <==> 0 < delivery.attachment.size)
      && (delivery.body.body.Sized? ==>
            LimitOf(delivery.body.body) == delivery.attachment.size == delivery.contentLength)
    }

    method Wrap(world: Answers, fileId: string, own: Slot) returns (delivery: Delivery)
      requires world.approval.Answered? && world.approval.value.FindAttachment(fileId).Some? && world.body.Answered?
      requires SizeFits(world.approval.value.FindAttachment(fileId).value, world.body.value)
      requires Unread(world) && own.limiter.Valid() && !own.released && own in own.limiter.held
      ensures Delivers(delivery, world, fileId, own)
      ensures fresh(delivery.body) && fresh(Parts(delivery.body.body) - {world.body.value.reader, world.body.value.reader.body})
    {
      var attachment := world.approval.value.FindAttachment(fileId).value;
      var body := Capped(world.body.value.reader);
      var contentLength := world.body.value.contentLength;
      if 0 < attachment.size {
        var sized := new ExpectedSizeReader(world.body.value.reader, attachment.size);
        body, contentLength := Sized(sized), attachment.size;
      }
      var reader := new ReleaseReader(body, own);
      delivery := Delivery(reader, attachment, contentLength);
    }

    /** Refuse after the slot was acquired: close what was opened, record, release. */
    method Refuse(user: string, instance: string, fileId: string, world: Answers, own: Slot, decision: Decision)
      returns (error: Error)
      requires limiter.Valid() && own.limiter == limiter && own in limiter.held
      requires decision.Denied? || !world.auditOk
      modifies this, limiter, own
      modifies if world.body.Answered? then {world.body.value.reader.body} else {}
      ensures limiter.Valid() && own.released && limiter.held == old(limiter.held) - {own}
      ensures limiter.active == Returned(old(limiter.active), own.user)
      ensures Reaches(world, user, fileId) ==> world.body.value.reader.body.closed
      ensures audit == if world.auditOk then old(audit) + [Audit(user, instance, fileId, decision)] else old(audit)
      ensures error == if world.auditOk then decision.cause else Unavailable
    {
      if Reaches(world, user, fileId) {
        world.body.value.reader.Close();
      }
      var failure := Record(Audit(user, instance, fileId, decision), world.auditOk);
      limiter.Release(own);
      error := failure.value;
    }

    /** Why a request is turned away before anything is acquired or recorded. */
    function Inadmissible(request: Request): (error: Option<Error>)
      ensures error.None? <==>
        && Trim(request.corp) != "" && Trim(request.user) != "" && request.instance.Some?
        && Trim(request.requestId) != "" && Trim(request.fileId) != ""
      ensures error.Some? ==>
        (error.value == Unauthorized <==> Trim(request.corp) == "" || Trim(request.user) == "")
    {
      if Trim(request.corp) == "" || Trim(request.user) == "" then Some(Unauthorized)
      else if request.instance.None? then Some(InvalidInput)
      else if Trim(request.requestId) == "" then Some(InvalidInput)
      else if Trim(request.fileId) == "" then Some(InvalidInput)
      else None
    }

    /**
     * A download succeeds exactly when its request is admissible, a slot was free, every check passed and the
     * allowed record was written; then the slot belongs to the returned body. In every other case the slot is
     * released before the call returns, and a body that was opened is closed.
     */
    method Download(request: Request, world: Answers, rivals: Rivals)
      returns (result: Answer<Delivery>, ghost slot: Slot?)
      requires limiter.Valid() && Unread(world) && Foreign(rivals.slots, limiter, null)
      modifies this, limiter, set other | other in rivals.slots
      modifies if world.body.Answered? then {world.body.value.reader.body} else {}
      ensures limiter.Valid()
      ensures Inadmissible(request).Some? ==> slot == null && result == Failed(Inadmissible(request).value)
      ensures Inadmissible(request).None? ==> (slot == null <==> limiter.limit <= |Of(old(limiter.held), request.user)|)
      ensures slot != null ==> slot.user == request.user && slot.limiter == limiter
      ensures result.Answered? <==> slot != null && Permits(world, request.user, request.fileId) && world.auditOk
      ensures result.Answered? ==> Delivers(result.value, world, request.fileId, slot)
      ensures result.Failed? && slot != null ==> slot.released && slot !in limiter.held
      ensures result.Failed? && slot != null && Reaches(world, request.user, request.fileId) ==>
                world.body.value.reader.body.closed
      ensures audit == if Inadmissible(request).Some? || !world.auditOk then old(audit)
                       else old(audit) + [Audit(request.user, request.instance.value, request.fileId,
                         if slot == null then Denied(RateLimited)
                         else if Obstacle(world, request.user, request.fileId).Some?
                         then Denied(Obstacle(world, request.user, request.fileId).value)
                         else Allowed)]
    {
      slot := null;
      var refusal := Inadmissible(request);
      if refusal.Some? {
        return Failed(refusal.value), null;
      }
      var user, instance, fileId := request.user, request.instance.value, request.fileId;
      var own := limiter.Acquire(user);
      slot := own;
      if own == null {
        var denied := Record(Audit(user, instance, fileId, Denied(RateLimited)), world.auditOk);
        return Failed(denied.value), slot;
      }
      result := Proceed(user, instance, fileId, world, rivals, own);
    }

    /** The rest of a download, holding a slot, with other requests before and after its record is written. */
    method Proceed(user: string, instance: string, fileId: string, world: Answers, rivals: Rivals, own: Slot)
      returns (result: Answer<Delivery>)
      requires limiter.Valid() && Unread(world) && Foreign(rivals.slots, limiter, own)
      requires own.limiter == limiter && own in limiter.held
      modifies this, limiter, own, set other | other in rivals.slots
      modifies if world.body.Answered? then {world.body.value.reader.body} else {}
      ensures limiter.Valid()
      ensures result.Answered? <==> Permits(world, user, fileId) && world.auditOk
      ensures result.Answered? ==> Delivers(result.value, world, fileId, own) && fresh(result.value.body)
      ensures result.Failed? ==> own.released && own !in limiter.held
      ensures Quiet(rivals) ==>
        && limiter.held == (if result.Failed? then old(limiter.held) - {own} else old(limiter.held))
        && limiter.active == (if result.Failed? then Returned(old(limiter.active), own.user) else old(limiter.active))
      ensures result.Failed? && Reaches(world, user, fileId) ==> world.body.value.reader.body.closed
      ensures audit == if !world.auditOk then old(audit)
                       else old(audit) + [Audit(user, instance, fileId,
                         if Obstacle(world, user, fileId).Some? then Denied(Obstacle(world, user, fileId).value)
                         else Allowed)]
    {
      var slots := Interfere(limiter, own, rivals.slots, rivals.turns(0));
      var cause := Obstacle(world, user, fileId);
      if cause.Some? || !world.auditOk {
        var error := Refuse(user, instance, fileId, world, own,
                            if cause.Some? then Denied(cause.value) else Allowed);
        result := Failed(error);
      } else {
        var _ := Record(Audit(user, instance, fileId, Allowed), world.auditOk);
        var delivery := WrapAmong(world, fileId, own, slots, rivals.turns(1));
        result := Answered(delivery);
      }
    }

    method WrapAmong(world: Answers, fileId: string, own: Slot, slots: seq<Slot>, turns: seq<Turn>)
      returns (delivery: Delivery)
      requires world.approval.Answered? && world.approval.value.FindAttachment(fileId).Some? && world.body.Answered?
      requires SizeFits(world.approval.value.FindAttachment(fileId).value, world.body.value)
      requires Unread(world) && limiter.Valid() && own.limiter == limiter && own in limiter.held
      requires Foreign(slots, limiter, own)
      modifies limiter, set other | other in slots
      ensures limiter.Valid() && Delivers(delivery, world, fileId, own)
      ensures turns == [] ==> limiter.held == old(limiter.held) && limiter.active == old(limiter.active)
      ensures fresh(delivery.body)
    {
      var _ := Interfere(limiter, own, slots, turns);
      delivery := Wrap(world, fileId, own);
    }
  }
}
