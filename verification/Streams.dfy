/**
 * The readers a downloaded attachment flows through.
 *
 * `Source` is the upstream body: an arbitrary reader, given by what each of its reads would return.
 * `LimitedReader` caps it, `ExpectedSizeReader` checks the size promised by the approval. A reader
 * returns bytes and an optional fault together, as Go readers do.
 */
module Streams {
  import opened Domain

  datatype Fault = Eof | UnexpectedEof | NoProgress | OverLimit | OverSize | Broken(code: nat)

  /** A piece of the upstream: some bytes, possibly none, and then possibly a fault. */
  datatype Chunk = Chunk(bytes: seq<Byte>, fault: Option<Fault>)

  function At(plan: nat -> Chunk, k: nat): Chunk { plan(k) }

  /** The bytes of the first `n` chunks. */
  function Joined(plan: nat -> Chunk, n: nat): seq<Byte> {
    if n == 0 then [] else Joined(plan, n - 1) + At(plan, n - 1).bytes
  }

  lemma {:induction false} JoinedGrows(plan: nat -> Chunk, m: nat, n: nat)
    requires m <= n
    ensures Joined(plan, m) <= Joined(plan, n)
  {
    if m < n {
      JoinedGrows(plan, m, n - 1);
    }
  }

  /** How far a source has been read: whole chunks and a part of the next, all bytes given, and the last fault. */
  datatype Place = Place(calls: nat, offset: nat, given: seq<Byte>, last: Option<Fault>)

  predicate Reading(plan: nat -> Chunk, at: Place) {
    && (at.offset == 0 || at.offset < |At(plan, at.calls).bytes|)
    && at.given == Joined(plan, at.calls) + At(plan, at.calls).bytes[..at.offset]
  }

  /** The rest of the current chunk. */
  function Rest(plan: nat -> Chunk, at: Place): seq<Byte>
    requires Reading(plan, at)
  {
    At(plan, at.calls).bytes[at.offset..]
  }

  /** What a read into a buffer of this size gives. */
  function Piece(plan: nat -> Chunk, at: Place, size: nat): Chunk
    requires Reading(plan, at)
  {
    if |Rest(plan, at)| <= size then Chunk(Rest(plan, at), At(plan, at.calls).fault)
    else Chunk(Rest(plan, at)[..size], None)
  }

  function Next(plan: nat -> Chunk, at: Place, size: nat): Place
    requires Reading(plan, at)
  {
    var piece := Piece(plan, at, size);
    if |Rest(plan, at)| <= size then Place(at.calls + 1, 0, at.given + piece.bytes, piece.fault)
    else Place(at.calls, at.offset + size, at.given + piece.bytes, piece.fault)
  }

  lemma {:induction false} NextReading(plan: nat -> Chunk, at: Place, size: nat)
    requires Reading(plan, at)
    ensures Reading(plan, Next(plan, at, size))
  {
    var bytes := At(plan, at.calls).bytes;
    if |Rest(plan, at)| <= size {
      assert bytes[..at.offset] + bytes[at.offset..] == bytes;
    } else {
      assert bytes[..at.offset] + bytes[at.offset..][..size] == bytes[..at.offset + size];
    }
  }

  /**
   * The upstream body, given by its chunks. A read returns the next chunk with its fault or, when the buffer is
   * smaller, as much of it as fits; no byte is lost.
   */
  class Source {
    const plan: nat -> Chunk
    var calls: nat
    var offset: nat
    var closed: bool
    ghost var given: seq<Byte>
    ghost var last: Option<Fault>

    ghost function Reached(): Place
      reads this`calls, this`offset, this`given, this`last
    {
      Place(calls, offset, given, last)
    }

    ghost predicate Valid()
      reads this`calls, this`offset, this`given, this`last
    {
      Reading(plan, Reached())
    }

    constructor (plan: nat -> Chunk)
      ensures Valid() && this.plan == plan && Reached() == Place(0, 0, [], None) && !closed
    {
      this.plan, calls, offset, closed, given, last := plan, 0, 0, false, [], None;
    }

    method Read(size: nat) returns (bytes: seq<Byte>, fault: Option<Fault>)
      requires Valid()
      modifies this`calls, this`offset, this`given, this`last
      ensures Valid() && Reached() == Next(plan, old(Reached()), size)
      ensures Chunk(bytes, fault) == Piece(plan, old(Reached()), size)
    {
      NextReading(plan, Reached(), size);
      var chunk := At(plan, calls);
      var rest := chunk.bytes[offset..];
      if |rest| <= size {
        bytes, fault := rest, chunk.fault;
        calls, offset := calls + 1, 0;
      } else {
        bytes, fault := rest[..size], None;
        offset := offset + size;
      }
      given, last := given + bytes, fault;
    }

    method Close()
      modifies this`closed
      ensures closed
    {
      closed := true;
    }
  }

  // What the upstream's chunks come to.

  /** The chunk has no fault, and the cap is not reached before it. */
  predicate FlowsPast(plan: nat -> Chunk, k: nat, cap: nat) {
    At(plan, k).fault.None? && |Joined(plan, k)| < cap
  }

  predicate Flows(plan: nat -> Chunk, n: nat, cap: nat) {
    forall k: nat :: k < n ==> FlowsPast(plan, k, cap)
  }

  predicate FirstFault(plan: nat -> Chunk, n: nat) {
    At(plan, n).fault.Some? && forall k :: 0 <= k < n ==> At(plan, k).fault.None?
  }

  /** The fault of a reader with this cap that stopped at this place is explained by what is there. */
  predicate Explained(plan: nat -> Chunk, at: Place, cap: nat, fault: Fault) {
    || (at.calls > 0 && At(plan, at.calls - 1).fault == Some(fault))
    || (fault == OverLimit && cap < |at.given|)
    || (fault == NoProgress && at.calls > 0 && At(plan, at.calls - 1) == Chunk([], None)
        && |Joined(plan, at.calls - 1)| == cap)
  }

  /** Everything before this place flowed, and a fault is explained. */
  predicate Placed(plan: nat -> Chunk, at: Place, cap: nat, terminal: Option<Fault>) {
    match terminal
    case None => Flows(plan, at.calls, cap)
    case Some(fault) =>
      && Flows(plan, if at.offset == 0 && at.calls > 0 then at.calls - 1 else at.calls, cap)
      && (fault == Eof ==> at.calls > 0 && at.offset == 0 && At(plan, at.calls - 1).fault == Some(Eof))
      && Explained(plan, at, cap, fault)
  }

  /** A capped reader at this place that has delivered these bytes: nothing is lost, and its end is the upstream's. */
  predicate Capping(plan: nat -> Chunk, at: Place, cap: nat, delivered: seq<Byte>, terminal: Option<Fault>) {
    && Reading(plan, at) && Placed(plan, at, cap, terminal) && |delivered| <= cap
    && match terminal
       case None => at.given == delivered && at.last != Some(Eof)
       case Some(fault) =>
         if fault == Eof then at.last == Some(Eof) && at.given == delivered
         else
           && delivered <= at.given && !(at.last == Some(Eof) && |at.given| <= cap)
           && (cap < |at.given| ==> fault == OverLimit)
  }

  /** One read below the cap. */
  lemma {:induction false} CappingOn(plan: nat -> Chunk, at: Place, cap: nat, delivered: seq<Byte>, size: nat)
    requires Capping(plan, at, cap, delivered, None) && 0 < size && |delivered| + size <= cap
    ensures var piece, next := Piece(plan, at, size), Next(plan, at, size);
            && Capping(plan, next, cap, delivered + piece.bytes, piece.fault)
            && at.calls + |at.given| < next.calls + |next.given|
  {
    NextReading(plan, at, size);
  }

  /** One byte asked for at the cap. */
  lemma {:induction false} CappingEnds(plan: nat -> Chunk, at: Place, cap: nat, delivered: seq<Byte>)
    requires Capping(plan, at, cap, delivered, None) && |delivered| == cap
    ensures var piece, next := Piece(plan, at, 1), Next(plan, at, 1);
            Capping(plan, next, cap, delivered,
                    if piece.bytes != [] then Some(OverLimit)
                    else if piece.fault.Some? then piece.fault else Some(NoProgress))
  {
    NextReading(plan, at, 1);
  }

  /**
   * The chunks end cleanly at the `n`-th for a reader with this cap and, if given, this size: with an end of file
   * after at most as many bytes as the cap, exactly the size, and no chunk to be read beyond a cap that is reached.
   */
  predicate CleanChunks(plan: nat -> Chunk, n: nat, cap: nat, size: Option<nat>) {
    && At(plan, n).fault == Some(Eof) && Flows(plan, n, cap)
    && |Joined(plan, n + 1)| <= cap && (size.Some? ==> |Joined(plan, n + 1)| == size.value)
  }

  /** The upstream ended cleanly after at most `limit` bytes. */
  ghost predicate EndedWithin(source: Source, limit: nat)
    reads source
  {
    source.last == Some(Eof) && |source.given| <= limit
  }

  /** The upstream ended cleanly and `bytes` is everything it gave. */
  ghost predicate EndedWith(source: Source, bytes: seq<Byte>)
    reads source
  {
    source.last == Some(Eof) && source.given == bytes
  }

  /** How far the upstream has been read, in chunks and bytes. */
  ghost function Consumed(source: Source): nat
    reads source
  {
    source.calls + |source.given|
  }

  class LimitedReader {
    const body: Source
    const maxBytes: nat
    var remaining: nat
    var terminal: Option<Fault>
    ghost var delivered: seq<Byte>

    ghost predicate Valid()
      reads this, body
    {
      && |delivered| + remaining == maxBytes
      && Capping(body.plan, body.Reached(), maxBytes, delivered, terminal)
      && (terminal.Some? ==> body.closed)
    }

    constructor (body: Source, maxBytes: nat)
      requires body.Reached() == Place(0, 0, [], None)
      ensures Valid() && this.body == body && this.maxBytes == maxBytes && delivered == [] && terminal == None
    {
      this.body, this.maxBytes, remaining, terminal, delivered := body, maxBytes, maxBytes, None, [];
    }

    /**
     * At most `size` further upstream bytes. An end of file is reported alone, after every byte, and only
     * if the upstream ended within the limit; any other fault means it did not. Every read goes on: it takes a byte
     * or a chunk from the upstream, or reports the fault that is there.
     */
    method Read(size: nat) returns (bytes: seq<Byte>, fault: Option<Fault>)
      requires Valid()
      modifies this, body
      ensures Valid()
      ensures |bytes| <= size && delivered == old(delivered) + bytes
      ensures fault == Some(Eof) ==> bytes == [] && EndedWith(body, delivered)
      ensures fault.Some? && fault != Some(Eof) ==> !EndedWithin(body, maxBytes)
      ensures fault.Some? ==> body.closed
      ensures fault.Some? && maxBytes < |body.given| ==> fault == Some(OverLimit)
      ensures old(terminal).Some? ==> fault == old(terminal) && bytes == []
      ensures terminal.None? ==> body.given == delivered
      ensures fault.Some? ==> terminal == fault && Explained(body.plan, body.Reached(), maxBytes, fault.value)
      ensures fault.None? ==> terminal in {None, Some(Eof)}
      ensures fault.Some? || size == 0 || old(Consumed(body)) < Consumed(body)
    {
      if terminal.Some? {
        return [], terminal;
      }
      if size == 0 {
        return [], None;
      }
      if remaining > 0 {
        bytes, fault := ReadWithin(size);
      } else {
        fault := Probe();
        bytes := [];
      }
    }

    /** Below the cap: the upstream's bytes, with an end of file kept back until they are delivered. */
    method ReadWithin(size: nat) returns (bytes: seq<Byte>, fault: Option<Fault>)
      requires Valid() && terminal.None? && 0 < size && 0 < remaining
      modifies this, body
      ensures Valid() && |bytes| <= size && delivered == old(delivered) + bytes
      ensures fault == Some(Eof) ==> bytes == []
      ensures if fault.Some? then terminal == fault else terminal in {None, Some(Eof)}
      ensures fault.Some? || old(Consumed(body)) < Consumed(body)
    {
      var room := if size > remaining then remaining else size;
      CappingOn(body.plan, body.Reached(), maxBytes, delivered, room);
      bytes, fault := body.Read(room);
      remaining := remaining - |bytes|;
      delivered := delivered + bytes;
      if |bytes| > 0 && fault == Some(Eof) {
        terminal := Some(Eof);
        body.Close();
        return bytes, None;
      }
      if fault.Some? {
        terminal := fault;
        body.Close();
      }
    }

    /** At the cap: one more byte is too many, and the upstream has to end now. */
    method Probe() returns (fault: Option<Fault>)
      requires Valid() && terminal.None? && remaining == 0
      modifies this, body
      ensures Valid() && delivered == old(delivered) && fault.Some? && terminal == fault
    {
      CappingEnds(body.plan, body.Reached(), maxBytes, delivered);
      var bytes;
      bytes, fault := body.Read(1);
      if |bytes| > 0 {
        terminal := Some(OverLimit);
      } else if fault.Some? {
        terminal := fault;
      } else {
        terminal := Some(NoProgress);
      }
      body.Close();
      fault := terminal;
    }

    method Close()
      modifies body`closed
      ensures body.closed
    {
      body.Close();
    }
  }

  class ExpectedSizeReader {
    const body: LimitedReader
    const size: nat
    var remaining: nat
    ghost var delivered: seq<Byte>

    /** What stays true also when a consumer goes on after a fault. */
    ghost predicate Sane()
      reads this, body, body.body
    {
      && body.Valid() && size <= body.maxBytes
      && |delivered| + remaining == size
      && delivered <= body.delivered
      && (remaining > 0 ==> delivered == body.delivered)
    }

    /** Nothing has been read beyond what was delivered. */
    ghost predicate Valid()
      reads this, body, body.body
    {
      Sane() && delivered == body.delivered
    }

    constructor (body: LimitedReader, size: nat)
      requires body.Valid() && body.delivered == [] && size <= body.maxBytes
      ensures Valid() && this.body == body && this.size == size && delivered == []
    {
      this.body, this.size, remaining, delivered := body, size, size, [];
    }

    /**
     * At most `n` further upstream bytes, never more than `size` in all. Up to the first fault, an end of file
     * is reported exactly when the upstream ended after `size` bytes, all of them delivered; every other end
     * is a fault.
     */
    method Read(n: nat) returns (bytes: seq<Byte>, fault: Option<Fault>)
      requires Sane()
      modifies this, body, body.body
      ensures Sane()
      ensures |bytes| <= n && delivered == old(delivered) + bytes
      ensures delivered <= body.body.given && |delivered| <= size
      ensures old(Valid()) && fault.None? ==> Valid()
      ensures old(Valid()) && fault == Some(Eof) ==> bytes == [] && |delivered| == size && EndedWith(body.body, delivered)
      ensures old(Valid()) && fault.Some? && fault != Some(Eof) ==>
        !(body.body.last == Some(Eof) && |body.body.given| == size)
      ensures fault.Some? || n == 0 || body.terminal in {None, Some(Eof)}
      ensures fault.Some? || n == 0 || old(Consumed(body.body)) < Consumed(body.body)
      ensures fault.Some? ==> Stopped(fault.value)
    {
      if n == 0 {
        return [], None;
      }
      if remaining > 0 {
        bytes, fault := ReadRest(n);
      } else {
        fault := ReadPast();
        bytes := [];
      }
    }

    /** Why a read ended with this fault: the capped reader's own, too few bytes, or too many. */
    ghost predicate Stopped(fault: Fault)
      reads this, body, body.body
    {
      || body.terminal == Some(fault)
      || (fault == UnexpectedEof && body.terminal == Some(Eof) && |delivered| < size)
      || (fault == OverSize && size < |body.body.given|)
    }

    method ReadRest(n: nat) returns (bytes: seq<Byte>, fault: Option<Fault>)
      requires Valid() && 0 < n && 0 < remaining
      modifies this, body, body.body
      ensures Valid() && |bytes| <= n && delivered == old(delivered) + bytes
      ensures fault != Some(Eof)
      ensures fault.Some? || body.terminal in {None, Some(Eof)}
      ensures fault.Some? || old(Consumed(body.body)) < Consumed(body.body)
      ensures fault.Some? ==> !(body.body.last == Some(Eof) && |body.body.given| == size)
      ensures fault.Some? ==> Stopped(fault.value)
    {
      bytes, fault := body.Read(if n > remaining then remaining else n);
      remaining := remaining - |bytes|;
      delivered := delivered + bytes;
      fault := if fault == Some(Eof) && remaining > 0 then Some(UnexpectedEof) else fault;
    }

    method ReadPast() returns (fault: Option<Fault>)
      requires Sane() && remaining == 0
      modifies this, body, body.body
      ensures Sane() && delivered == old(delivered)
      ensures old(Valid()) && fault.None? ==> Valid()
      ensures old(Valid()) && fault == Some(Eof) ==> Valid() && body.terminal == Some(Eof)
      ensures old(Valid()) && fault.Some? && fault != Some(Eof) ==>
        !(body.body.last == Some(Eof) && |body.body.given| == size)
      ensures fault.Some? || body.terminal in {None, Some(Eof)}
      ensures fault.Some? || old(Consumed(body.body)) < Consumed(body.body)
      ensures fault.Some? ==> Stopped(fault.value)
    {
      var bytes;
      bytes, fault := body.Read(1);
      if |bytes| > 0 {
        fault := Some(OverSize);
      }
    }

    method Close()
      modifies body.body`closed
      ensures body.body.closed
    {
      body.Close();
    }
  }

  /** A download body: capped only, or checked against the size in the approval when that is known. */
  datatype Body = Capped(reader: LimitedReader) | Sized(sized: ExpectedSizeReader)

  function SourceOf(body: Body): Source {
    match body
    case Capped(reader) => reader.body
    case Sized(sized) => sized.body.body
  }

  function LimitOf(body: Body): nat {
    match body
    case Capped(reader) => reader.maxBytes
    case Sized(sized) => sized.size
  }

  function Parts(body: Body): set<object> {
    match body
    case Capped(reader) => {reader, reader.body}
    case Sized(sized) => {sized, sized.body, sized.body.body}
  }

  /** The body can be read, also after a fault. */
  ghost predicate Readable(body: Body)
    reads Parts(body)
  {
    match body
    case Capped(reader) => reader.Valid()
    case Sized(sized) => sized.Sane()
  }

  /** As `Readable`, and everything read has been delivered. */
  ghost predicate Open(body: Body)
    reads Parts(body)
  {
    match body
    case Capped(reader) => reader.Valid()
    case Sized(sized) => sized.Valid()
  }

  ghost function Delivered(body: Body): seq<Byte>
    reads Parts(body)
  {
    match body
    case Capped(reader) => reader.delivered
    case Sized(sized) => sized.delivered
  }

  /** The upstream ended as it should: within the cap, or after exactly the expected size. */
  ghost predicate CleanEnd(body: Body)
    reads Parts(body)
  {
    match body
    case Capped(reader) => EndedWithin(reader.body, reader.maxBytes)
    case Sized(sized) => sized.body.body.last == Some(Eof) && |sized.body.body.given| == sized.size
  }

  function CapOf(body: Body): nat {
    match body
    case Capped(reader) => reader.maxBytes
    case Sized(sized) => sized.body.maxBytes
  }

  function SizeOf(body: Body): Option<nat> {
    match body
    case Capped(_) => None
    case Sized(sized) => Some(sized.size)
  }

  ghost function TerminalOf(body: Body): Option<Fault>
    reads Parts(body)
  {
    match body
    case Capped(reader) => reader.terminal
    case Sized(sized) => sized.body.terminal
  }

  /** Why a read of the body ended with this fault. */
  ghost predicate StoppedAt(body: Body, fault: Fault)
    reads Parts(body)
  {
    match body
    case Capped(reader) => reader.terminal == Some(fault)
    case Sized(sized) => sized.Stopped(fault)
  }

  /** One read of a body, in any state: bytes go over in order and within the limit, and every read gets on or stops. */
  ghost predicate HandsOver(
    body: Body, n: nat, before: seq<Byte>, consumed: nat, bytes: seq<Byte>, fault: Option<Fault>)
    reads Parts(body)
  {
    && |bytes| <= n && Delivered(body) == before + bytes
    && Delivered(body) <= SourceOf(body).given && |Delivered(body)| <= LimitOf(body)
    && (fault.Some? ==> StoppedAt(body, fault.value))
    && (fault.Some? || n == 0 || (TerminalOf(body) in {None, Some(Eof)} && consumed < Consumed(SourceOf(body))))
  }

  /** Up to the first fault: it is an end of file exactly if the upstream ended as it should, with all bytes delivered. */
  ghost predicate EndsRight(body: Body, fault: Option<Fault>)
    reads Parts(body)
  {
    match fault
    case None => Open(body)
    case Some(f) =>
      && (f == Eof <==> CleanEnd(body))
      && (f == Eof ==> EndedWith(SourceOf(body), Delivered(body)))
  }

  method ReadBody(body: Body, n: nat) returns (bytes: seq<Byte>, fault: Option<Fault>)
    requires Readable(body)
    modifies Parts(body)
    ensures Readable(body) && (old(Open(body)) ==> EndsRight(body, fault))
    ensures HandsOver(body, n, old(Delivered(body)), old(Consumed(SourceOf(body))), bytes, fault)
  {
    match body
    case Capped(reader) => bytes, fault := reader.Read(n);
    case Sized(sized) => bytes, fault := sized.Read(n);
  }

  method CloseBody(body: Body)
    modifies SourceOf(body)`closed
    ensures SourceOf(body).closed
  {
    match body
    case Capped(reader) => reader.Close();
    case Sized(sized) => sized.Close();
  }

  // A whole stream.

  lemma {:induction false} GivenWithin(plan: nat -> Chunk, at: Place, n: nat)
    requires Reading(plan, at) && (at.calls <= n || (at.calls == n + 1 && at.offset == 0))
    ensures at.given <= Joined(plan, n + 1)
  {
    JoinedGrows(plan, at.calls, n + 1);
    if at.calls <= n {
      JoinedGrows(plan, at.calls + 1, n + 1);
      assert Joined(plan, at.calls + 1) == Joined(plan, at.calls) + At(plan, at.calls).bytes;
    }
  }

  /** A reader gets no further than the first chunk with a fault. */
  lemma {:induction false} StaysWithin(plan: nat -> Chunk, at: Place, cap: nat, terminal: Option<Fault>, n: nat)
    requires Reading(plan, at) && Placed(plan, at, cap, terminal) && FirstFault(plan, n)
    ensures at.given <= Joined(plan, n + 1) && at.calls <= n + 1
    ensures terminal.None? ==> at.calls <= n
    ensures terminal == Some(Eof) ==> at.calls == n + 1 && at.given == Joined(plan, n + 1) && At(plan, n).fault == Some(Eof)
  {
    var m := if terminal.Some? && at.offset == 0 && at.calls > 0 then at.calls - 1 else at.calls;
    assert n < m ==> FlowsPast(plan, n, cap);
    GivenWithin(plan, at, n);
    assert terminal == Some(Eof) ==> at.calls > 0 && At(plan, at.calls - 1).fault.Some?;
  }

  /** When the chunks end cleanly, the capped reader ends with the end of file and nothing else. */
  lemma {:induction false} CleanCapping(plan: nat -> Chunk, at: Place, cap: nat, delivered: seq<Byte>, fault: Fault, n: nat)
    requires Capping(plan, at, cap, delivered, Some(fault))
    requires At(plan, n).fault == Some(Eof) && Flows(plan, n, cap) && |Joined(plan, n + 1)| <= cap
    ensures fault == Eof
  {
    CleanIsFirst(plan, n, cap);
    StaysWithin(plan, at, cap, Some(fault), n);
    assert at.calls > 0 && at.calls - 1 < n ==> FlowsPast(plan, at.calls - 1, cap);
  }

  lemma {:induction false} CleanIsFirst(plan: nat -> Chunk, n: nat, cap: nat)
    requires At(plan, n).fault.Some? && Flows(plan, n, cap)
    ensures FirstFault(plan, n)
  {
    forall k: nat | k < n
      ensures At(plan, k).fault.None?
    {
      assert FlowsPast(plan, k, cap);
    }
  }

  /** Buffers that are not empty, and enough of them to take every byte and every chunk up to the `n`-th. */
  ghost predicate Enough(body: Body, n: nat, sizes: nat -> nat, rounds: nat) {
    && (forall k: nat :: 0 < sizes(k))
    && n + 1 + |Joined(SourceOf(body).plan, n + 1)| < rounds
  }

  /** After so many reads without a fault, at least so much has been consumed. */
  ghost predicate Goes(body: Body, round: nat)
    reads Parts(body)
  {
    round <= Consumed(SourceOf(body)) && (round > 0 ==> TerminalOf(body) in {None, Some(Eof)})
  }

  lemma {:induction false} GoesNoFurther(body: Body, n: nat, round: nat)
    requires Readable(body) && Goes(body, round) && 0 < round && FirstFault(SourceOf(body).plan, n)
    ensures round <= n + 1 + |Joined(SourceOf(body).plan, n + 1)|
  {
    var reader := match body case Capped(reader) => reader case Sized(sized) => sized.body;
    StaysWithin(SourceOf(body).plan, SourceOf(body).Reached(), reader.maxBytes, reader.terminal, n);
  }

  /** The chunks of the body's upstream end cleanly at the `n`-th. */
  ghost predicate Clean(body: Body, n: nat) {
    CleanChunks(SourceOf(body).plan, n, CapOf(body), SizeOf(body))
  }

  /** A consumer that has seen a fault has all bytes and a clean end exactly when the chunks end cleanly. */
  lemma {:induction false} CleanIffEof(body: Body, fault: Fault, output: seq<Byte>, n: nat)
    requires Readable(body) && StoppedAt(body, fault) && FirstFault(SourceOf(body).plan, n)
    requires fault == Eof <==> CleanEnd(body)
    requires fault == Eof ==> EndedWith(SourceOf(body), output)
    ensures fault == Eof <==> Clean(body, n)
    ensures fault == Eof ==> output == Joined(SourceOf(body).plan, n + 1)
  {
    var plan, at := SourceOf(body).plan, SourceOf(body).Reached();
    var reader := match body case Capped(reader) => reader case Sized(sized) => sized.body;
    StaysWithin(plan, at, reader.maxBytes, reader.terminal, n);
    if Clean(body, n) && reader.terminal.Some? {
      CleanCapping(plan, at, reader.maxBytes, reader.delivered, reader.terminal.value, n);
    }
  }

  /** A consumer that is done has every byte and a clean end when the chunks end cleanly, and else a fault. */
  ghost predicate Complete(body: Body, output: seq<Byte>, fault: Option<Fault>, n: nat) {
    && fault.Some? && (fault == Some(Eof) <==> Clean(body, n))
    && (Clean(body, n) ==> output == Joined(SourceOf(body).plan, n + 1))
  }

  lemma {:induction false} CopiedAll(
    body: Body, output: seq<Byte>, fault: Option<Fault>, n: nat, sizes: nat -> nat, rounds: nat, round: nat)
    requires Readable(body) && Copied(body, output, fault) && FirstFault(SourceOf(body).plan, n)
    requires Enough(body, n, sizes, rounds) && (fault.Some? || (Goes(body, round) && round >= rounds))
    ensures Complete(body, output, fault, n)
  {
    if fault.None? {
      GoesNoFurther(body, n, round);
    } else {
      CleanIffEof(body, fault.value, output, n);
    }
  }

  /** What a consumer has when its last read ended so. */
  ghost predicate Copied(body: Body, output: seq<Byte>, fault: Option<Fault>)
    reads Parts(body)
  {
    && output == Delivered(body) && output <= SourceOf(body).given && |output| <= LimitOf(body)
    && EndsRight(body, fault) && (fault.Some? ==> StoppedAt(body, fault.value))
  }

  /**
   * A consumer that reads with buffers of any size and stops at the first fault, as a response copy does.
   * What it has is a prefix of the upstream within the limit, and it sees a clean end of file exactly when
   * the upstream ended as it should, with every byte handed over.
   */
  method Drain(body: Body, sizes: nat -> nat, rounds: nat) returns (output: seq<Byte>, fault: Option<Fault>)
    requires Open(body) && Delivered(body) == []
    modifies Parts(body)
    ensures output == Delivered(body) && output <= SourceOf(body).given && |output| <= LimitOf(body)
    ensures fault.Some? ==> (fault == Some(Eof) <==> CleanEnd(body))
    ensures fault == Some(Eof) ==> EndedWith(SourceOf(body), output)
    ensures fault == Some(Eof) && body.Sized? ==> |output| == body.sized.size
    ensures forall n: nat :: FirstFault(SourceOf(body).plan, n) && Enough(body, n, sizes, rounds) ==>
              Complete(body, output, fault, n)
  {
    output, fault := [], None;
    var round := 0;
    while round < rounds && fault.None?
      invariant Readable(body) && Copied(body, output, fault)
      invariant (forall k: nat :: 0 < sizes(k)) ==> fault.Some? || Goes(body, round)
      decreases rounds - round
    {
      var bytes;
      bytes, fault := ReadBody(body, sizes(round));
      output := output + bytes;
      round := round + 1;
    }
    forall n: nat | FirstFault(SourceOf(body).plan, n) && Enough(body, n, sizes, rounds)
      ensures Complete(body, output, fault, n)
    {
      CopiedAll(body, output, fault, n, sizes, rounds, round);
    }
  }
}
