/**
 * Several client processes share one credential file and race to rotate the same session.
 *
 * A state holds the broker's database, the file, and what each process is doing. `lineage` lists the
 * sessions minted one from another, oldest first; `fileAt` is the index of the one in the file, and `first`
 * what the file held at the start, where either token may be missing.
 * Requests and responses can be lost or repeated, saves can fail half way, and other users' transactions
 * and prunes run at any time. There is no login or logout in between.
 */
module RefreshProtocol {
  import opened Domain
  import opened AuthDatabase

  datatype Creds = Creds(access: Option<Digest>, refresh: Option<Digest>)

  datatype Phase =
    | Finished
    | Loaded(creds: Creds)
    | Refreshing(creds: Creds)
    | Confirming(creds: Creds, seed: Seed)
    | Replied(creds: Creds, seed: Seed)
    | Saved(seed: Seed)
    | Recovering(creds: Creds)
    | Retrying(creds: Creds)

  /** One call of `_authenticated_open`, with the requests it has made so far. */
  datatype Process = Process(phase: Phase, bearers: nat, refreshes: nat)

  datatype System = System(
    db: Database,
    first: Creds,
    file: Creds,
    processes: map<nat, Process>,
    lineage: seq<Seed>,
    fileAt: nat,
    sent: set<Creds>,
    used: set<Digest>)

  datatype SaveOutcome = Written | WrittenThenFailed | NotWritten

  datatype Move =
    | Begin(p: nat)
    | FirstBearer(p: nat, now: Time, net: Net)
    | WithoutBearer(p: nat)
    | RotateFor(p: nat, seed: Seed, now: Time, net: Net)
    | ConfirmFor(p: nat, now: Time, net: Net)
    | Save(p: nat, outcome: SaveOutcome)
    | LastBearer(p: nat)
    | Poll(p: nat)
    | Abandon(p: nat)
    | Repeat(creds: Creds, seed: Seed, now: Time, net: Net)
    | Others(step: Step)

  function CredsOf(seed: Seed): Creds { Creds(Some(seed.access), Some(seed.refresh)) }

  /** The credentials are the session's, as far as they are there; an empty token in the file reads as none. */
  predicate Partial(creds: Creds, seed: Seed) {
    (creds.access.Some? ==> creds.access.value == seed.access) && (creds.refresh.Some? ==> creds.refresh.value == seed.refresh)
  }

  /** What the file holds when it is at this place of the lineage: at first what was there, later what was saved. */
  function StoredAt(first: Creds, lineage: seq<Seed>, i: nat): Creds
    requires i < |lineage|
  {
    if i == 0 then first else CredsOf(lineage[i])
  }

  function Stored(s: System, i: nat): Creds
    requires i < |s.lineage|
  {
    StoredAt(s.first, s.lineage, i)
  }

  function Get(s: System, p: nat): Process {
    if p in s.processes then s.processes[p] else Process(Finished, 0, 0)
  }

  function Set(s: System, p: nat, process: Process): System {
    s.(processes := s.processes[p := process])
  }

  function Next(process: Process, phase: Phase): Process { process.(phase := phase) }

  /** The problem statuses 401, 409 and 410, on which the client looks at the file again. */
  predicate Recoverable(error: Error) {
    error in {Unauthorized, Conflict, AlreadyUsed, Expired}
  }

  ghost function Rotated(s: System, creds: Creds, seed: Seed, now: Time, net: Net): System
    requires creds.refresh.Some?
  {
    var step := Rotate(creds.refresh.value, seed, now, net);
    var minted := s.(db := Apply(s.db, step), used := s.used + {seed.access, seed.refresh});
    if Commits(s.db, step) then minted.(lineage := s.lineage + [seed]) else minted
  }

  function AfterRotation(process: Process, reply: Reply, creds: Creds, seed: Seed): Process {
    Next(process.(refreshes := process.refreshes + 1),
      match reply
      case DoneUser(_) => Replied(creds, seed)
      case Ambiguous => Confirming(creds, seed)
      case Refused(error) => if Recoverable(error) then Recovering(creds) else Finished
      case _ => Finished)
  }

  function AfterBearer(process: Process, reply: Reply, creds: Creds): Process {
    Next(process.(bearers := process.bearers + 1),
         if reply == Refused(Unauthorized) && creds.refresh.Some? then Refreshing(creds) else Finished)
  }

  ghost function Advance(s: System, move: Move): System {
    match move
    case Begin(p) =>
      if Get(s, p).phase.Finished? then Set(s, p, Process(Loaded(s.file), 0, 0)) else s
    case FirstBearer(p, now, net) =>
      var process := Get(s, p);
      if !(process.phase.Loaded? && process.phase.creds.access.Some?) then s
      else
        var creds := process.phase.creds;
        var reply := Respond(s.db, GetSession(creds.access.value, now, net));
        var asked := AfterBearer(process, reply, creds);
        Set(s, p, asked).(sent := if asked.phase.Refreshing? then s.sent + {creds} else s.sent)
    case WithoutBearer(p) =>
      var process := Get(s, p);
      if !(process.phase.Loaded? && process.phase.creds.access.None?) then s
      else if process.phase.creds.refresh.Some?
      then Set(s, p, Next(process, Refreshing(process.phase.creds))).(sent := s.sent + {process.phase.creds})
      else Set(s, p, Next(process, Finished))
    case RotateFor(p, seed, now, net) =>
      var process := Get(s, p);
      if !(process.phase.Refreshing? && process.phase.creds.refresh.Some?) then s
      else
        var creds := process.phase.creds;
        var reply := Respond(s.db, Rotate(creds.refresh.value, seed, now, net));
        Set(Rotated(s, creds, seed, now, net), p, AfterRotation(process, reply, creds, seed))
    case ConfirmFor(p, now, net) =>
      var process := Get(s, p);
      if !process.phase.Confirming? then s
      else
        var reply := Respond(s.db, GetSession(process.phase.seed.access, now, net));
        Set(s, p, Next(process,
          if reply.DoneUser? then Replied(process.phase.creds, process.phase.seed) else Finished))
    case Save(p, outcome) =>
      var process := Get(s, p);
      if !process.phase.Replied? then s
      else
        var seed := process.phase.seed;
        var after := Set(s, p, AfterSave(process, outcome));
        if outcome.NotWritten? then after
        else after.(file := CredsOf(seed), fileAt := IndexOf(s.lineage, seed))
    case LastBearer(p) =>
      var process := Get(s, p);
      if process.phase.Saved? || process.phase.Retrying?
      then Set(s, p, Process(Finished, process.bearers + 1, process.refreshes)) else s
    case Poll(p) =>
      var process := Get(s, p);
      if process.phase.Recovering? && s.file != process.phase.creds && s.file.access.Some?
      then Set(s, p, Next(process, Retrying(s.file))) else s
    case Abandon(p) => Set(s, p, Next(Get(s, p), Finished))
    case Repeat(creds, seed, now, net) =>
      if creds in s.sent && creds.refresh.Some? then Rotated(s, creds, seed, now, net) else s
    case Others(step) =>
      s.(db := Apply(s.db, step),
         used := if step.Exchange? || step.Rotate? then s.used + {step.seed.access, step.seed.refresh} else s.used)
  }

  /** Position of the seed's last occurrence; the file's index after saving it. */
  function IndexOf(lineage: seq<Seed>, seed: Seed): nat {
    if lineage == [] then 0
    else if lineage[|lineage| - 1] == seed then |lineage| - 1
    else IndexOf(lineage[..|lineage| - 1], seed)
  }

  predicate FreshSeed(s: System, seed: Seed) {
    seed.access !in s.used && seed.refresh !in s.used
  }

  /** Random tokens are fresh, and nobody but these processes knows the refresh tokens of the lineage. */
  predicate Allowed(s: System, move: Move) {
    match move
    case RotateFor(_, seed, _, _) => FreshSeed(s, seed)
    case Repeat(_, seed, _, _) => FreshSeed(s, seed)
    case Others(step) =>
      && (step.Exchange? || step.Rotate? ==> FreshSeed(s, step.seed))
      && (step.Rotate? ==> forall i :: 0 <= i < |s.lineage| ==> s.lineage[i].refresh != step.refresh)
    case _ => true
  }

  // The invariant.

  /** The file held these credentials at some time. */
  predicate Known(s: System, creds: Creds) {
    KnownAt(s.first, s.lineage, s.fileAt, creds)
  }

  predicate KnownAt(first: Creds, lineage: seq<Seed>, fileAt: nat, creds: Creds) {
    exists i :: 0 <= i <= fileAt && i < |lineage| && creds == StoredAt(first, lineage, i)
  }

  /** The newest session, which the file does not hold yet. */
  predicate Unsaved(s: System, seed: Seed) {
    s.fileAt + 2 == |s.lineage| && seed == s.lineage[s.fileAt + 1]
  }

  /** The broker has not inserted this session. */
  predicate Unminted(s: System, seed: Seed) {
    forall id :: id in s.db.sessions ==> s.db.sessions[id].access != seed.access
  }

  predicate SeedUsed(s: System, seed: Seed) { seed.access in s.used && seed.refresh in s.used }

  predicate PhaseOk(s: System, phase: Phase) {
    match phase
    case Finished => true
    case Saved(_) => true
    case Loaded(creds) => Known(s, creds)
    case Refreshing(creds) => Known(s, creds) && creds in s.sent
    case Recovering(creds) => Known(s, creds)
    case Retrying(creds) => Known(s, creds)
    case Confirming(_, seed) => SeedUsed(s, seed) && (Unsaved(s, seed) || Unminted(s, seed))
    case Replied(_, seed) => SeedUsed(s, seed) && Unsaved(s, seed)
  }

  predicate CountsOk(process: Process) {
    match process.phase
    case Loaded(_) => process.bearers == 0 && process.refreshes == 0
    case Refreshing(_) => process.bearers <= 1 && process.refreshes == 0
    case Finished => process.bearers <= 2 && process.refreshes <= 1
    case _ => process.bearers <= 1 && process.refreshes <= 1
  }

  predicate LineageOk(s: System) {
    && 0 < |s.lineage| && s.fileAt < |s.lineage| <= s.fileAt + 2
    && s.file == Stored(s, s.fileAt) && Partial(s.first, s.lineage[0])
    && (forall i :: 0 <= i < |s.lineage| ==> SeedUsed(s, s.lineage[i]))
    && (forall i, j :: 0 <= i < j < |s.lineage| ==> s.lineage[i].refresh != s.lineage[j].refresh)
  }

  predicate DatabaseOk(s: System) {
    && (forall id :: id in s.db.sessions ==> s.db.sessions[id].access in s.used && s.db.sessions[id].refresh in s.used)
    && (forall id, i :: id in s.db.sessions && 0 <= i < |s.lineage| - 1
                        && s.db.sessions[id].refresh == s.lineage[i].refresh
          ==> s.db.sessions[id].revokedAt.Some?)
  }

  predicate AwaitsSave(phase: Phase) { phase.Confirming? || phase.Replied? }

  predicate DistinctSeeds(s: System) {
    forall p, q :: p in s.processes && q in s.processes && p != q
                   && AwaitsSave(s.processes[p].phase) && AwaitsSave(s.processes[q].phase)
      ==> s.processes[p].phase.seed != s.processes[q].phase.seed
  }

  ghost predicate Inv(s: System) {
    && Sound(s.db) && LineageOk(s) && DatabaseOk(s) && DistinctSeeds(s)
    && (forall p :: p in s.processes ==> PhaseOk(s, s.processes[p].phase) && CountsOk(s.processes[p]))
    && (forall creds :: creds in s.sent ==> Known(s, creds))
  }

  /** No other process is about to receive or save the seed of this phase. */
  predicate OwnSeed(s: System, p: nat, phase: Phase) {
    AwaitsSave(phase) ==>
      forall q :: q in s.processes && q != p && AwaitsSave(s.processes[q].phase) ==> s.processes[q].phase.seed != phase.seed
  }

  /** One process moves on its own: database, file and lineage stay. */
  lemma {:induction false} LocalInv(s: System, p: nat, process: Process, sent: set<Creds>)
    requires Inv(s) && s.sent <= sent && forall creds :: creds in sent ==> Known(s, creds)
    requires PhaseOk(s.(sent := sent), process.phase) && CountsOk(process) && OwnSeed(s, p, process.phase)
    ensures Inv(Set(s, p, process).(sent := sent))
  {
    var after := Set(s, p, process).(sent := sent);
    SamePhaseOk(s.(sent := sent), after, process.phase);
    forall q | q in after.processes
      ensures PhaseOk(after, after.processes[q].phase) && CountsOk(after.processes[q])
    {
      if q != p { SamePhaseOk(s, after, s.processes[q].phase); }
    }
    assert DistinctSeeds(after);
  }

  /** A phase does not depend on the other processes, and may know of more requests sent. */
  lemma {:induction false} SamePhaseOk(s: System, after: System, phase: Phase)
    requires PhaseOk(s, phase) && after == s.(processes := after.processes, sent := after.sent) && s.sent <= after.sent
    ensures PhaseOk(after, phase)
  {
  }

  lemma {:induction false} LocalMoveInv(s: System, move: Move)
    requires Inv(s) && !move.RotateFor? && !move.Save? && !move.Repeat? && !move.Others?
    ensures Inv(Advance(s, move))
  {
    if move.Begin? || move.FirstBearer? || move.WithoutBearer? {
      EarlyMoveInv(s, move);
    } else if move.ConfirmFor? {
      ConfirmMoveInv(s, move);
    } else {
      LateMoveInv(s, move);
    }
  }

  lemma {:induction false} EarlyMoveInv(s: System, move: Move)
    requires Inv(s) && (move.Begin? || move.FirstBearer? || move.WithoutBearer?)
    ensures Inv(Advance(s, move))
  {
    if move.Begin? {
      BeginMoveInv(s, move);
    } else {
      BearerMoveInv(s, move);
    }
  }

  lemma {:induction false} BeginMoveInv(s: System, move: Move)
    requires Inv(s) && move.Begin?
    ensures Inv(Advance(s, move))
  {
    assert Known(s, s.file);
    if Get(s, move.p).phase.Finished? {
      LocalInv(s, move.p, Process(Loaded(s.file), 0, 0), s.sent);
      assert Advance(s, move) == Set(s, move.p, Process(Loaded(s.file), 0, 0)).(sent := s.sent);
    }
  }

  lemma {:induction false} BearerMoveInv(s: System, move: Move)
    requires Inv(s) && (move.FirstBearer? || move.WithoutBearer?)
    ensures Inv(Advance(s, move))
  {
    var p := move.p;
    var after := Advance(s, move);
    if after != s {
      assert PhaseOk(s, s.processes[p].phase) && CountsOk(s.processes[p]);
      LocalInv(s, p, after.processes[p], after.sent);
      assert after == Set(s, p, after.processes[p]).(sent := after.sent);
    }
  }

  lemma {:induction false} ConfirmMoveInv(s: System, move: Move)
    requires Inv(s) && move.ConfirmFor?
    ensures Inv(Advance(s, move))
  {
    var p := move.p;
    var after := Advance(s, move);
    if after != s {
      if after.processes[p].phase.Replied? {
        ConfirmedIsMinted(s, p, move.now, move.net);
      }
      LocalInv(s, p, after.processes[p], s.sent);
      assert after == Set(s, p, after.processes[p]).(sent := s.sent);
    }
  }

  lemma {:induction false} LateMoveInv(s: System, move: Move)
    requires Inv(s) && (move.LastBearer? || move.Poll? || move.Abandon?)
    ensures Inv(Advance(s, move))
  {
    var p := move.p;
    var after := Advance(s, move);
    assert Known(s, s.file);
    if after != s {
      LocalInv(s, p, after.processes[p], s.sent);
      assert after == Set(s, p, after.processes[p]).(sent := s.sent);
    }
  }

  /** The lookup after an ambiguous rotation cannot find a session that was never inserted. */
  lemma {:induction false} ConfirmedIsMinted(s: System, p: nat, now: Time, net: Net)
    requires Inv(s) && Get(s, p).phase.Confirming?
    requires Respond(s.db, GetSession(Get(s, p).phase.seed.access, now, net)).DoneUser?
    ensures Unsaved(s, Get(s, p).phase.seed)
  {
  }

  lemma {:induction false} SavedIndex(s: System, seed: Seed)
    requires Unsaved(s, seed)
    ensures IndexOf(s.lineage, seed) == s.fileAt + 1
  {
  }

  function FileMoved(s: System, seed: Seed): System {
    s.(file := CredsOf(seed), fileAt := s.fileAt + 1)
  }

  lemma {:induction false} MovedPhaseOk(s: System, seed: Seed, phase: Phase)
    requires LineageOk(s) && Unsaved(s, seed) && PhaseOk(s, phase)
    requires AwaitsSave(phase) ==> phase.seed != seed
    ensures PhaseOk(FileMoved(s, seed), phase)
  {
  }

  /** The file moves to the newest session while no other process is about to save it. */
  lemma {:induction false} FileMovedInv(s: System, seed: Seed)
    requires Inv(s) && Unsaved(s, seed)
    requires forall q :: q in s.processes && AwaitsSave(s.processes[q].phase) ==> s.processes[q].phase.seed != seed
    ensures Inv(FileMoved(s, seed))
  {
    var after := FileMoved(s, seed);
    KnownLater(s, after);
    forall q | q in after.processes
      ensures PhaseOk(after, after.processes[q].phase)
    {
      MovedPhaseOk(s, seed, s.processes[q].phase);
    }
  }

  function AfterSave(process: Process, outcome: SaveOutcome): Process
    requires process.phase.Replied?
  {
    Next(process, if outcome.Written? then Saved(process.phase.seed) else Finished)
  }

  /** Only the newest session is ever saved, and nobody else holds it. */
  lemma {:induction false} SaverIsAlone(s: System, p: nat, outcome: SaveOutcome)
    requires Inv(s) && Get(s, p).phase.Replied?
    ensures var seed, mid := Get(s, p).phase.seed, Set(s, p, AfterSave(Get(s, p), outcome));
            && Inv(mid) && Unsaved(mid, seed)
            && forall q :: q in mid.processes && AwaitsSave(mid.processes[q].phase) ==> mid.processes[q].phase.seed != seed
  {
    assert PhaseOk(s, s.processes[p].phase) && CountsOk(s.processes[p]);
    LocalInv(s, p, AfterSave(s.processes[p], outcome), s.sent);
    var mid := Set(s, p, AfterSave(s.processes[p], outcome));
    assert mid == mid.(sent := s.sent);
  }

  lemma {:induction false} SaveInv(s: System, p: nat, outcome: SaveOutcome)
    requires Inv(s) && Get(s, p).phase.Replied?
    ensures Inv(Advance(s, Save(p, outcome)))
  {
    var seed, mid := Get(s, p).phase.seed, Set(s, p, AfterSave(Get(s, p), outcome));
    SaverIsAlone(s, p, outcome);
    SavedIndex(mid, seed);
    if !outcome.NotWritten? {
      FileMovedInv(mid, seed);
      assert Advance(s, Save(p, outcome)) == FileMoved(mid, seed);
    } else {
      assert Advance(s, Save(p, outcome)) == mid;
    }
  }

  /** The tables and the lineage have moved on a rotation, and no process yet. */
  ghost predicate Moved(s: System, mid: System, creds: Creds, seed: Seed, committed: bool) {
    && Inv(mid) && mid.processes == s.processes && mid.sent == s.sent && SeedUsed(mid, seed) && Known(mid, creds)
    && (if committed then Unsaved(mid, seed) else Unminted(mid, seed))
    && (forall c :: Known(s, c) ==> Known(mid, c))
  }

  /** The tables and the lineage after a rotation with known credentials. */
  lemma {:induction false} RotatedTables(s: System, creds: Creds, seed: Seed, now: Time, net: Net)
    requires Inv(s) && Known(s, creds) && FreshSeed(s, seed) && creds.refresh.Some?
    ensures var after := Rotated(s, creds, seed, now, net);
            && Sound(after.db) && LineageOk(after) && DatabaseOk(after)
            && (if Commits(s.db, Rotate(creds.refresh.value, seed, now, net))
                then Unsaved(after, seed) else Unminted(after, seed))
            && (after.lineage == s.lineage || (after.lineage == s.lineage + [seed] && s.fileAt + 1 == |s.lineage|))
  {
    var step := Rotate(creds.refresh.value, seed, now, net);
    ApplySound(s.db, step);
    if Commits(s.db, step) {
      CommittedRotationIsNewest(s, creds, step);
      RotatedDatabaseOk(s, step);
      LongerLineageOk(s, Rotated(s, creds, seed, now, net), seed);
    }
  }

  lemma {:induction false} LongerLineageOk(s: System, after: System, seed: Seed)
    requires LineageOk(s) && FreshSeed(s, seed) && s.fileAt + 1 == |s.lineage|
    requires after.first == s.first && after.file == s.file && after.fileAt == s.fileAt
    requires after.lineage == s.lineage + [seed] && after.used == s.used + {seed.access, seed.refresh}
    ensures LineageOk(after) && Unsaved(after, seed)
  {
  }

  /** A rotation with known credentials commits only for the newest session, and extends the lineage by one. */
  lemma {:induction false} RotatedInv(s: System, creds: Creds, seed: Seed, now: Time, net: Net)
    requires Inv(s) && Known(s, creds) && FreshSeed(s, seed) && creds.refresh.Some?
    ensures Moved(s, Rotated(s, creds, seed, now, net), creds, seed,
                  Commits(s.db, Rotate(creds.refresh.value, seed, now, net)))
  {
    var step := Rotate(creds.refresh.value, seed, now, net);
    var after := Rotated(s, creds, seed, now, net);
    RotatedTables(s, creds, seed, now, net);
    if Commits(s.db, step) {
      RotatedRows(s.db, step);
    }
    RotatedPhases(s, after, seed);
    assert DistinctSeeds(after);
  }

  lemma {:induction false} RotatedRows(db: Database, step: Step)
    requires step.Rotate? && Writes(db, step)
    ensures forall id :: id in Effect(db, step).sessions ==>
      var row := Effect(db, step).sessions[id];
      row.access == step.seed.access || (id in db.sessions && db.sessions[id].access == row.access)
  {
  }

  lemma {:induction false} CommittedRotationIsNewest(s: System, creds: Creds, step: Step)
    requires Inv(s) && Known(s, creds) && step.Rotate? && creds.refresh == Some(step.refresh)
    requires Writes(s.db, step)
    ensures s.fileAt + 1 == |s.lineage| && step.refresh == s.lineage[s.fileAt].refresh
  {
  }

  lemma {:induction false} RotatedDatabaseOk(s: System, step: Step)
    requires Sound(s.db) && DatabaseOk(s) && step.Rotate? && Writes(s.db, step) && FreshSeed(s, step.seed)
    requires 0 < |s.lineage| && step.refresh == s.lineage[|s.lineage| - 1].refresh
    requires forall i :: 0 <= i < |s.lineage| ==> SeedUsed(s, s.lineage[i])
    ensures DatabaseOk(s.(db := Effect(s.db, step), lineage := s.lineage + [step.seed],
                          used := s.used + {step.seed.access, step.seed.refresh}))
  {
  }

  lemma {:induction false} KnownLater(s: System, after: System)
    requires s.lineage <= after.lineage && s.fileAt <= after.fileAt && s.first == after.first
    ensures forall creds :: Known(s, creds) ==> Known(after, creds)
  {
    forall creds | Known(s, creds)
      ensures Known(after, creds)
    {
      var i :| 0 <= i <= s.fileAt && i < |s.lineage| && creds == StoredAt(s.first, s.lineage, i);
      assert creds == StoredAt(after.first, after.lineage, i);
    }
  }

  lemma {:induction false} RotatedPhases(s: System, after: System, seed: Seed)
    requires Inv(s) && FreshSeed(s, seed)
    requires after == s.(db := after.db, used := s.used + {seed.access, seed.refresh}, lineage := after.lineage)
    requires after.lineage == s.lineage || (after.lineage == s.lineage + [seed] && s.fileAt + 1 == |s.lineage|)
    requires forall id :: id in after.db.sessions ==>
      after.db.sessions[id].access == seed.access || (id in s.db.sessions && s.db.sessions[id].access == after.db.sessions[id].access)
    ensures forall p :: p in after.processes ==>
      PhaseOk(after, after.processes[p].phase) && CountsOk(after.processes[p])
    ensures forall c :: Known(s, c) ==> Known(after, c)
  {
    KnownLater(s, after);
    forall p | p in after.processes
      ensures PhaseOk(after, after.processes[p].phase) && CountsOk(after.processes[p])
    {
      assert PhaseOk(s, s.processes[p].phase);
    }
  }

  lemma {:induction false} FreshSeedIsOwn(s: System, p: nat, phase: Phase)
    requires Inv(s) && AwaitsSave(phase) && FreshSeed(s, phase.seed)
    ensures OwnSeed(s, p, phase)
  {
  }
}
