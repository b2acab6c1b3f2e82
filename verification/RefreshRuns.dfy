/**
 * Every move of the shared-file protocol keeps its invariant, so every run of it does; and what that means for
 * the file and for the processes.
 */
module RefreshRuns {
  import opened Domain
  import opened AuthDatabase
  import opened RefreshProtocol

  /** A rotation answered with a user was committed. */
  lemma {:induction false} DoneIsCommitted(db: Database, step: Step)
    requires step.Rotate? && Respond(db, step).DoneUser?
    ensures Commits(db, step)
  {
  }

  /** What the answer to a rotation makes of its process. */
  lemma {:induction false} AfterRotationOk(
    s: System, process: Process, reply: Reply, creds: Creds, seed: Seed, committed: bool)
    requires SeedUsed(s, seed) && Known(s, creds) && (if committed then Unsaved(s, seed) else Unminted(s, seed))
    requires process.phase.Refreshing? && CountsOk(process) && (reply.DoneUser? ==> committed)
    ensures PhaseOk(s, AfterRotation(process, reply, creds, seed).phase)
    ensures CountsOk(AfterRotation(process, reply, creds, seed))
  {
  }

  lemma {:induction false} RotateMoveInv(s: System, move: Move)
    requires Inv(s) && Allowed(s, move) && move.RotateFor?
    ensures Inv(Advance(s, move))
  {
    var process := Get(s, move.p);
    if process.phase.Refreshing? && process.phase.creds.refresh.Some? {
      assert PhaseOk(s, s.processes[move.p].phase) && CountsOk(process);
      RotatedInv(s, process.phase.creds, move.seed, move.now, move.net);
      RotatorInv(s, move.p, move.seed, move.now, move.net);
    }
  }

  /** The per-process part: the tables and the lineage have moved, now the process does. */
  lemma {:induction false} RotatorInv(s: System, p: nat, seed: Seed, now: Time, net: Net)
    requires Inv(s) && FreshSeed(s, seed) && Get(s, p).phase.Refreshing? && Get(s, p).phase.creds.refresh.Some?
    requires CountsOk(Get(s, p))
    requires Moved(s, Rotated(s, Get(s, p).phase.creds, seed, now, net), Get(s, p).phase.creds, seed,
                   Commits(s.db, Rotate(Get(s, p).phase.creds.refresh.value, seed, now, net)))
    ensures Inv(Advance(s, RotateFor(p, seed, now, net)))
  {
    var process, creds := Get(s, p), Get(s, p).phase.creds;
    var step, mid := Rotate(creds.refresh.value, seed, now, net), Rotated(s, creds, seed, now, net);
    var reply := Respond(s.db, step);
    var next := AfterRotation(process, reply, creds, seed);
    if reply.DoneUser? { DoneIsCommitted(s.db, step); }
    AfterRotationOk(mid, process, reply, creds, seed, Commits(s.db, step));
    if AwaitsSave(next.phase) { FreshSeedIsOwn(s, p, next.phase); }
    LocalInv(mid, p, next, mid.sent);
    assert Advance(s, RotateFor(p, seed, now, net)) == Set(mid, p, next).(sent := mid.sent);
  }

  /** Transactions of everybody else, prunes and revocations included. */
  lemma {:induction false} OthersInv(s: System, step: Step)
    requires Inv(s) && Allowed(s, Others(step))
    ensures Inv(Advance(s, Others(step)))
  {
    ApplySound(s.db, step);
    var after := Advance(s, Others(step));
    OthersDatabaseOk(s, step);
    forall p | p in after.processes
      ensures PhaseOk(after, after.processes[p].phase) && CountsOk(after.processes[p])
    {
      OthersPhaseOk(s, after, s.processes[p].phase);
    }
  }

  /** A phase stays as it was when others only use more tokens and insert no session of this lineage. */
  lemma {:induction false} OthersPhaseOk(s: System, after: System, phase: Phase)
    requires after == s.(db := after.db, used := after.used) && s.used <= after.used && PhaseOk(s, phase)
    requires forall seed :: SeedUsed(s, seed) && Unminted(s, seed) ==> Unminted(after, seed)
    ensures PhaseOk(after, phase)
  {
  }

  /** The row was there before, with the same tokens and not less revoked, or has the step's tokens. */
  predicate RowFrom(db: Database, step: Step, id: nat, row: Session) {
    || (id in db.sessions && row.access == db.sessions[id].access && row.refresh == db.sessions[id].refresh
        && (db.sessions[id].revokedAt.Some? ==> row.revokedAt.Some?))
    || ((step.Exchange? || step.Rotate?) && row.access == step.seed.access && row.refresh == step.seed.refresh)
  }

  lemma {:induction false} RowAfter(db: Database, step: Step, id: nat)
    requires id in Apply(db, step).sessions
    ensures RowFrom(db, step, id, Apply(db, step).sessions[id])
  {
  }

  lemma {:induction false} OthersDatabaseOk(s: System, step: Step)
    requires Sound(s.db) && DatabaseOk(s) && LineageOk(s) && Allowed(s, Others(step))
    ensures DatabaseOk(Advance(s, Others(step)))
    ensures forall seed :: SeedUsed(s, seed) && Unminted(s, seed) ==> Unminted(Advance(s, Others(step)), seed)
  {
    forall id | id in Apply(s.db, step).sessions
      ensures RowFrom(s.db, step, id, Apply(s.db, step).sessions[id])
    {
      RowAfter(s.db, step, id);
    }
    RowsDatabaseOk(s, Advance(s, Others(step)), step);
  }

  lemma {:induction false} RowsDatabaseOk(s: System, after: System, step: Step)
    requires DatabaseOk(s) && LineageOk(s) && after.lineage == s.lineage && s.used <= after.used
    requires step.Exchange? || step.Rotate? ==>
      FreshSeed(s, step.seed) && step.seed.access in after.used && step.seed.refresh in after.used
    requires forall id | id in after.db.sessions :: RowFrom(s.db, step, id, after.db.sessions[id])
    ensures DatabaseOk(after)
    ensures forall seed :: SeedUsed(s, seed) && Unminted(s, seed) ==> Unminted(after, seed)
  {
  }

  lemma {:induction false} AdvanceInv(s: System, move: Move)
    requires Inv(s) && Allowed(s, move)
    ensures Inv(Advance(s, move))
  {
    match move
    case RotateFor(_, _, _, _) => { RotateMoveInv(s, move); }
    case Save(p, outcome) => { if Get(s, p).phase.Replied? { SaveInv(s, p, outcome); } }
    case Repeat(creds, seed, now, net) => {
      if creds in s.sent && creds.refresh.Some? { RotatedInv(s, creds, seed, now, net); }
    }
    case Others(step) => { OthersInv(s, step); }
    case _ => { LocalMoveInv(s, move); }
  }

  /** The lineage only grows, and the file moves along it by one at most. */
  lemma {:induction false} AdvanceGrows(s: System, move: Move)
    requires Inv(s)
    ensures s.fileAt <= Advance(s, move).fileAt <= s.fileAt + 1
    ensures s.lineage <= Advance(s, move).lineage && s.first == Advance(s, move).first
  {
    if move.Save? && Get(s, move.p).phase.Replied? {
      assert PhaseOk(s, s.processes[move.p].phase);
      SavedIndex(s, s.processes[move.p].phase.seed);
    }
  }

  // Whole runs.

  ghost function Play(s: System, moves: seq<Move>): System {
    if moves == [] then s else Advance(Play(s, moves[..|moves| - 1]), moves[|moves| - 1])
  }

  ghost predicate AllAllowed(s: System, moves: seq<Move>) {
    forall k :: 0 <= k < |moves| ==> Allowed(Play(s, moves[..k]), moves[k])
  }

  /** Before any refresh: the file holds the only session of the lineage, or what is left of it. */
  ghost predicate JustLoggedIn(s: System) {
    && Sound(s.db) && |s.lineage| == 1 && s.fileAt == 0 && s.file == s.first && Partial(s.first, s.lineage[0])
    && s.processes == map[] && s.sent == {} && SeedUsed(s, s.lineage[0])
    && forall id :: id in s.db.sessions ==> s.db.sessions[id].access in s.used && s.db.sessions[id].refresh in s.used
  }

  lemma {:induction false} PlayInv(s: System, moves: seq<Move>)
    requires JustLoggedIn(s) && AllAllowed(s, moves)
    ensures Inv(Play(s, moves))
  {
    if moves != [] {
      var past := moves[..|moves| - 1];
      assert forall k :: 0 <= k < |past| ==> past[..k] == moves[..k];
      PlayInv(s, past);
      AdvanceInv(Play(s, past), moves[|moves| - 1]);
    }
  }

  /** The file holds what belongs to the newest session ever minted or to its direct predecessor. */
  predicate NewestOrPrevious(s: System) {
    && 0 < |s.lineage|
    && (s.file == Stored(s, |s.lineage| - 1) || (2 <= |s.lineage| && s.file == Stored(s, |s.lineage| - 2)))
  }

  lemma {:induction false} FilePosition(s: System)
    requires LineageOk(s)
    ensures NewestOrPrevious(s)
  {
  }

  lemma {:induction false} FileIsNewestOrPrevious(s: System, moves: seq<Move>)
    requires JustLoggedIn(s) && AllAllowed(s, moves)
    ensures NewestOrPrevious(Play(s, moves))
  {
    PlayInv(s, moves);
    FilePosition(Play(s, moves));
  }

  /** The file is where it was in the lineage, or one session further. */
  predicate FileAdvances(before: System, after: System) {
    && before.fileAt < |after.lineage| && before.file == Stored(after, before.fileAt)
    && (after.file == before.file
        || (before.fileAt + 1 < |after.lineage| && after.file == Stored(after, before.fileAt + 1)))
  }

  lemma {:induction false} MoveAdvancesFile(s: System, move: Move)
    requires Inv(s) && Allowed(s, move)
    ensures FileAdvances(s, Advance(s, move))
  {
    AdvanceInv(s, move);
    AdvanceGrows(s, move);
  }

  /** No move, a save above all, takes the file back to an older session. */
  lemma {:induction false} FileNeverGoesBack(s: System, moves: seq<Move>, move: Move)
    requires JustLoggedIn(s) && AllAllowed(s, moves) && Allowed(Play(s, moves), move)
    ensures FileAdvances(Play(s, moves), Advance(Play(s, moves), move))
  {
    PlayInv(s, moves);
    MoveAdvancesFile(Play(s, moves), move);
  }

  /** The process received a session from the broker and has not written it yet. */
  predicate HoldsUnsaved(s: System, p: nat) { Get(s, p).phase.Replied? }

  /** At most one process holds an unsaved session, it is the newest one, and the file holds its predecessor. */
  lemma {:induction false} OneUnsavedHolder(s: System, moves: seq<Move>, p: nat, q: nat)
    requires JustLoggedIn(s) && AllAllowed(s, moves)
    requires HoldsUnsaved(Play(s, moves), p) && HoldsUnsaved(Play(s, moves), q)
    ensures p == q
    ensures Unsaved(Play(s, moves), Get(Play(s, moves), p).phase.seed)
  {
    PlayInv(s, moves);
    var now := Play(s, moves);
    assert PhaseOk(now, now.processes[p].phase) && PhaseOk(now, now.processes[q].phase);
  }

  /** One call makes at most one refresh and two bearer requests, and ends only after all of them. */
  lemma {:induction false} CallsAreBounded(s: System, moves: seq<Move>, p: nat)
    requires JustLoggedIn(s) && AllAllowed(s, moves)
    ensures Get(Play(s, moves), p).bearers <= 2 && Get(Play(s, moves), p).refreshes <= 1
  {
    PlayInv(s, moves);
    var now := Play(s, moves);
    if p in now.processes { assert CountsOk(now.processes[p]); }
  }
}
