/**
 * The daily prune deletes only rows that can no longer matter.
 *
 * The same run is executed twice, with its prune steps and without them. The pruned tables are the
 * full tables minus rows that are dead for good, so every other operation answers alike.
 */
module PruneInvisible {
  import opened Domain
  import opened AuthDatabase

  function Moment(step: Step): Time {
    if step.Create? then step.createdAt else step.now
  }

  predicate DeadSession(row: Session, t: Time) {
    row.revokedAt.Some? || (row.refreshExpires < t && row.accessExpires < t)
  }

  /** `kept` is `full` without rows that were already dead at `t`. */
  ghost predicate Prunes(full: Database, kept: Database, t: Time) {
    && kept.users == full.users && kept.nextId == full.nextId
    && (forall h :: h in kept.devices ==> h in full.devices && kept.devices[h] == full.devices[h])
    && (forall h :: h in full.devices && h !in kept.devices ==> full.devices[h].expiresAt < t)
    && (forall id :: id in kept.sessions ==> id in full.sessions && kept.sessions[id] == full.sessions[id])
    && (forall id :: id in full.sessions && id !in kept.sessions ==> DeadSession(full.sessions[id], t))
  }

  /** A bound state was derived from the row's own user code. */
  ghost predicate StatesOwned(db: Database) {
    forall h :: h in db.devices && db.devices[h].state.Some? ==>
      db.devices[h].state.value.Derived? && db.devices[h].state.value.userCode == db.devices[h].userCode
  }

  ghost predicate Simulates(full: Database, kept: Database, t: Time) {
    Sound(full) && Sound(kept) && StatesOwned(full) && Prunes(full, kept, t)
  }

  /**
   * What the service promises about a step on the unpruned tables at time `t`: the clock does not run
   * backwards, a prune's cutoff is not in the future, states are derived, tokens are fresh, and a code
   * that is drawn again clashes with an authorization that has not expired.
   */
  ghost predicate Fair(full: Database, step: Step, t: Time) {
    && t <= Moment(step)
    && (step.Prune? ==> step.before <= step.now)
    && (step.Bind? ==> step.state.Derived? && step.state.userCode == step.userCode)
    && (step.Create? && step.code in full.devices ==> t <= full.devices[step.code].expiresAt)
    && (step.Create? && DeviceByUserCode(full, step.userCode).Some? ==>
          t <= full.devices[DeviceByUserCode(full, step.userCode).value].expiresAt)
    && (step.Exchange? || step.Rotate? ==> SeedFree(full, step.seed))
  }

  function Filter(found: Option<Digest>, kept: Database): Option<Digest> {
    if found.Some? && found.value in kept.devices then found else None
  }

  function FilterId(found: Option<nat>, kept: Database): Option<nat> {
    if found.Some? && found.value in kept.sessions then found else None
  }

  // A lookup in the pruned tables finds the row of the full tables, or nothing when it was deleted.

  lemma {:induction false} SameUserCode(full: Database, kept: Database, t: Time, userCode: string)
    requires Simulates(full, kept, t)
    ensures DeviceByUserCode(kept, userCode) == Filter(DeviceByUserCode(full, userCode), kept)
  {
    var found := DeviceByUserCode(full, userCode);
    assert forall h :: HasUserCode(kept, h, userCode) ==> HasUserCode(full, h, userCode);
    if Filter(found, kept).Some? {
      assert HasUserCode(kept, found.value, userCode);
    }
  }

  lemma {:induction false} SameState(full: Database, kept: Database, t: Time, state: StateHash)
    requires Simulates(full, kept, t)
    ensures DeviceByState(kept, state) == Filter(DeviceByState(full, state), kept)
  {
    var found := DeviceByState(full, state);
    assert forall h :: HasState(kept, h, state) ==> HasState(full, h, state);
    if Filter(found, kept).Some? {
      assert HasState(kept, found.value, state);
    }
  }

  lemma {:induction false} SameAccess(full: Database, kept: Database, t: Time, access: Digest)
    requires Simulates(full, kept, t)
    ensures SessionByAccess(kept, access) == FilterId(SessionByAccess(full, access), kept)
  {
    var found := SessionByAccess(full, access);
    assert forall id :: HasAccess(kept, id, access) ==> HasAccess(full, id, access);
    if FilterId(found, kept).Some? {
      assert HasAccess(kept, found.value, access);
    }
  }

  lemma {:induction false} SameRefresh(full: Database, kept: Database, t: Time, refresh: Digest)
    requires Simulates(full, kept, t)
    ensures SessionByRefresh(kept, refresh) == FilterId(SessionByRefresh(full, refresh), kept)
  {
    var found := SessionByRefresh(full, refresh);
    assert forall id :: HasRefresh(kept, id, refresh) ==> HasRefresh(full, id, refresh);
    if FilterId(found, kept).Some? {
      assert HasRefresh(kept, found.value, refresh);
    }
  }

  /** Error kinds may differ, nothing else. */
  predicate Alike(a: Reply, b: Reply) { a == b || (a.Refused? && b.Refused?) }

  lemma {:induction false} RowLocated(full: Database, kept: Database, t: Time, step: Step)
    requires Simulates(full, kept, t) && OnRow(step)
    ensures Located(kept, step) == Filter(Located(full, step), kept)
  {
    match step
    case Bind(userCode, _, _, _) => { SameUserCode(full, kept, t, userCode); }
    case RejectState(state, _, _) => { SameState(full, kept, t, state); }
    case Claim(state, _, _) => { SameState(full, kept, t, state); }
    case _ => {}
  }

  /** A deleted row had expired, so the step is refused either way. */
  lemma {:induction false} DeletedRowRefused(full: Database, kept: Database, t: Time, step: Step)
    requires Simulates(full, kept, t) && Fair(full, step, t) && OnRow(step)
    requires Located(full, step).Some? && Located(kept, step).None?
    ensures Verdict(full, step).Refused? && Verdict(kept, step).Refused?
  {
    RowLocated(full, kept, t, step);
  }

  lemma {:induction false} BindAlike(full: Database, kept: Database, t: Time, step: Step)
    requires Simulates(full, kept, t) && Fair(full, step, t) && step.Bind?
    requires Located(full, step).Some? && Located(kept, step) == Located(full, step)
    ensures Verdict(full, step) == Verdict(kept, step)
  {
  }

  lemma {:induction false} ExchangeAlike(full: Database, kept: Database, t: Time, step: Step)
    requires Simulates(full, kept, t) && Fair(full, step, t) && step.Exchange?
    requires step.code in kept.devices
    ensures Verdict(full, step) == Verdict(kept, step)
  {
  }

  lemma {:induction false} PresentRowAlike(full: Database, kept: Database, t: Time, step: Step)
    requires Simulates(full, kept, t) && Fair(full, step, t) && OnRow(step)
    requires Located(full, step).Some? && Located(kept, step) == Located(full, step)
    ensures Verdict(full, step) == Verdict(kept, step)
    ensures Writes(full, step) <==> Writes(kept, step)
  {
    if step.Bind? {
      BindAlike(full, kept, t, step);
    } else if step.Exchange? {
      ExchangeAlike(full, kept, t, step);
    } else {
      OtherRowAlike(full, kept, step);
    }
  }

  lemma {:induction false} OtherRowAlike(full: Database, kept: Database, step: Step)
    requires OnRow(step) && !step.Bind? && !step.Exchange? && kept.users == full.users
    requires Located(full, step).Some? && Located(kept, step) == Located(full, step)
    requires full.devices[Located(full, step).value] == kept.devices[Located(full, step).value]
    ensures Verdict(full, step) == Verdict(kept, step)
    ensures Writes(full, step) <==> Writes(kept, step)
  {
  }

  lemma {:induction false} RowAlike(full: Database, kept: Database, t: Time, step: Step)
    requires Simulates(full, kept, t) && Fair(full, step, t) && OnRow(step)
    ensures Alike(Verdict(full, step), Verdict(kept, step))
    ensures Writes(full, step) <==> Writes(kept, step)
    ensures Writes(full, step) ==> Located(kept, step) == Located(full, step)
  {
    RowLocated(full, kept, t, step);
    if Located(full, step).Some? {
      if Located(kept, step).None? {
        DeletedRowRefused(full, kept, t, step);
      } else {
        PresentRowAlike(full, kept, t, step);
      }
    }
  }

  lemma {:induction false} RotateAlike(full: Database, kept: Database, t: Time, step: Step)
    requires Simulates(full, kept, t) && Fair(full, step, t) && step.Rotate?
    ensures Alike(Verdict(full, step), Verdict(kept, step))
    ensures Writes(full, step) ==> SessionByRefresh(full, step.refresh) == SessionByRefresh(kept, step.refresh)
  {
    SameRefresh(full, kept, t, step.refresh);
    NotTaken(full, step.seed);
    NotTaken(kept, step.seed);
  }

  lemma {:induction false} LookupAlike(full: Database, kept: Database, t: Time, step: Step)
    requires Simulates(full, kept, t) && Fair(full, step, t)
    requires step.LookupClaim? || step.GetSession? || step.Create? || step.Prune?
    ensures Alike(Verdict(full, step), Verdict(kept, step))
  {
    match step
    case LookupClaim(state, _, _) => { SameState(full, kept, t, state); }
    case GetSession(access, _, _) => { SameAccess(full, kept, t, access); }
    case Create(_, userCode, _, _, _) => { SameUserCode(full, kept, t, userCode); }
    case Prune(_, _, _) => {}
  }

  lemma {:induction false} StepWritesAlike(full: Database, kept: Database, t: Time, step: Step)
    requires Simulates(full, kept, t) && Fair(full, step, t) && !step.Revoke?
    ensures Alike(Verdict(full, step), Verdict(kept, step))
    ensures Writes(full, step) <==> Writes(kept, step)
  {
    if OnRow(step) {
      RowAlike(full, kept, t, step);
    } else if step.Rotate? {
      RotateAlike(full, kept, t, step);
    } else {
      LookupAlike(full, kept, t, step);
    }
  }

  /** Both tables answer alike, and commit alike; only a revocation may see the difference. */
  lemma {:induction false} StepAlike(full: Database, kept: Database, t: Time, step: Step)
    requires Simulates(full, kept, t) && Fair(full, step, t) && !step.Revoke?
    ensures Alike(Respond(full, step), Respond(kept, step))
    ensures Commits(full, step) <==> Commits(kept, step)
  {
    StepWritesAlike(full, kept, t, step);
  }

  // The deleted rows stay the only difference.

  lemma {:induction false} PutPrunes(full: Database, kept: Database, t: Time, h: Digest, step: Step)
    requires Prunes(full, kept, t) && OnRow(step) && h in kept.devices
    ensures Prunes(PutRow(full, h, step), PutRow(kept, h, step), t)
  {
  }

  lemma {:induction false} InsertPrunes(
    full: Database, kept: Database, t: Time, owner: UserKey, seed: Seed, now: Time)
    requires Prunes(full, kept, t)
    ensures Prunes(Insert(full, owner, seed, now), Insert(kept, owner, seed, now), t)
  {
  }

  lemma {:induction false} RevokePrunes(full: Database, kept: Database, t: Time, id: nat, now: Time)
    requires Prunes(full, kept, t) && id in full.sessions
    ensures Prunes(RevokeRow(full, id, now), if id in kept.sessions then RevokeRow(kept, id, now) else kept, t)
  {
  }

  lemma {:induction false} LaterPrunes(full: Database, kept: Database, t: Time, later: Time)
    requires Prunes(full, kept, t) && t <= later
    ensures Prunes(full, kept, later)
  {
  }

  lemma {:induction false} EffectPrunes(full: Database, kept: Database, t: Time, step: Step)
    requires Simulates(full, kept, t) && Fair(full, step, t) && (OnRow(step) || step.Rotate?)
    requires Writes(full, step) && Writes(kept, step)
    ensures Prunes(Effect(full, step), Effect(kept, step), t)
  {
    if OnRow(step) {
      RowAlike(full, kept, t, step);
      RowWrites(kept, step);
      PutPrunes(full, kept, t, Located(full, step).value, step);
      if step.Exchange? {
        InsertPrunes(PutRow(full, step.code, step), PutRow(kept, step.code, step), t,
                     full.devices[step.code].holder.value, step.seed, step.now);
      }
    } else {
      RotateAlike(full, kept, t, step);
      var id := SessionByRefresh(full, step.refresh).value;
      RevokePrunes(full, kept, t, id, step.now);
      InsertPrunes(RevokeRow(full, id, step.now), RevokeRow(kept, id, step.now), t,
                   full.sessions[id].owner, step.seed, step.now);
    }
  }

  lemma {:induction false} RevocationPrunes(full: Database, kept: Database, t: Time, step: Step)
    requires Simulates(full, kept, t) && step.Revoke?
    ensures Prunes(Apply(full, step), Apply(kept, step), t)
  {
    SameAccess(full, kept, t, step.access);
    if Commits(full, step) {
      RevokePrunes(full, kept, t, SessionByAccess(full, step.access).value, step.now);
    }
  }

  /** The unpruned run does everything but prune. */
  ghost function Spare(db: Database, step: Step): Database {
    if step.Prune? then db else Apply(db, step)
  }

  lemma {:induction false} CreationPrunes(full: Database, kept: Database, t: Time, step: Step)
    requires Simulates(full, kept, t) && step.Create? && Writes(full, step) && Writes(kept, step)
    ensures Prunes(Effect(full, step), Effect(kept, step), t)
  {
  }

  lemma {:induction false} RemainingPrunes(full: Database, kept: Database, t: Time, before: Time)
    requires Prunes(full, kept, t) && before <= t
    ensures Prunes(full, Remaining(kept, before), t)
  {
  }

  lemma {:induction false} CommitPrunes(full: Database, kept: Database, t: Time, step: Step)
    requires Simulates(full, kept, t) && Fair(full, step, t) && !step.Revoke? && !step.Prune?
    ensures Prunes(Apply(full, step), Apply(kept, step), t)
  {
    StepAlike(full, kept, t, step);
    if Commits(full, step) {
      if step.Create? {
        CreationPrunes(full, kept, t, step);
      } else {
        EffectPrunes(full, kept, t, step);
      }
    }
  }

  lemma {:induction false} StepPrunes(full: Database, kept: Database, t: Time, step: Step)
    requires Simulates(full, kept, t) && Fair(full, step, t)
    ensures Prunes(Spare(full, step), Apply(kept, step), Moment(step))
  {
    if step.Prune? {
      LaterPrunes(full, kept, t, Moment(step));
      RemainingPrunes(full, kept, Moment(step), step.before);
    } else {
      if step.Revoke? {
        RevocationPrunes(full, kept, t, step);
      } else {
        CommitPrunes(full, kept, t, step);
      }
      LaterPrunes(Apply(full, step), Apply(kept, step), t, Moment(step));
    }
  }

  lemma {:induction false} StepOwned(db: Database, step: Step, t: Time)
    requires StatesOwned(db) && Fair(db, step, t)
    ensures StatesOwned(Spare(db, step))
  {
  }

  lemma {:induction false} StepSimulates(full: Database, kept: Database, t: Time, step: Step)
    requires Simulates(full, kept, t) && Fair(full, step, t)
    ensures Simulates(Spare(full, step), Apply(kept, step), Moment(step))
  {
    ApplySound(full, step);
    ApplySound(kept, step);
    StepOwned(full, step, t);
    StepPrunes(full, kept, t, step);
  }

  // Whole runs.

  ghost function Unpruned(steps: seq<Step>): Database {
    if steps == [] then EMPTY else Spare(Unpruned(steps[..|steps| - 1]), steps[|steps| - 1])
  }

  function Clock(steps: seq<Step>, start: Time): Time {
    if steps == [] then start else Moment(steps[|steps| - 1])
  }

  ghost predicate FairRun(steps: seq<Step>, start: Time) {
    forall p :: 0 <= p < |steps| ==> Fair(Unpruned(steps[..p]), steps[p], Clock(steps[..p], start))
  }

  lemma {:induction false} RunSimulates(steps: seq<Step>, start: Time)
    requires FairRun(steps, start)
    ensures Simulates(Unpruned(steps), Exec(steps), Clock(steps, start))
  {
    if steps != [] {
      var past, step := steps[..|steps| - 1], steps[|steps| - 1];
      assert forall p :: 0 <= p < |past| ==> past[..p] == steps[..p];
      RunSimulates(past, start);
      StepSimulates(Unpruned(past), Exec(past), Clock(past, start), step);
    }
  }

  /**
   * Pruning is invisible: at every position of a fair run, every operation except a revocation gives
   * the same success, with the same device or user, as in the run without any prune.
   */
  lemma {:induction false} PruningIsInvisible(steps: seq<Step>, start: Time, p: nat)
    requires FairRun(steps, start) && p < |steps| && !steps[p].Revoke?
    ensures Alike(Respond(Unpruned(steps[..p]), steps[p]), Respond(Exec(steps[..p]), steps[p]))
  {
    assert forall q :: 0 <= q < p ==> steps[..p][..q] == steps[..q];
    RunSimulates(steps[..p], start);
    StepAlike(Unpruned(steps[..p]), Exec(steps[..p]), Clock(steps[..p], start), steps[p]);
  }

  /** A revocation is answered alike exactly when it does not hit an expired, never revoked session that was deleted. */
  lemma {:induction false} RevocationAlike(full: Database, kept: Database, t: Time, step: Step)
    requires Simulates(full, kept, t) && step.Revoke?
    ensures var found := SessionByAccess(full, step.access);
            Alike(Verdict(full, step), Verdict(kept, step)) <==>
            !(found.Some? && full.sessions[found.value].revokedAt.None? && found.value !in kept.sessions)
  {
    SameAccess(full, kept, t, step.access);
  }
}
