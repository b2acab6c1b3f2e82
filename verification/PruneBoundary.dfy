/**
 * Exactly which operations can tell a pruned database from an unpruned one: a revocation of a session, and
 * a creation under a code, whose row a committed prune has deleted.
 */
module PruneBoundary {
  import opened Domain
  import opened AuthDatabase
  import opened PruneInvisible
  import CommitOutcomes

  /** A prune committed at `q` with a cutoff after this instant. */
  predicate PrunedPast(steps: seq<Step>, q: nat, expires: Time) {
    q < |steps| && steps[q].Prune? && (steps[q].net.Acked? || steps[q].net.Lost?) && expires < steps[q].before
  }

  /** The prune at `q` found the session, and both its expiries before the cutoff. */
  ghost predicate DeletesSession(steps: seq<Step>, q: nat, id: nat, row: Session) {
    q < |steps| && id < Unpruned(steps[..q]).nextId
    && PrunedPast(steps, q, row.refreshExpires) && PrunedPast(steps, q, row.accessExpires)
  }

  ghost predicate SessionDeleted(steps: seq<Step>, id: nat, row: Session) {
    exists q: nat :: DeletesSession(steps, q, id, row)
  }

  ghost predicate DeletesDevice(steps: seq<Step>, q: nat, h: Digest, row: Device) {
    q < |steps| && h in Unpruned(steps[..q]).devices && PrunedPast(steps, q, row.expiresAt)
  }

  ghost predicate DeviceDeleted(steps: seq<Step>, h: Digest, row: Device) {
    exists q: nat :: DeletesDevice(steps, q, h, row)
  }

  lemma {:induction false} DeletedSnoc(steps: seq<Step>, step: Step, id: nat, row: Session)
    ensures SessionDeleted(steps + [step], id, row)
       <==> SessionDeleted(steps, id, row) || DeletesSession(steps + [step], |steps|, id, row)
  {
    var more := steps + [step];
    forall q: nat | q < |steps|
      ensures DeletesSession(more, q, id, row) <==> DeletesSession(steps, q, id, row)
    {
      assert more[..q] == steps[..q];
    }
  }

  lemma {:induction false} DeviceDeletedSnoc(steps: seq<Step>, step: Step, h: Digest, row: Device)
    ensures DeviceDeleted(steps + [step], h, row)
       <==> DeviceDeleted(steps, h, row) || DeletesDevice(steps + [step], |steps|, h, row)
  {
    var more := steps + [step];
    forall q: nat | q < |steps|
      ensures DeletesDevice(more, q, h, row) <==> DeletesDevice(steps, q, h, row)
    {
      assert more[..q] == steps[..q];
    }
  }

  lemma {:induction false} UnprunedSnoc(steps: seq<Step>, step: Step)
    ensures Unpruned(steps + [step]) == Spare(Unpruned(steps), step)
    ensures (steps + [step])[..|steps|] == steps
  {
    assert (steps + [step])[..|steps|] == steps;
  }

  lemma {:induction false} FairPrefix(steps: seq<Step>, step: Step, start: Time)
    requires FairRun(steps + [step], start)
    ensures FairRun(steps, start) && Fair(Unpruned(steps), step, Clock(steps, start))
  {
    var more := steps + [step];
    forall p | 0 <= p < |steps|
      ensures Fair(Unpruned(steps[..p]), steps[p], Clock(steps[..p], start))
    {
      assert more[..p] == steps[..p] && more[p] == steps[p];
    }
    assert more[..|steps|] == steps && more[|steps|] == step;
  }

  /** A session inserted later than the prune is not the prune's. */
  lemma {:induction false} NextIdGrows(steps: seq<Step>, q: nat)
    requires q <= |steps|
    ensures Unpruned(steps[..q]).nextId <= Unpruned(steps).nextId
  {
    if q < |steps| {
      NextIdGrows(steps[..|steps| - 1], q);
      assert steps[..|steps| - 1][..q] == steps[..q];
    } else {
      assert steps[..q] == steps;
    }
  }

  // One step.

  /** A session of the unpruned tables that is not revoked was there before the step, or was inserted by it. */
  lemma {:induction false} SessionBefore(full: Database, step: Step, id: nat)
    requires forall i :: i in full.sessions ==> i < full.nextId
    requires id in Spare(full, step).sessions && Spare(full, step).sessions[id].revokedAt.None?
    ensures if id in full.sessions then Spare(full, step).sessions[id] == full.sessions[id]
            else id == full.nextId && Commits(full, step) && (step.Exchange? || step.Rotate?)
  {
  }

  /** Both tables enter the same session. */
  lemma {:induction false} SessionEntered(full: Database, kept: Database, t: Time, step: Step)
    requires Simulates(full, kept, t) && Fair(full, step, t) && Commits(full, step) && (step.Exchange? || step.Rotate?)
    ensures full.nextId in Apply(kept, step).sessions
  {
    StepAlike(full, kept, t, step);
  }

  /** What a step does to a kept session that is not revoked afterwards in the unpruned tables. */
  lemma {:induction false} SessionKept(full: Database, kept: Database, t: Time, step: Step, id: nat)
    requires Prunes(full, kept, t) && id in full.sessions && id < full.nextId && full.sessions[id].revokedAt.None?
    ensures id !in Apply(kept, step).sessions <==>
              id !in kept.sessions
              || (step.Prune? && (step.net.Acked? || step.net.Lost?)
                  && full.sessions[id].refreshExpires < step.before && full.sessions[id].accessExpires < step.before)
  {
  }

  lemma {:induction false} PruneDeletes(past: seq<Step>, step: Step, id: nat, row: Session)
    requires id < Unpruned(past).nextId
    ensures DeletesSession(past + [step], |past|, id, row) <==>
              step.Prune? && (step.net.Acked? || step.net.Lost?)
              && row.refreshExpires < step.before && row.accessExpires < step.before
  {
    assert (past + [step])[..|past|] == past;
  }

  /** Over a fair run: a session that is not revoked is missing from the pruned tables iff a prune deleted it. */
  lemma {:induction false} SessionMissingIff(steps: seq<Step>, start: Time, id: nat)
    requires FairRun(steps, start) && id in Unpruned(steps).sessions && Unpruned(steps).sessions[id].revokedAt.None?
    ensures id !in Exec(steps).sessions <==> SessionDeleted(steps, id, Unpruned(steps).sessions[id])
  {
    var past, step := steps[..|steps| - 1], steps[|steps| - 1];
    assert steps == past + [step];
    var full, row := Unpruned(past), Unpruned(steps).sessions[id];
    FairPrefix(past, step, start);
    UnprunedSnoc(past, step);
    RunSimulates(past, start);
    DeletedSnoc(past, step, id, row);
    SessionBefore(full, step, id);
    ExecSnoc(past, step);
    if id in full.sessions {
      SessionMissingIff(past, start, id);
      SessionKept(full, Exec(past), Clock(past, start), step, id);
      PruneDeletes(past, step, id, row);
    } else {
      SessionEntered(full, Exec(past), Clock(past, start), step);
      SessionNotDeleted(past, step, id, row);
    }
  }

  lemma {:induction false} SessionNotDeleted(past: seq<Step>, step: Step, id: nat, row: Session)
    requires Unpruned(past).nextId <= id
    ensures !SessionDeleted(past, id, row) && !DeletesSession(past + [step], |past|, id, row)
  {
    assert (past + [step])[..|past|] == past;
    forall q: nat | q < |past|
      ensures !DeletesSession(past, q, id, row)
    {
      NextIdGrows(past, q);
    }
  }

  // Revocations.

  /**
   * At every position of a fair run a revocation is answered alike, unless it would succeed without pruning
   * and a committed prune has deleted its session, both of whose tokens had expired by the cutoff.
   */
  lemma {:induction false} RevocationAlikeIff(steps: seq<Step>, start: Time, p: nat)
    requires FairRun(steps, start) && p < |steps| && steps[p].Revoke?
    ensures var full := Unpruned(steps[..p]);
            var found := SessionByAccess(full, steps[p].access);
            Alike(Respond(full, steps[p]), Respond(Exec(steps[..p]), steps[p])) <==>
            !(steps[p].net.Acked? && found.Some? && full.sessions[found.value].revokedAt.None?
              && SessionDeleted(steps[..p], found.value, full.sessions[found.value]))
  {
    var past, step := steps[..p], steps[p];
    assert forall q :: 0 <= q < p ==> past[..q] == steps[..q];
    RunSimulates(past, start);
    var full, kept := Unpruned(past), Exec(past);
    RevocationAlike(full, kept, Clock(past, start), step);
    var found := SessionByAccess(full, step.access);
    if found.Some? && full.sessions[found.value].revokedAt.None? {
      SessionMissingIff(past, start, found.value);
    }
  }

  // Creations.

  lemma {:induction false} DeviceBefore(full: Database, step: Step, h: Digest)
    requires h in Spare(full, step).devices
    ensures h in full.devices ==> Spare(full, step).devices[h].expiresAt == full.devices[h].expiresAt
    ensures h !in full.devices ==> step.Create? && step.code == h && Commits(full, step)
  {
    if Commits(full, step) && OnRow(step) { RowWrites(full, step); }
  }

  /** A code is entered in the pruned tables only if it is new to both, and dropped only by a prune. */
  lemma {:induction false} DeviceKept(full: Database, kept: Database, t: Time, step: Step, h: Digest)
    requires Simulates(full, kept, t) && Fair(full, step, t) && h in full.devices
    ensures h !in Apply(kept, step).devices <==>
              h !in kept.devices
              || (step.Prune? && (step.net.Acked? || step.net.Lost?) && full.devices[h].expiresAt < step.before)
  {
    if Commits(kept, step) && OnRow(step) { RowWrites(kept, step); }
    if step.Create? { StepAlike(full, kept, t, step); }
  }

  /** Over a fair run: an authorization is missing from the pruned tables iff a prune deleted it. */
  lemma {:induction false} DeviceMissingIff(steps: seq<Step>, start: Time, h: Digest)
    requires FairRun(steps, start) && h in Unpruned(steps).devices
    ensures h !in Exec(steps).devices <==> DeviceDeleted(steps, h, Unpruned(steps).devices[h])
  {
    var past, step := steps[..|steps| - 1], steps[|steps| - 1];
    assert steps == past + [step];
    var full, row := Unpruned(past), Unpruned(steps).devices[h];
    FairPrefix(past, step, start);
    UnprunedSnoc(past, step);
    RunSimulates(past, start);
    DeviceDeletedSnoc(past, step, h, row);
    DeviceBefore(full, step, h);
    if h in full.devices {
      DeviceMissingIff(past, start, h);
      SameDeletion(past, h, row, full.devices[h]);
      DeviceKept(full, Exec(past), Clock(past, start), step, h);
    } else {
      DeviceIsNew(past, step, start, h, row);
    }
  }

  /** An authorization that has just been created is there, and was not deleted. */
  lemma {:induction false} DeviceIsNew(past: seq<Step>, step: Step, start: Time, h: Digest, row: Device)
    requires Simulates(Unpruned(past), Exec(past), Clock(past, start)) && Fair(Unpruned(past), step, Clock(past, start))
    requires h !in Unpruned(past).devices && step.Create? && step.code == h && Commits(Unpruned(past), step)
    ensures h in Apply(Exec(past), step).devices
    ensures !DeviceDeleted(past, h, row) && !DeletesDevice(past + [step], |past|, h, row)
  {
    DeviceEntered(Unpruned(past), Exec(past), Clock(past, start), step);
    DeviceNotDeleted(past, step, h, row);
  }

  lemma {:induction false} DeviceEntered(full: Database, kept: Database, t: Time, step: Step)
    requires Simulates(full, kept, t) && Fair(full, step, t) && step.Create? && Commits(full, step)
    ensures step.code in Apply(kept, step).devices
  {
    StepAlike(full, kept, t, step);
  }

  lemma {:induction false} DeviceNotDeleted(past: seq<Step>, step: Step, h: Digest, row: Device)
    requires h !in Unpruned(past).devices
    ensures !DeviceDeleted(past, h, row) && !DeletesDevice(past + [step], |past|, h, row)
  {
    assert (past + [step])[..|past|] == past;
    forall q: nat | q < |past|
      ensures !DeletesDevice(past, q, h, row)
    {
      if h in Unpruned(past[..q]).devices { DeviceStays(past, q, h); }
    }
  }

  /** Deletion depends on the row's expiry only. */
  lemma {:induction false} SameDeletion(steps: seq<Step>, h: Digest, a: Device, b: Device)
    requires a.expiresAt == b.expiresAt
    ensures DeviceDeleted(steps, h, a) <==> DeviceDeleted(steps, h, b)
  {
    forall q: nat
      ensures DeletesDevice(steps, q, h, a) <==> DeletesDevice(steps, q, h, b)
    {
    }
  }

  /** Without prunes no authorization ever disappears. */
  lemma {:induction false} DeviceStays(steps: seq<Step>, q: nat, h: Digest)
    requires q <= |steps| && h in Unpruned(steps[..q]).devices
    ensures h in Unpruned(steps).devices
  {
    if q < |steps| {
      var past, step := steps[..|steps| - 1], steps[|steps| - 1];
      assert past[..q] == steps[..q];
      DeviceStays(past, q, h);
      if Commits(Unpruned(past), step) && OnRow(step) { RowWrites(Unpruned(past), step); }
    } else {
      assert steps[..q] == steps;
    }
  }

  /** The unpruned tables hold an authorization under the code or the user code. */
  ghost predicate Clashes(db: Database, step: Step)
    requires step.Create?
  {
    step.code in db.devices || DeviceByUserCode(db, step.userCode).Some?
  }

  /** Every authorization that clashes was deleted by a committed prune, so it had expired by its cutoff. */
  ghost predicate ClashesDeleted(past: seq<Step>, step: Step)
    requires step.Create?
  {
    var full := Unpruned(past);
    && (step.code in full.devices ==> DeviceDeleted(past, step.code, full.devices[step.code]))
    && (DeviceByUserCode(full, step.userCode).Some? ==>
          var h := DeviceByUserCode(full, step.userCode).value; DeviceDeleted(past, h, full.devices[h]))
  }

  /**
   * After a fair run a creation is answered alike, unless it would conflict without pruning and every
   * authorization it conflicts with has been deleted.
   */
  lemma {:induction false} CreationAlikeIff(past: seq<Step>, start: Time, step: Step)
    requires FairRun(past, start) && step.Create?
    ensures Alike(Respond(Unpruned(past), step), Respond(Exec(past), step)) <==>
            !(step.net.Acked? && Clashes(Unpruned(past), step) && ClashesDeleted(past, step))
  {
    RunSimulates(past, start);
    var full, kept := Unpruned(past), Exec(past);
    SameUserCode(full, kept, Clock(past, start), step.userCode);
    if step.code in full.devices { DeviceMissingIff(past, start, step.code); }
    if DeviceByUserCode(full, step.userCode).Some? {
      DeviceMissingIff(past, start, DeviceByUserCode(full, step.userCode).value);
    }
  }

  // A run in which both happen.

  const STATE := Derived(CommitOutcomes.CODE, 7)
  const USER := User(UserKey("corp", "user"), "union", "name")
  const SEED := Seed(10, 20, 100, 200)

  /** An authorization goes all the way, its session expires, and both rows are pruned. */
  const STORY: seq<Step> := [
    Create(1, CommitOutcomes.CODE, 0, 600, Acked),
    Bind(CommitOutcomes.CODE, STATE, 1, Acked),
    Claim(STATE, 2, Acked),
    Complete(1, USER, 3, Acked),
    Exchange(1, SEED, 4, Acked),
    Prune(1000, 1000, Acked)]

  function RowAt(k: nat): Device {
    var first := FreshRow(CommitOutcomes.CODE, 0, 600);
    if k <= 1 then first
    else if k == 2 then first.(state := Some(STATE))
    else if k == 3 then first.(state := Some(STATE), status := Authorizing)
    else if k == 4 then first.(status := Approved, holder := Some(USER.key), authorizedAt := Some(3))
    else first.(status := Consumed, holder := Some(USER.key), authorizedAt := Some(3), consumedAt := Some(4))
  }

  /** The tables after the first `k` steps, without the prune. */
  function TablesAt(k: nat): Database {
    if k == 0 then EMPTY
    else Database(map[1 := RowAt(k)], if k >= 5 then map[0 := NewSession(USER.key, SEED, 4)] else map[],
                  if k >= 4 then map[USER.key := Profile(USER.unionId, USER.displayName)] else map[],
                  if k >= 5 then 1 else 0)
  }

  /** What the lookups find along the story. */
  lemma {:induction false} StoryLookups(k: nat)
    requires k < 6
    ensures DeviceByUserCode(TablesAt(k), CommitOutcomes.CODE) == if k == 0 then None else Some(1)
    ensures DeviceByState(TablesAt(k), STATE) == if k == 2 || k == 3 then Some(1) else None
    ensures SeedFree(TablesAt(k), SEED) <==> k < 5
  {
    var db := TablesAt(k);
    if 1 <= k { assert HasUserCode(db, 1, CommitOutcomes.CODE) && db.devices.Keys == {1}; }
    if k == 2 || k == 3 { assert HasState(db, 1, STATE); }
    if k == 5 { assert 0 in db.sessions; }
  }

  lemma {:induction false} StoryStep(k: nat)
    requires k < 6
    ensures Spare(TablesAt(k), STORY[k]) == TablesAt(k + 1)
  {
    StoryLookups(k);
    NotTaken(TablesAt(k), SEED);
  }

  lemma {:induction false} StoryStepIsFair(k: nat)
    requires k < 6
    ensures Fair(TablesAt(k), STORY[k], Clock(STORY[..k], 0))
  {
    StoryLookups(k);
  }

  lemma {:induction false} UnprunedNext(steps: seq<Step>, k: nat)
    requires k < |steps|
    ensures Unpruned(steps[..k + 1]) == Spare(Unpruned(steps[..k]), steps[k])
  {
    UnprunedSnoc(steps[..k], steps[k]);
    assert steps[..k + 1] == steps[..k] + [steps[k]];
  }

  lemma {:induction false} StoryUnpruned(k: nat)
    requires k <= 6
    ensures Unpruned(STORY[..k]) == TablesAt(k)
  {
    if k > 0 {
      StoryUnpruned(k - 1);
      StoryStep(k - 1);
      UnprunedNext(STORY, k - 1);
    }
  }

  lemma {:induction false} StoryIsFair()
    ensures FairRun(STORY, 0)
  {
    forall k | 0 <= k < |STORY|
      ensures Fair(Unpruned(STORY[..k]), STORY[k], Clock(STORY[..k], 0))
    {
      StoryUnpruned(k);
      StoryStepIsFair(k);
    }
  }

  lemma {:induction false} StoryPruned()
    ensures Unpruned(STORY) == TablesAt(6) && Unpruned(STORY[..5]) == TablesAt(5)
    ensures Exec(STORY).devices == map[] && Exec(STORY).sessions == map[]
  {
    StoryIsFair();
    StoryUnpruned(5);
    StoryUnpruned(6);
    assert STORY[..6] == STORY;
    var full := TablesAt(6);
    RunSimulates(STORY, 0);
    assert PrunedPast(STORY, 5, 200) && PrunedPast(STORY, 5, 100) && PrunedPast(STORY, 5, 600);
    assert DeletesSession(STORY, 5, 0, full.sessions[0]) && DeletesDevice(STORY, 5, 1, full.devices[1]);
    SessionMissingIff(STORY, 0, 0);
    DeviceMissingIff(STORY, 0, 1);
    assert Exec(STORY).devices.Keys == {} && Exec(STORY).sessions.Keys == {};
  }

  /** After the story, revoking the expired session and drawing the same code again both see the prune. */
  lemma {:induction false} PruneIsSeen()
    ensures FairRun(STORY, 0)
    ensures Respond(Unpruned(STORY), Revoke(10, 1001, Acked)) == Done
    ensures Respond(Exec(STORY), Revoke(10, 1001, Acked)) == Refused(Unauthorized)
    ensures Respond(Unpruned(STORY), Create(1, CommitOutcomes.CODE, 1001, 2000, Acked)) == Refused(Conflict)
    ensures Respond(Exec(STORY), Create(1, CommitOutcomes.CODE, 1001, 2000, Acked)) == Done
  {
    StoryIsFair();
    StoryPruned();
    assert HasAccess(TablesAt(6), 0, 10);
  }
}
