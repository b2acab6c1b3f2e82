/**
 * What the second look after a failed commit is worth.
 *
 * A commit that fails on the wire may have been applied. Exchange and rotation then look the new
 * access token up; a claim looks its OAuth state up. Other transactions run in between.
 */
module CommitOutcomes {
  import opened Domain
  import opened AuthDatabase
  import Lineage
  import StatusOrder

  ghost function ExecFrom(db: Database, steps: seq<Step>): Database {
    if steps == [] then db else Apply(ExecFrom(db, steps[..|steps| - 1]), steps[|steps| - 1])
  }

  lemma {:induction false} ExecFromExec(past: seq<Step>, steps: seq<Step>)
    ensures ExecFrom(Exec(past), steps) == Exec(past + steps)
  {
    if steps == [] {
      assert past + steps == past;
    } else {
      var init, step := steps[..|steps| - 1], steps[|steps| - 1];
      ExecFromExec(past, init);
      ExecSnoc(past + init, step);
      assert past + steps == past + init + [step];
    }
  }

  /** The step tries to insert a session with this access token. */
  predicate Mints(step: Step, access: Digest) {
    (step.Exchange? || step.Rotate?) && step.seed.access == access
  }

  predicate NoneMints(steps: seq<Step>, access: Digest) {
    forall p :: 0 <= p < |steps| ==> !Mints(steps[p], access)
  }

  /** Every row with the access token is the row `id`, inserted by this transaction for `owner`. */
  ghost predicate OnlyOwnRow(db: Database, access: Digest, applied: bool, id: nat, seed: Seed, owner: UserKey) {
    && (applied ==> id < db.nextId)
    && (forall i :: i in db.sessions && db.sessions[i].access == access ==> applied && i == id)
    && (applied && id in db.sessions ==>
          db.sessions[id].access == access && db.sessions[id].owner == owner
          && db.sessions[id].accessExpires == seed.accessExpires)
  }

  lemma {:induction false} OnlyOwnRowKept(
    db: Database, step: Step, access: Digest, applied: bool, id: nat, seed: Seed, owner: UserKey)
    requires OnlyOwnRow(db, access, applied, id, seed, owner) && !Mints(step, access)
    ensures OnlyOwnRow(Apply(db, step), access, applied, id, seed, owner)
  {
  }

  lemma {:induction false} OnlyOwnRowLasts(
    db: Database, steps: seq<Step>, access: Digest, applied: bool, id: nat, seed: Seed, owner: UserKey)
    requires OnlyOwnRow(db, access, applied, id, seed, owner) && NoneMints(steps, access)
    ensures OnlyOwnRow(ExecFrom(db, steps), access, applied, id, seed, owner)
  {
    if steps != [] {
      OnlyOwnRowLasts(db, steps[..|steps| - 1], access, applied, id, seed, owner);
      OnlyOwnRowKept(ExecFrom(db, steps[..|steps| - 1]), steps[|steps| - 1], access, applied, id, seed, owner);
    }
  }

  /** The row a session-issuing transaction inserted can be used with its access token at `now`. */
  predicate Usable(db: Database, id: nat, now: Time) {
    && id in db.sessions && db.sessions[id].revokedAt.None? && now < db.sessions[id].accessExpires
    && db.sessions[id].owner in db.users
  }

  /**
   * An ambiguous exchange or rotation is confirmed exactly when the database answers and the row this
   * very transaction inserted is there and usable; the confirmed user is the transaction's own.
   */
  lemma {:induction false} ConfirmationIsExact(
    db: Database, step: Step, between: seq<Step>, now: Time, net: Net)
    requires step.Exchange? || step.Rotate?
    requires Respond(db, step) == Ambiguous
    requires SeedFree(db, step.seed) && NoneMints(between, step.seed.access)
    ensures var later := ExecFrom(Apply(db, step), between);
            var reply := Respond(later, GetSession(step.seed.access, now, net));
            && (reply.DoneUser? <==> !net.Down? && step.net.Lost? && Usable(later, db.nextId, now))
            && (reply.DoneUser? ==> reply.user.key == Verdict(db, step).user.key)
            && !reply.Ambiguous?
  {
    var access, applied, owner := step.seed.access, step.net.Lost?, Verdict(db, step).user.key;
    IssuedRow(db, step);
    OnlyOwnRowLasts(Apply(db, step), between, access, applied, db.nextId, step.seed, owner);
    var later := ExecFrom(Apply(db, step), between);
    if Usable(later, db.nextId, now) && applied {
      assert HasAccess(later, db.nextId, access);
    }
  }

  lemma {:induction false} IssuedRow(db: Database, step: Step)
    requires step.Exchange? || step.Rotate?
    requires Respond(db, step) == Ambiguous && SeedFree(db, step.seed)
    ensures OnlyOwnRow(Apply(db, step), step.seed.access, step.net.Lost?, db.nextId, step.seed,
                       Verdict(db, step).user.key)
  {
  }

  /**
   * A rotation that passes its checks swaps the live session or leaves it alone: exactly one of the
   * old and the new one is live afterwards, the new one precisely when the commit was applied.
   */
  lemma {:induction false} RotationSwapsOrKeeps(db: Database, step: Step)
    requires Sound(db) && step.Rotate? && Verdict(db, step).DoneUser?
    ensures var id := SessionByRefresh(db, step.refresh).value;
            var after := Apply(db, step);
            && (Lineage.Live(after, db.nextId) <==> step.net.Acked? || step.net.Lost?)
            && (Lineage.Live(after, id) <==> step.net.Down? || step.net.Aborted?)
            && (Lineage.Live(after, id) ==> Verdict(after, step) == Verdict(db, step))
  {
  }

  /** At most one claim of an authorization is answered by an acknowledged commit. */
  lemma {:induction false} OneAcknowledgedClaim(steps: seq<Step>, p: nat, q: nat, code: Digest)
    requires p < q < |steps| && steps[p].Claim? && steps[q].Claim?
    requires Respond(Exec(steps[..p]), steps[p]) == DoneDevice(code)
    requires Respond(Exec(steps[..q]), steps[q]) == DoneDevice(code)
    ensures StatusOrder.Recreated(steps, code, p + 1, q)
  {
    StatusOrder.StageCommitsOnce(steps, p, q, code);
  }

  /** A confirmed claim means some claim of this very authorization was committed, in time. */
  lemma {:induction false} ClaimConfirmationSound(steps: seq<Step>, step: Step)
    requires step.LookupClaim? && Respond(Exec(steps), step).DoneDevice?
    ensures exists p: nat, expiresAt: Time ::
              Lineage.ClaimedAs(steps, p, Respond(Exec(steps), step).code, expiresAt) && step.now < expiresAt
  {
    Lineage.FollowRun(steps);
    var w := Lineage.Follow(steps);
    var t := w.tracks[w.serial[Respond(Exec(steps), step).code]];
    assert Lineage.Recorded(steps, t);
  }

  /** The authorization is claimed through this OAuth state. */
  predicate ClaimedRow(db: Database, code: Digest, state: StateHash) {
    code in db.devices && db.devices[code].status == Authorizing && db.devices[code].state == Some(state)
  }

  /** A step that claims an authorization is a committed claim of its state. */
  lemma {:induction false} ClaimsRow(steps: seq<Step>, r: nat, code: Digest, state: StateHash)
    requires r < |steps| && !ClaimedRow(Exec(steps[..r]), code, state) && ClaimedRow(Exec(steps[..r + 1]), code, state)
    ensures steps[r].Claim? && steps[r].state == state && StatusOrder.CommittedOn(steps, r, code)
  {
    var db, step := Exec(steps[..r]), steps[r];
    ExecSound(steps[..r]);
    assert steps[..r + 1] == steps[..r] + [step];
    ExecSnoc(steps[..r], step);
    if OnRow(step) && Commits(db, step) { RowWrites(db, step); }
  }

  /** Somebody's claim of the authorization commits between the two positions. */
  ghost predicate ClaimedBetween(steps: seq<Step>, from: nat, upTo: nat, code: Digest, state: StateHash) {
    exists r: nat :: from <= r < upTo && ClaimCommitted(steps, r, code, state)
  }

  ghost predicate ClaimCommitted(steps: seq<Step>, r: nat, code: Digest, state: StateHash) {
    r < |steps| && steps[r].Claim? && steps[r].state == state && StatusOrder.CommittedOn(steps, r, code)
  }

  lemma {:induction false} ClaimedSomewhere(steps: seq<Step>, from: nat, upTo: nat, code: Digest, state: StateHash)
    requires from <= upTo <= |steps|
    requires !ClaimedRow(Exec(steps[..from]), code, state) && ClaimedRow(Exec(steps[..upTo]), code, state)
    ensures ClaimedBetween(steps, from, upTo, code, state)
    decreases upTo
  {
    if from < upTo {
      if ClaimedRow(Exec(steps[..upTo - 1]), code, state) {
        ClaimedSomewhere(steps, from, upTo - 1, code, state);
        var r: nat :| from <= r < upTo - 1 && ClaimCommitted(steps, r, code, state);
        assert from <= r < upTo && ClaimCommitted(steps, r, code, state);
      } else {
        ClaimsRow(steps, upTo - 1, code, state);
        assert ClaimCommitted(steps, upTo - 1, code, state);
      }
    }
  }

  /** The second look at `q` confirms the ambiguous claim at `p` with this authorization. */
  ghost predicate Confirmed(steps: seq<Step>, p: nat, q: nat, code: Digest) {
    && p < q < |steps| && steps[p].Claim? && steps[q].LookupClaim? && steps[q].state == steps[p].state
    && Respond(Exec(steps[..p]), steps[p]) == Ambiguous
    && Respond(Exec(steps[..q]), steps[q]) == DoneDevice(code)
  }

  /** Right after an ambiguous claim, only its own authorization can be claimed through its state. */
  lemma {:induction false} AfterAmbiguousClaim(db: Database, step: Step, code: Digest)
    requires Sound(db) && step.Claim? && Respond(db, step) == Ambiguous
    ensures ClaimedRow(Apply(db, step), code, step.state) <==> Commits(db, step) && Located(db, step) == Some(code)
  {
    RowWrites(db, step);
  }

  /**
   * A confirmed claim is the caller's own exactly when no other claim of that authorization committed
   * between the claim and the second look.
   */
  lemma {:induction false} ClaimConfirmationIsExact(steps: seq<Step>, p: nat, q: nat, code: Digest)
    requires Confirmed(steps, p, q, code) && !StatusOrder.Recreated(steps, code, p + 1, q)
    ensures StatusOrder.CommittedOn(steps, p, code) <==> !ClaimedBetween(steps, p + 1, q, code, steps[p].state)
    ensures StatusOrder.CommittedOn(steps, p, code) ==> steps[p].net.Lost?
  {
    if StatusOrder.CommittedOn(steps, p, code) {
      if ClaimedBetween(steps, p + 1, q, code, steps[p].state) {
        var r: nat :| p + 1 <= r < q && ClaimCommitted(steps, r, code, steps[p].state);
        StatusOrder.StageCommitsOnce(steps, p, r, code);
      }
    } else {
      RivalWasThere(steps, p, q, code);
    }
  }

  lemma {:induction false} RivalWasThere(steps: seq<Step>, p: nat, q: nat, code: Digest)
    requires Confirmed(steps, p, q, code) && !StatusOrder.CommittedOn(steps, p, code)
    ensures ClaimedBetween(steps, p + 1, q, code, steps[p].state)
  {
    ExecSound(steps[..p]);
    assert steps[..p + 1] == steps[..p] + [steps[p]];
    ExecSnoc(steps[..p], steps[p]);
    AfterAmbiguousClaim(Exec(steps[..p]), steps[p], code);
    ClaimedSomewhere(steps, p + 1, q, code, steps[p].state);
  }

  /** With no other claim of the state in between, a confirmed claim was applied: it is the caller's own. */
  lemma {:induction false} UnrivalledClaimIsOwn(steps: seq<Step>, p: nat, q: nat, code: Digest)
    requires Confirmed(steps, p, q, code)
    requires forall r :: p < r < q && steps[r].Claim? ==> steps[r].state != steps[p].state
    ensures StatusOrder.CommittedOn(steps, p, code) && steps[p].net.Lost?
  {
    if !StatusOrder.CommittedOn(steps, p, code) {
      RivalWasThere(steps, p, q, code);
    }
  }

  const CODE := "ABCD-EFGH"

  function BoundRow(state: StateHash, status: Status): Database {
    Database(map[1 := FreshRow(CODE, 0, 600).(state := Some(state), status := status)], map[], map[], 0)
  }

  function BoundRun(state: StateHash): seq<Step> {
    [Create(1, CODE, 0, 600, Acked), Bind(CODE, state, 1, Acked)]
  }

  lemma {:induction false} RunsToBoundRow(state: StateHash)
    ensures Exec(BoundRun(state)) == BoundRow(state, Pending)
  {
    var create, bind := Create(1, CODE, 0, 600, Acked), Bind(CODE, state, 1, Acked);
    var created := Database(map[1 := FreshRow(CODE, 0, 600)], map[], map[], 0);
    ExecSnoc([], create);
    assert [] + [create] == [create];
    assert HasUserCode(created, 1, CODE);
    assert forall h :: !HasState(created, h, state);
    ExecSnoc([create], bind);
    assert [create] + [bind] == BoundRun(state);
  }

  /**
   * But not that it was the caller's own: a claim that was never applied is confirmed when a rival
   * claim of the same state gets in between. So a claim has one acknowledged winner, not one winner.
   */
  lemma {:induction false} UnappliedClaimConfirmed(state: StateHash)
    ensures var mine, rival := Claim(state, 2, Aborted), Claim(state, 3, Acked);
            var past := BoundRun(state);
            && Respond(Exec(past), mine) == Ambiguous
            && Respond(Exec(past + [mine]), rival) == DoneDevice(1)
            && Respond(Exec(past + [mine] + [rival]), LookupClaim(state, 4, Acked)) == DoneDevice(1)
  {
    var mine, rival := Claim(state, 2, Aborted), Claim(state, 3, Acked);
    var past := BoundRun(state);
    RunsToBoundRow(state);
    assert HasState(BoundRow(state, Pending), 1, state);
    assert HasState(BoundRow(state, Authorizing), 1, state);
    ExecSnoc(past, mine);
    ExecSnoc(past + [mine], rival);
    assert Exec(past + [mine] + [rival]) == BoundRow(state, Authorizing);
  }
}
