/**
 * What must succeed.
 *
 * First every transaction's answer and new tables in terms of the row it finds, then the same along whole
 * runs: whoever holds a code or a token that a committed transaction gave out can use it in time, whatever
 * other transactions run in between, as long as none of them is aimed at that very row.
 */
module Availability {
  import opened Domain
  import opened AuthDatabase
  import Lineage

  // One transaction on a row that is there.

  /** A refresh token works until it is revoked or its own expiry is reached; the access expiry plays no part. */
  lemma {:induction false} RotateOutcome(db: Database, id: nat, seed: Seed, now: Time)
    requires Sound(db) && id in db.sessions && SeedFree(db, seed)
    ensures var row := db.sessions[id];
            var step := Rotate(row.refresh, seed, now, Acked);
            var heir := Session(row.owner, seed.access, seed.refresh, seed.accessExpires, seed.refreshExpires, None, now);
            if row.revokedAt.None? && now < row.refreshExpires then
              && Respond(db, step) == DoneUser(UserOf(db, row.owner))
              && Apply(db, step).sessions == db.sessions[id := row.(revokedAt := Some(now))][db.nextId := heir]
            else Respond(db, step) == Refused(Unauthorized) && Apply(db, step) == db
  {
    assert HasRefresh(db, id, db.sessions[id].refresh);
    NotTaken(db, seed);
  }

  /** After a refresh the new access token works at once, until its expiry. */
  lemma {:induction false} NewSessionWorks(
    db: Database, refresh: Digest, seed: Seed, now: Time, later: Time, net: Net)
    requires Sound(db) && SeedFree(db, seed) && Renewable(db, refresh, now) && !net.Down? && later < seed.accessExpires
    ensures Respond(Apply(db, Rotate(refresh, seed, now, Acked)), GetSession(seed.access, later, net)).DoneUser?
  {
    var id :| id in db.sessions && db.sessions[id].refresh == refresh
              && db.sessions[id].revokedAt.None? && now < db.sessions[id].refreshExpires;
    var step := Rotate(refresh, seed, now, Acked);
    RotateOutcome(db, id, seed, now);
    ApplySound(db, step);
    GetSessionOutcome(Apply(db, step), db.nextId, later, net);
  }

  /** Some session has this refresh token, is not revoked and has not reached its refresh expiry. */
  ghost predicate Renewable(db: Database, refresh: Digest, now: Time) {
    exists id :: id in db.sessions && db.sessions[id].refresh == refresh
                 && db.sessions[id].revokedAt.None? && now < db.sessions[id].refreshExpires
  }

  lemma {:induction false} RefreshWorksIff(db: Database, refresh: Digest, seed: Seed, now: Time)
    requires Sound(db) && SeedFree(db, seed)
    ensures Respond(db, Rotate(refresh, seed, now, Acked)).DoneUser? <==> Renewable(db, refresh, now)
    ensures Respond(db, Rotate(refresh, seed, now, Acked)).DoneUser?
            || Respond(db, Rotate(refresh, seed, now, Acked)) == Refused(Unauthorized)
  {
    if id :| id in db.sessions && db.sessions[id].refresh == refresh {
      RotateOutcome(db, id, seed, now);
    } else {
      assert forall id :: !HasRefresh(db, id, refresh);
    }
  }

  /** An access token works until it is revoked or its expiry is reached. */
  lemma {:induction false} GetSessionOutcome(db: Database, id: nat, now: Time, net: Net)
    requires Sound(db) && id in db.sessions && !net.Down?
    ensures var row := db.sessions[id];
            Respond(db, GetSession(row.access, now, net))
            == if row.revokedAt.None? && now < row.accessExpires then DoneUser(UserOf(db, row.owner))
               else Refused(Unauthorized)
    ensures Apply(db, GetSession(db.sessions[id].access, now, net)) == db
  {
    assert HasAccess(db, id, db.sessions[id].access);
  }

  /** A session is revoked by its access token, expired or not. */
  lemma {:induction false} RevokeOutcome(db: Database, id: nat, now: Time)
    requires Sound(db) && id in db.sessions
    ensures var row := db.sessions[id];
            var step := Revoke(row.access, now, Acked);
            if row.revokedAt.None? then
              && Respond(db, step) == Done
              && Apply(db, step) == db.(sessions := db.sessions[id := row.(revokedAt := Some(now))])
            else Respond(db, step) == Refused(Unauthorized) && Apply(db, step) == db
  {
    assert HasAccess(db, id, db.sessions[id].access);
  }

  /** Nobody gets in with a token that no session has. */
  lemma {:induction false} UnknownToken(db: Database, token: Digest, seed: Seed, now: Time)
    requires forall id :: id in db.sessions ==> db.sessions[id].access != token && db.sessions[id].refresh != token
    ensures Respond(db, Rotate(token, seed, now, Acked)) == Refused(Unauthorized)
    ensures Respond(db, GetSession(token, now, Acked)) == Refused(Unauthorized)
    ensures Respond(db, Revoke(token, now, Acked)) == Refused(Unauthorized)
  {
  }

  /** Polling with a device code: what the client is told in each status, and the first session once it is approved. */
  lemma {:induction false} ExchangeOutcome(db: Database, code: Digest, seed: Seed, now: Time)
    requires Sound(db) && code in db.devices && SeedFree(db, seed)
    ensures var row := db.devices[code];
            var step := Exchange(code, seed, now, Acked);
            if now < row.expiresAt && row.status == Approved then
              && row.holder.Some? && row.holder.value in db.users
              && Respond(db, step) == DoneUser(UserOf(db, row.holder.value))
              && Apply(db, step).devices == db.devices[code := row.(status := Consumed, consumedAt := Some(now))]
              && Apply(db, step).sessions
                 == db.sessions[db.nextId := Session(row.holder.value, seed.access, seed.refresh, seed.accessExpires,
                                                     seed.refreshExpires, None, now)]
            else
              && Apply(db, step) == db
              && Respond(db, step) == Refused(
                   if row.expiresAt <= now then Expired
                   else if row.status in {Pending, Authorizing} then AuthorizationPending
                   else if row.status == Denied then Forbidden else AlreadyUsed)
  {
    NotTaken(db, seed);
  }

  /** The code is claimed and unexpired, and no other user of the corporation has the union ID. */
  predicate Completable(db: Database, code: Digest, user: User, now: Time) {
    && code in db.devices && db.devices[code].status == Authorizing && now < db.devices[code].expiresAt
    && forall key :: key in db.users && key != user.key && key.corpId == user.key.corpId
                     ==> db.users[key].unionId != user.unionId
  }

  lemma {:induction false} CompleteWorksIff(db: Database, code: Digest, user: User, now: Time)
    ensures Respond(db, Complete(code, user, now, Acked)) == Done <==> Completable(db, code, user, now)
  {
    if code in db.devices {
      CompleteOutcome(db, code, user, now);
    }
  }

  /** An unexpired code is completed exactly while it is claimed and nobody else of the corporation has the union ID. */
  lemma {:induction false} CompleteOutcome(db: Database, code: Digest, user: User, now: Time)
    requires code in db.devices
    ensures var row := db.devices[code];
            var step := Complete(code, user, now, Acked);
            var free := forall key :: key in db.users && key != user.key && key.corpId == user.key.corpId
                                      ==> db.users[key].unionId != user.unionId;
            && (Respond(db, step) == Done <==> now < row.expiresAt && row.status == Authorizing && free)
            && (Respond(db, step) == Done ==>
                  && Apply(db, step).devices[code]
                     == row.(status := Approved, holder := Some(user.key), authorizedAt := Some(now), state := None)
                  && user.key in Apply(db, step).users
                  && Apply(db, step).users[user.key] == Profile(user.unionId, user.displayName))
            && (Respond(db, step) != Done ==>
                  && Apply(db, step) == db
                  && Respond(db, step) == Refused(
                       if row.expiresAt <= now then Expired
                       else if row.status in {Approved, Consumed} then AlreadyUsed else Conflict))
  {
  }

  /** A state is claimed once, in time; the second look finds it while it is claimed. */
  lemma {:induction false} ClaimOutcome(db: Database, code: Digest, now: Time)
    requires Sound(db) && code in db.devices && db.devices[code].state.Some?
    ensures var row := db.devices[code];
            var step := Claim(row.state.value, now, Acked);
            if now < row.expiresAt && row.status == Pending then
              && Respond(db, step) == DoneDevice(code)
              && Apply(db, step) == db.(devices := db.devices[code := row.(status := Authorizing)])
            else
              && Respond(db, step) == Refused(if row.expiresAt <= now then Expired else AlreadyUsed)
              && Apply(db, step) == db
    ensures var row := db.devices[code];
            Respond(db, LookupClaim(row.state.value, now, Acked))
            == if row.status == Authorizing && now < row.expiresAt then DoneDevice(code) else Refused(Unauthorized)
  {
    assert HasState(db, code, db.devices[code].state.value);
  }

  /** Some pending, unexpired authorization has this state. */
  ghost predicate Claimable(db: Database, state: StateHash, now: Time) {
    exists code :: code in db.devices && db.devices[code].state == Some(state)
                   && db.devices[code].status == Pending && now < db.devices[code].expiresAt
  }

  /** Some claimed, unexpired authorization has this state. */
  ghost predicate Claimed(db: Database, state: StateHash, now: Time) {
    exists code :: code in db.devices && db.devices[code].state == Some(state)
                   && db.devices[code].status == Authorizing && now < db.devices[code].expiresAt
  }

  lemma {:induction false} LookupWorksIff(db: Database, state: StateHash, now: Time, net: Net)
    requires Sound(db)
    ensures var reply := Respond(db, LookupClaim(state, now, net));
            && (reply.DoneDevice? <==> !net.Down? && Claimed(db, state, now))
            && (reply.DoneDevice? || reply.Refused?)
  {
    if code :| code in db.devices && db.devices[code].state == Some(state) {
      assert HasState(db, code, state);
    } else {
      assert forall h :: !HasState(db, h, state);
    }
  }

  lemma {:induction false} ClaimWorksIff(db: Database, state: StateHash, now: Time)
    requires Sound(db)
    ensures var reply := Respond(db, Claim(state, now, Acked));
            && (reply.DoneDevice? <==> Claimable(db, state, now))
            && (reply.DoneDevice? ==> reply.code in db.devices && db.devices[reply.code].state == Some(state))
            && (reply.DoneDevice? || reply.Refused?)
  {
    if code :| code in db.devices && db.devices[code].state == Some(state) {
      ClaimOutcome(db, code, now);
    } else {
      assert forall h :: !HasState(db, h, state);
    }
  }

  /** A browser binds its state to a pending code; the same browser may come again, another may not. */
  lemma {:induction false} BindOutcome(db: Database, code: Digest, state: StateHash, now: Time)
    requires Sound(db) && code in db.devices
    requires forall g :: g in db.devices && g != code ==> db.devices[g].state != Some(state)
    ensures var row := db.devices[code];
            var step := Bind(row.userCode, state, now, Acked);
            if now < row.expiresAt && row.status == Pending && (row.state.None? || row.state.value == state) then
              && Respond(db, step) == Done
              && Apply(db, step).devices == db.devices[code := row.(state := Some(state))]
            else
              && Respond(db, step) == Refused(if row.expiresAt <= now then Expired else AlreadyUsed)
              && Apply(db, step) == db
  {
    assert HasUserCode(db, code, db.devices[code].userCode);
    assert db.devices[code].state.None? ==> forall g :: !HasState(db, g, state);
  }

  /** A browser can withdraw its own state while the code is pending; a claimed one is rejected by its code. */
  lemma {:induction false} RejectOutcome(db: Database, code: Digest, now: Time)
    requires Sound(db) && code in db.devices
    ensures var row := db.devices[code];
            var step := RejectDevice(code, now, Acked);
            && (Respond(db, step) == Done <==> now < row.expiresAt && row.status in {Authorizing, Denied})
            && (Respond(db, step) == Done ==>
                  Apply(db, step) == db.(devices := db.devices[code := row.(status := Denied, state := None)]))
            && (Respond(db, step) != Done ==>
                  && Apply(db, step) == db
                  && Respond(db, step) == Refused(
                       if row.expiresAt <= now then Expired
                       else if row.status == Pending then Conflict else AlreadyUsed))
    ensures var row := db.devices[code];
            row.state.Some? ==>
              var step := RejectState(row.state.value, now, Acked);
              if now < row.expiresAt && row.status == Pending then
                && Respond(db, step) == Done
                && Apply(db, step) == db.(devices := db.devices[code := row.(status := Denied, state := None)])
              else Respond(db, step) == Refused(Unauthorized) && Apply(db, step) == db
  {
    var row := db.devices[code];
    if row.state.Some? {
      assert HasState(db, code, row.state.value);
    }
    assert db.devices[code := row] == db.devices;
  }

  predicate Rejectable(db: Database, code: Digest, now: Time) {
    code in db.devices && db.devices[code].status in {Authorizing, Denied} && now < db.devices[code].expiresAt
  }

  lemma {:induction false} RejectionWorksIff(db: Database, code: Digest, now: Time, net: Net)
    requires Sound(db)
    ensures var reply := Respond(db, RejectDevice(code, now, net));
            && (reply.Done? || reply.Refused?)
            && (net.Acked? ==> (reply.Done? <==> Rejectable(db, code, now)) && reply != Refused(Unavailable))
            && (reply.Refused? && reply.error != Unavailable ==>
                  !Rejectable(db, code, now) && Apply(db, RejectDevice(code, now, net)) == db)
  {
    if code in db.devices {
      RejectOutcome(db, code, now);
    }
  }

  /** Nobody gets anywhere with a code or a state that no authorization has. */
  lemma {:induction false} UnknownCode(
    db: Database, code: Digest, userCode: string, state: StateHash, user: User, seed: Seed, now: Time)
    requires code !in db.devices
    requires forall h :: h in db.devices ==> db.devices[h].userCode != userCode && db.devices[h].state != Some(state)
    ensures Respond(db, Exchange(code, seed, now, Acked)) == Refused(Unauthorized)
    ensures Respond(db, Complete(code, user, now, Acked)) == Refused(Unauthorized)
    ensures Respond(db, RejectDevice(code, now, Acked)) == Refused(Unauthorized)
    ensures Respond(db, Bind(userCode, state, now, Acked)) == Refused(NotFound)
    ensures Respond(db, Claim(state, now, Acked)) == Refused(Unauthorized)
    ensures Respond(db, RejectState(state, now, Acked)) == Refused(Unauthorized)
  {
  }

  /** The same transaction on another network. */
  function Under(step: Step, net: Net): Step {
    match step
    case Create(code, userCode, createdAt, expiresAt, _) => Create(code, userCode, createdAt, expiresAt, net)
    case Bind(userCode, state, now, _) => Bind(userCode, state, now, net)
    case RejectState(state, now, _) => RejectState(state, now, net)
    case Claim(state, now, _) => Claim(state, now, net)
    case LookupClaim(state, now, _) => LookupClaim(state, now, net)
    case RejectDevice(code, now, _) => RejectDevice(code, now, net)
    case Complete(code, user, now, _) => Complete(code, user, now, net)
    case Exchange(code, seed, now, _) => Exchange(code, seed, now, net)
    case GetSession(access, now, _) => GetSession(access, now, net)
    case Rotate(refresh, seed, now, _) => Rotate(refresh, seed, now, net)
    case Revoke(access, now, _) => Revoke(access, now, net)
    case Prune(before, now, _) => Prune(before, now, net)
  }

  lemma {:induction false} VerdictBeforeNet(db: Database, step: Step, net: Net)
    ensures Verdict(db, Under(step, net)) == Verdict(db, step)
  {
  }

  lemma {:induction false} WritesBeforeNet(db: Database, step: Step, net: Net)
    ensures Writes(db, Under(step, net)) == Writes(db, step)
  {
    VerdictBeforeNet(db, step, net);
  }

  lemma {:induction false} EffectBeforeNet(db: Database, step: Step, net: Net)
    requires Writes(db, step) && Writes(db, Under(step, net))
    ensures Effect(db, Under(step, net)) == Effect(db, step)
  {
    if OnRow(step) {
      assert Located(db, Under(step, net)) == Located(db, step);
    }
  }

  /**
   * The network's part: a lost acknowledgement hides what was done, an aborted commit or a failed connection
   * does nothing, and an answer that writes nothing needs no commit.
   */
  lemma {:induction false} NetworkOutcome(db: Database, step: Step)
    ensures Apply(db, Under(step, Lost)) == Apply(db, Under(step, Acked))
    ensures Apply(db, Under(step, Aborted)) == db && Apply(db, Under(step, Down)) == db
    ensures Respond(db, Under(step, Down)) == Refused(Unavailable)
    ensures Respond(db, Under(step, Lost)) == Respond(db, Under(step, Aborted))
    ensures var answer, hidden := Respond(db, Under(step, Acked)), Respond(db, Under(step, Lost));
            if Apply(db, Under(step, Acked)) == db then
              hidden == answer || hidden == Refused(Unavailable) || (hidden == Ambiguous && Confirmable(step))
            else if step.Claim? || step.Exchange? || step.Rotate? then hidden == Ambiguous
            else hidden == Refused(Unavailable)
    ensures Respond(db, Under(step, Acked)).Refused? ==>
              Respond(db, Under(step, Lost)) == Respond(db, Under(step, Acked))
  {
    WritesBeforeNet(db, step, Acked);
    WritesBeforeNet(db, step, Lost);
    WritesBeforeNet(db, step, Aborted);
    VerdictBeforeNet(db, step, Acked);
    VerdictBeforeNet(db, step, Lost);
    VerdictBeforeNet(db, step, Aborted);
    if Writes(db, step) {
      EffectBeforeNet(db, step, Acked);
      EffectBeforeNet(db, step, Lost);
    }
  }

  /** New codes can be created, taken ones cannot. */
  lemma {:induction false} CreateOutcome(db: Database, code: Digest, userCode: string, createdAt: Time, expiresAt: Time)
    ensures var step := Create(code, userCode, createdAt, expiresAt, Acked);
            if code !in db.devices && forall h :: h in db.devices ==> db.devices[h].userCode != userCode then
              && Respond(db, step) == Done
              && Apply(db, step) == db.(devices := db.devices[
                   code := Device(userCode, None, Pending, None, createdAt, expiresAt, None, None)])
            else Respond(db, step) == Refused(Conflict) && Apply(db, step) == db
  {
    var found := DeviceByUserCode(db, userCode);
    if found.None? {
      assert forall h :: h in db.devices ==> !HasUserCode(db, h, userCode);
    }
  }

  /** What a prune deletes. */
  lemma {:induction false} PruneOutcome(db: Database, before: Time, now: Time)
    ensures Respond(db, Prune(before, now, Acked)) == Done
    ensures var after := Apply(db, Prune(before, now, Acked));
            && (forall h :: h in after.devices <==> h in db.devices && before <= db.devices[h].expiresAt)
            && (forall id :: id in after.sessions <==>
                  && id in db.sessions
                  && (before <= db.sessions[id].accessExpires || before <= db.sessions[id].refreshExpires)
                  && (db.sessions[id].revokedAt.None? || before <= db.sessions[id].revokedAt.value))
            && (forall h :: h in after.devices ==> after.devices[h] == db.devices[h])
            && (forall id :: id in after.sessions ==> after.sessions[id] == db.sessions[id])
  {
  }

  /** A rotation whose acknowledgement is lost is done all the same, and its fate is open to the caller. */
  lemma {:induction false} LostRotation(db: Database, refresh: Digest, seed: Seed, now: Time)
    requires Sound(db) && SeedFree(db, seed)
    ensures Apply(db, Rotate(refresh, seed, now, Lost)) == Apply(db, Rotate(refresh, seed, now, Acked))
    ensures Renewable(db, refresh, now) ==> Respond(db, Rotate(refresh, seed, now, Lost)) == Ambiguous
  {
    var step := Rotate(refresh, seed, now, Acked);
    RefreshWorksIff(db, refresh, seed, now);
    VerdictBeforeNet(db, step, Lost);
    if Writes(db, step) {
      EffectBeforeNet(db, step, Lost);
    }
  }

  // Whole runs: sessions.

  /** The transaction is not aimed at this session, nor a prune with a cutoff past both its expiries. */
  predicate SparesSession(step: Step, row: Session) {
    match step
    case Rotate(refresh, _, _, _) => refresh != row.refresh
    case Revoke(access, _, _) => access != row.access
    case Prune(before, _, _) => before <= row.accessExpires || before <= row.refreshExpires
    case _ => true
  }

  lemma {:induction false} SessionSpared(db: Database, step: Step, id: nat)
    requires Sound(db) && id in db.sessions && db.sessions[id].revokedAt.None?
    requires Commits(db, step) ==> SparesSession(step, db.sessions[id])
    ensures id in Apply(db, step).sessions && Apply(db, step).sessions[id] == db.sessions[id]
  {
  }

  ghost predicate SessionUntouched(steps: seq<Step>, from: nat, row: Session) {
    forall q :: from <= q < |steps| && Lineage.CommittedAt(steps, q) ==> SparesSession(steps[q], row)
  }

  lemma {:induction false} SessionLasts(steps: seq<Step>, from: nat, id: nat)
    requires from <= |steps| && id in Exec(steps[..from]).sessions
    requires Exec(steps[..from]).sessions[id].revokedAt.None?
    requires SessionUntouched(steps, from, Exec(steps[..from]).sessions[id])
    ensures id in Exec(steps).sessions && Exec(steps).sessions[id] == Exec(steps[..from]).sessions[id]
  {
    if from == |steps| {
      assert steps[..from] == steps;
    } else {
      var past, p := steps[..|steps| - 1], |steps| - 1;
      assert past[..from] == steps[..from];
      forall q | from <= q < |past| && Lineage.CommittedAt(past, q)
        ensures SparesSession(past[q], Exec(steps[..from]).sessions[id])
      {
        assert past[..q] == steps[..q];
        assert Lineage.CommittedAt(steps, q);
      }
      SessionLasts(past, from, id);
      ExecSound(past);
      assert Lineage.CommittedAt(steps, p) <==> Commits(Exec(past), steps[p]);
      SessionSpared(Exec(past), steps[p], id);
    }
  }

  /** The transaction at `p` issued a session with this seed, acknowledged or not. */
  ghost predicate IssuedAt(steps: seq<Step>, p: nat) {
    Lineage.CommittedAt(steps, p) && (steps[p].Exchange? || steps[p].Rotate?)
  }

  lemma {:induction false} IssuesRow(db: Database, step: Step)
    requires Sound(db) && Commits(db, step) && (step.Exchange? || step.Rotate?)
    ensures Verdict(db, step).DoneUser?
    ensures var after := Apply(db, step);
            && db.nextId in after.sessions && after.nextId == db.nextId + 1
            && after.sessions[db.nextId] == NewSession(Verdict(db, step).user.key, step.seed, step.now)
  {
  }

  /**
   * A session that was issued stays usable with both its tokens, each until its own expiry, whatever else runs,
   * until a committed rotation or revocation of it, or a prune with a cutoff past both its expiries.
   */
  lemma {:induction false} IssuedSessionWorks(steps: seq<Step>, p: nat, seed: Seed, now: Time, net: Net)
    requires IssuedAt(steps, p) && !net.Down?
    requires var user := Verdict(Exec(steps[..p]), steps[p]).user;
             SessionUntouched(steps, p + 1, NewSession(user.key, steps[p].seed, steps[p].now))
    ensures var owner := Verdict(Exec(steps[..p]), steps[p]).user.key;
            && owner in Exec(steps).users
            && (now < steps[p].seed.refreshExpires && SeedFree(Exec(steps), seed) ==>
                  Respond(Exec(steps), Rotate(steps[p].seed.refresh, seed, now, Acked))
                  == DoneUser(UserOf(Exec(steps), owner)))
            && (now < steps[p].seed.accessExpires ==>
                  Respond(Exec(steps), GetSession(steps[p].seed.access, now, net))
                  == DoneUser(UserOf(Exec(steps), owner)))
  {
    var db := Exec(steps[..p]);
    ExecSound(steps[..p]);
    ExecSound(steps);
    IssuesRow(db, steps[p]);
    assert steps[..p + 1] == steps[..p] + [steps[p]];
    ExecSnoc(steps[..p], steps[p]);
    SessionLasts(steps, p + 1, db.nextId);
    GetSessionOutcome(Exec(steps), db.nextId, now, net);
    if SeedFree(Exec(steps), seed) {
      RotateOutcome(Exec(steps), db.nextId, seed, now);
    }
  }

  // Whole runs: authorizations.

  /** The transaction is not aimed at this row, nor a prune with a cutoff past its expiry. */
  predicate SparesDevice(step: Step, code: Digest, row: Device) {
    match step
    case Bind(userCode, _, _, _) => userCode != row.userCode
    case RejectState(state, _, _) => row.state != Some(state)
    case Claim(state, _, _) => row.state != Some(state)
    case RejectDevice(other, _, _) => other != code
    case Complete(other, _, _, _) => other != code
    case Exchange(other, _, _, _) => other != code
    case Prune(before, _, _) => before <= row.expiresAt
    case _ => true
  }

  lemma {:induction false} DeviceSpared(db: Database, step: Step, code: Digest)
    requires Sound(db) && code in db.devices
    requires Commits(db, step) ==> SparesDevice(step, code, db.devices[code])
    ensures code in Apply(db, step).devices && Apply(db, step).devices[code] == db.devices[code]
  {
  }

  ghost predicate DeviceUntouched(steps: seq<Step>, from: nat, code: Digest, row: Device) {
    forall q :: from <= q < |steps| && Lineage.CommittedAt(steps, q) ==> SparesDevice(steps[q], code, row)
  }

  lemma {:induction false} DeviceLasts(steps: seq<Step>, from: nat, code: Digest)
    requires from <= |steps| && code in Exec(steps[..from]).devices
    requires DeviceUntouched(steps, from, code, Exec(steps[..from]).devices[code])
    ensures code in Exec(steps).devices && Exec(steps).devices[code] == Exec(steps[..from]).devices[code]
  {
    if from == |steps| {
      assert steps[..from] == steps;
    } else {
      var past, p := steps[..|steps| - 1], |steps| - 1;
      assert past[..from] == steps[..from];
      forall q | from <= q < |past| && Lineage.CommittedAt(past, q)
        ensures SparesDevice(past[q], code, Exec(steps[..from]).devices[code])
      {
        assert past[..q] == steps[..q];
        assert Lineage.CommittedAt(steps, q);
      }
      DeviceLasts(past, from, code);
      ExecSound(past);
      assert Lineage.CommittedAt(steps, p) <==> Commits(Exec(past), steps[p]);
      DeviceSpared(Exec(past), steps[p], code);
    }
  }

  /** The row of `code` right after the transaction at `p`. */
  ghost predicate LeftAt(steps: seq<Step>, p: nat, code: Digest, row: Device) {
    && p < |steps| && code in Exec(steps[..p + 1]).devices && Exec(steps[..p + 1]).devices[code] == row
    && DeviceUntouched(steps, p + 1, code, row)
  }

  lemma {:induction false} LeftInPlace(steps: seq<Step>, p: nat, code: Digest, row: Device)
    requires LeftAt(steps, p, code, row)
    ensures Sound(Exec(steps)) && code in Exec(steps).devices && Exec(steps).devices[code] == row
  {
    DeviceLasts(steps, p + 1, code);
    ExecSound(steps);
  }

  lemma {:induction false} LeavesRow(steps: seq<Step>, p: nat, code: Digest, row: Device)
    requires Lineage.CommittedAt(steps, p) && code in Apply(Exec(steps[..p]), steps[p]).devices
    requires Apply(Exec(steps[..p]), steps[p]).devices[code] == row && DeviceUntouched(steps, p + 1, code, row)
    ensures LeftAt(steps, p, code, row)
  {
    assert steps[..p + 1] == steps[..p] + [steps[p]];
    ExecSnoc(steps[..p], steps[p]);
  }

  /** A code that was created can be bound to any state that no other row has, in time. */
  lemma {:induction false} CreatedCodeCanBeBound(steps: seq<Step>, p: nat, state: StateHash, now: Time)
    requires Lineage.CommittedAt(steps, p) && steps[p].Create?
    requires DeviceUntouched(steps, p + 1, steps[p].code,
                             FreshRow(steps[p].userCode, steps[p].createdAt, steps[p].expiresAt))
    requires forall g :: g in Exec(steps).devices && g != steps[p].code ==> Exec(steps).devices[g].state != Some(state)
    requires now < steps[p].expiresAt
    ensures Respond(Exec(steps), Bind(steps[p].userCode, state, now, Acked)) == Done
  {
    var row := FreshRow(steps[p].userCode, steps[p].createdAt, steps[p].expiresAt);
    LeavesRow(steps, p, steps[p].code, row);
    LeftInPlace(steps, p, steps[p].code, row);
    BindOutcome(Exec(steps), steps[p].code, state, now);
  }

  /** A state that was bound can be claimed, in time. */
  lemma {:induction false} BoundStateCanBeClaimed(steps: seq<Step>, p: nat, code: Digest, row: Device, now: Time)
    requires Lineage.CommittedAt(steps, p) && steps[p].Bind? && HasUserCode(Exec(steps[..p]), code, steps[p].userCode)
    requires row == Exec(steps[..p]).devices[code].(state := Some(steps[p].state))
    requires DeviceUntouched(steps, p + 1, code, row) && now < row.expiresAt
    ensures Respond(Exec(steps), Claim(steps[p].state, now, Acked)) == DoneDevice(code)
  {
    ExecSound(steps[..p]);
    RowWrites(Exec(steps[..p]), steps[p]);
    LeavesRow(steps, p, code, row);
    LeftInPlace(steps, p, code, row);
    ClaimOutcome(Exec(steps), code, now);
  }

  /** A claimed authorization can be completed, in time, for any user whose union ID nobody else has. */
  lemma {:induction false} ClaimedCodeCanBeCompleted(
    steps: seq<Step>, p: nat, code: Digest, row: Device, user: User, now: Time)
    requires Lineage.CommittedAt(steps, p) && steps[p].Claim? && HasState(Exec(steps[..p]), code, steps[p].state)
    requires row == Exec(steps[..p]).devices[code].(status := Authorizing)
    requires DeviceUntouched(steps, p + 1, code, row) && now < row.expiresAt && !UnionTaken(Exec(steps), user)
    ensures Respond(Exec(steps), Complete(code, user, now, Acked)) == Done
  {
    ExecSound(steps[..p]);
    LeavesRow(steps, p, code, row);
    LeftInPlace(steps, p, code, row);
    CompleteOutcome(Exec(steps), code, user, now);
  }

  /** A completed authorization can be exchanged, in time, for a session of the user it was completed for. */
  lemma {:induction false} CompletedCodeCanBeExchanged(
    steps: seq<Step>, p: nat, row: Device, seed: Seed, now: Time)
    requires Lineage.CommittedAt(steps, p) && steps[p].Complete?
    requires steps[p].code in Exec(steps[..p]).devices
    requires row == Exec(steps[..p]).devices[steps[p].code].(
                      status := Approved, holder := Some(steps[p].user.key), authorizedAt := Some(steps[p].now), state := None)
    requires DeviceUntouched(steps, p + 1, steps[p].code, row) && now < row.expiresAt && SeedFree(Exec(steps), seed)
    ensures steps[p].user.key in Exec(steps).users
    ensures Respond(Exec(steps), Exchange(steps[p].code, seed, now, Acked))
         == DoneUser(UserOf(Exec(steps), steps[p].user.key))
  {
    LeavesRow(steps, p, steps[p].code, row);
    LeftInPlace(steps, p, steps[p].code, row);
    ExchangeOutcome(Exec(steps), steps[p].code, seed, now);
  }

  // A whole login.

  /** The transaction has nothing to do with this authorization, and is no prune with a cutoff past its expiry. */
  predicate Elsewhere(step: Step, code: Digest, userCode: string, state: StateHash, expiresAt: Time) {
    match step
    case Bind(other, _, _, _) => other != userCode
    case RejectState(other, _, _) => other != state
    case Claim(other, _, _) => other != state
    case RejectDevice(other, _, _) => other != code
    case Complete(other, _, _, _) => other != code
    case Exchange(other, _, _, _) => other != code
    case Prune(before, _, _) => before <= expiresAt
    case _ => true
  }

  /** The four transactions of a login, at their places in the run. */
  datatype Login = Login(
    created: nat, bound: nat, claimed: nat, completed: nat,
    code: Digest, userCode: string, state: StateHash, user: User, createdAt: Time, expiresAt: Time)

  predicate Contains(steps: seq<Step>, l: Login) {
    && l.created < l.bound < l.claimed < l.completed < |steps|
    && steps[l.created] == Create(l.code, l.userCode, l.createdAt, l.expiresAt, Acked)
    && steps[l.bound].Bind? && steps[l.bound] == Bind(l.userCode, l.state, steps[l.bound].now, Acked)
    && steps[l.claimed].Claim? && steps[l.claimed] == Claim(l.state, steps[l.claimed].now, Acked)
    && steps[l.completed].Complete? && steps[l.completed] == Complete(l.code, l.user, steps[l.completed].now, Acked)
    && steps[l.bound].now < l.expiresAt && steps[l.claimed].now < l.expiresAt && steps[l.completed].now < l.expiresAt
  }

  /** What a login needs of the others: codes and states are not shared, and nobody acts on this authorization. */
  ghost predicate Undisturbed(steps: seq<Step>, l: Login)
    requires Contains(steps, l)
  {
    && Respond(Exec(steps[..l.created]), steps[l.created]) == Done
    && (forall q :: l.created < q < |steps| && q != l.bound && q != l.claimed && q != l.completed
          ==> Elsewhere(steps[q], l.code, l.userCode, l.state, l.expiresAt))
    && (forall g :: g in Exec(steps[..l.bound]).devices && g != l.code
          ==> Exec(steps[..l.bound]).devices[g].state != Some(l.state))
    && !UnionTaken(Exec(steps[..l.completed]), l.user)
  }

  lemma {:induction false} UntouchedUntil(steps: seq<Step>, l: Login, from: nat, upTo: nat, row: Device)
    requires Contains(steps, l) && Undisturbed(steps, l) && l.created < from <= upTo <= |steps|
    requires l.bound < from || upTo <= l.bound
    requires l.claimed < from || upTo <= l.claimed
    requires l.completed < from || upTo <= l.completed
    requires row.userCode == l.userCode && row.state in {None, Some(l.state)} && row.expiresAt == l.expiresAt
    ensures DeviceUntouched(steps[..upTo], from, l.code, row)
  {
  }

  /** Row of the login's authorization after its creation, its binding and its claim. */
  function RowOf(l: Login, state: Option<StateHash>, status: Status): Device {
    Device(l.userCode, state, status, None, l.createdAt, l.expiresAt, None, None)
  }

  /** Row of the authorization just before its binding, its claim, its completion and a later exchange. */
  lemma {:induction false} RowAfterCreation(steps: seq<Step>, l: Login, upTo: nat)
    requires Contains(steps, l) && Undisturbed(steps, l) && l.created < upTo <= l.bound
    ensures Sound(Exec(steps[..upTo])) && l.code in Exec(steps[..upTo]).devices
    ensures Exec(steps[..upTo]).devices[l.code] == RowOf(l, None, Pending)
  {
    var past := steps[..upTo];
    assert past[..l.created] == steps[..l.created];
    CreateOutcome(Exec(past[..l.created]), l.code, l.userCode, l.createdAt, l.expiresAt);
    UntouchedUntil(steps, l, l.created + 1, upTo, RowOf(l, None, Pending));
    LeavesRow(past, l.created, l.code, RowOf(l, None, Pending));
    LeftInPlace(past, l.created, l.code, RowOf(l, None, Pending));
  }

  lemma {:induction false} RowAfterBinding(steps: seq<Step>, l: Login, upTo: nat)
    requires Contains(steps, l) && Undisturbed(steps, l) && l.bound < upTo <= l.claimed
    ensures Respond(Exec(steps[..l.bound]), steps[l.bound]) == Done
    ensures Sound(Exec(steps[..upTo])) && l.code in Exec(steps[..upTo]).devices
    ensures Exec(steps[..upTo]).devices[l.code] == RowOf(l, Some(l.state), Pending)
  {
    var past, row := steps[..upTo], RowOf(l, Some(l.state), Pending);
    assert past[..l.bound] == steps[..l.bound];
    RowAfterCreation(steps, l, l.bound);
    BindOutcome(Exec(steps[..l.bound]), l.code, l.state, steps[l.bound].now);
    assert Exec(steps[..l.bound]).devices[l.code] != row;
    UntouchedUntil(steps, l, l.bound + 1, upTo, row);
    LeavesRow(past, l.bound, l.code, row);
    LeftInPlace(past, l.bound, l.code, row);
  }

  lemma {:induction false} RowAfterClaim(steps: seq<Step>, l: Login, upTo: nat)
    requires Contains(steps, l) && Undisturbed(steps, l) && l.claimed < upTo <= l.completed
    ensures Respond(Exec(steps[..l.claimed]), steps[l.claimed]) == DoneDevice(l.code)
    ensures Sound(Exec(steps[..upTo])) && l.code in Exec(steps[..upTo]).devices
    ensures Exec(steps[..upTo]).devices[l.code] == RowOf(l, Some(l.state), Authorizing)
  {
    var past, row := steps[..upTo], RowOf(l, Some(l.state), Authorizing);
    assert past[..l.claimed] == steps[..l.claimed];
    RowAfterBinding(steps, l, l.claimed);
    ClaimOutcome(Exec(steps[..l.claimed]), l.code, steps[l.claimed].now);
    UntouchedUntil(steps, l, l.claimed + 1, upTo, row);
    LeavesRow(past, l.claimed, l.code, row);
    LeftInPlace(past, l.claimed, l.code, row);
  }

  /**
   * A login in time works from end to end, whatever else the store does in between: the state is bound, its
   * claim is answered with the device code, the completion succeeds, and the device is given a session of the
   * user it was completed for.
   */
  lemma {:induction false} LoginWorks(steps: seq<Step>, l: Login, seed: Seed, now: Time)
    requires Contains(steps, l) && Undisturbed(steps, l)
    requires now < l.expiresAt && SeedFree(Exec(steps), seed)
    ensures Respond(Exec(steps[..l.bound]), steps[l.bound]) == Done
    ensures Respond(Exec(steps[..l.claimed]), steps[l.claimed]) == DoneDevice(l.code)
    ensures Respond(Exec(steps[..l.completed]), steps[l.completed]) == Done
    ensures l.user.key in Exec(steps).users
    ensures Respond(Exec(steps), Exchange(l.code, seed, now, Acked)) == DoneUser(UserOf(Exec(steps), l.user.key))
  {
    var when := steps[l.completed].now;
    RowAfterBinding(steps, l, l.claimed);
    RowAfterClaim(steps, l, l.completed);
    CompleteOutcome(Exec(steps[..l.completed]), l.code, l.user, when);
    var row := RowOf(l, None, Approved).(holder := Some(l.user.key), authorizedAt := Some(when));
    UntouchedUntil(steps, l, l.completed + 1, |steps|, row);
    assert steps[..|steps|] == steps;
    CompletedCodeCanBeExchanged(steps, l.completed, row, seed, now);
  }
}
