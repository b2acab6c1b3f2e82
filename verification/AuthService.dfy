/**
 * The authorization service above the store.
 *
 * Between any two store calls of one request, other requests and replicas may run any transactions:
 * `Interfere` executes the steps an adversary chooses. The adversary also decides, per call, what the
 * network does and what the clock reads.
 */
module AuthService {
  import opened Domain
  import opened AuthDatabase
  import opened AuthStore
  import CommitOutcomes
  import Lineage
  import Availability

  const REJECTION_TIMEOUT: Time := 5 * SECOND
  const REJECTION_RETRY_DELAY: Time := 100_000_000
  const CREATE_ATTEMPTS := 5

  datatype Adversary = Adversary(
    others: nat -> seq<Step>,
    net: nat -> Net,
    clock: nat -> Time,
    spent: nat -> nat)

  datatype IdentityToken = IdentityToken(accessToken: string, corpId: string)

  /** What the identity provider answers to this request's authorization code. */
  datatype Identity = Identity(
    token: Answer<IdentityToken>,
    profile: Answer<Profile>,
    userId: Answer<string>)

  /** All three answers arrived, for the configured corporation, and nothing the broker needs is empty. */
  predicate Vouches(identity: Identity, corpId: string) {
    && identity.token.Answered? && identity.token.value.corpId == corpId && identity.token.value.accessToken != ""
    && identity.profile.Answered? && identity.profile.value.unionId != ""
    && identity.userId.Answered? && identity.userId.value != ""
  }

  /** The user the provider vouches for, or the first check that fails. */
  function Verify(identity: Identity, corpId: string): (user: Answer<User>)
    ensures user.Answered? <==> Vouches(identity, corpId)
    ensures user.Answered? ==>
      user.value == User(UserKey(corpId, identity.userId.value), identity.profile.value.unionId,
                         identity.profile.value.displayName)
    ensures identity.token.Failed? ==> user == Failed(identity.token.error)
    ensures identity.token.Answered? && identity.token.value.corpId != corpId ==> user == Failed(Forbidden)
  {
    if identity.token.Failed? then Failed(identity.token.error)
    else if identity.token.value.corpId != corpId then Failed(Forbidden)
    else if identity.token.value.accessToken == "" then Failed(Upstream)
    else if identity.profile.Failed? then Failed(identity.profile.error)
    else if identity.profile.value.unionId == "" then Failed(Upstream)
    else if identity.userId.Failed? then Failed(identity.userId.error)
    else if identity.userId.value == "" then Failed(Upstream)
    else Answered(User(UserKey(identity.token.value.corpId, identity.userId.value),
                       identity.profile.value.unionId, identity.profile.value.displayName))
  }

  datatype Completion =
    | Completed
    | NotClaimed(error: Error)
    | Closed(error: Error)
    | Unclosed(error: Error, rejection: Error)

  /** A completion in the history names a user of the configured corporation with a non-empty identity. */
  predicate Vouched(step: Step, corpId: string) {
    step.Complete? ==>
      step.user.key.corpId == corpId && step.user.key.userId != "" && step.user.unionId != ""
  }

  predicate AllVouched(steps: seq<Step>, corpId: string) {
    forall p :: 0 <= p < |steps| ==> Vouched(steps[p], corpId)
  }

  ghost predicate Honest(adversary: Adversary, corpId: string) {
    forall i :: AllVouched(adversary.others(i), corpId)
  }

  /** When every completion was vouched for, every session belongs to a named user of the corporation. */
  lemma {:induction false} SessionsAreVouched(steps: seq<Step>, corpId: string, id: nat)
    requires AllVouched(steps, corpId) && id in Exec(steps).sessions
    ensures Exec(steps).sessions[id].owner.corpId == corpId && Exec(steps).sessions[id].owner.userId != ""
  {
    Lineage.SessionProvenance(steps, id);
    var w := Lineage.Follow(steps);
    assert Vouched(steps[Lineage.JourneyOf(w.tracks[w.origin[id]]).completed], corpId);
  }

  /** Other requests run `steps` on the same database. */
  method Interfere(store: Store, steps: seq<Step>)
    requires store.Valid()
    modifies store
    ensures store.Valid() && store.log == old(store.log) + steps
  {
    var i := 0;
    while i < |steps|
      invariant 0 <= i <= |steps|
      invariant store.Valid() && store.log == old(store.log) + steps[..i]
    {
      RunStep(store, steps[i]);
      i := i + 1;
    }
  }

  method RunStep(store: Store, step: Step)
    requires store.Valid()
    modifies store
    ensures store.Valid() && store.log == old(store.log) + [step]
  {
    match step
    case Create(code, userCode, createdAt, expiresAt, net) =>
      var _ := store.CreateDeviceAuthorization(code, userCode, createdAt, expiresAt, net);
    case Bind(userCode, state, now, net) => var _ := store.BindOAuthState(userCode, state, now, net);
    case RejectState(state, now, net) => var _ := store.RejectOAuthState(state, now, net);
    case Claim(state, now, net) => var _ := store.ClaimOAuthState(state, now, net);
    case LookupClaim(state, now, net) => var _ := store.GetClaimedOAuthState(state, now, net);
    case RejectDevice(code, now, net) => var _ := store.RejectDeviceAuthorization(code, now, net);
    case Complete(code, user, now, net) => var _ := store.CompleteDeviceAuthorization(code, user, now, net);
    case Exchange(code, seed, now, net) => var _ := store.ExchangeDeviceAuthorization(code, seed, now, net);
    case GetSession(access, now, net) => var _ := store.GetSessionByAccessToken(access, now, net);
    case Rotate(refresh, seed, now, net) => var _ := store.RotateSession(refresh, seed, now, net);
    case Revoke(access, now, net) => var _ := store.RevokeSession(access, now, net);
    case Prune(before, now, net) => var _ := store.PruneAuthenticationState(before, now, net);
  }

  predicate DeniedRow(db: Database, code: Digest) {
    code in db.devices && db.devices[code].status == Denied
  }

  /** The step at `p` of the history is this request's claim, or its second look, answered with `code`. */
  ghost predicate AnsweredAt(log: seq<Step>, p: nat, state: StateHash, code: Digest) {
    && p < |log| && (log[p].Claim? || log[p].LookupClaim?) && log[p].state == state
    && Respond(Exec(log[..p]), log[p]) == DoneDevice(code)
  }

  /** Since `from`, a claim of the state, or a second look at it, was answered with the authorization `code`. */
  ghost predicate ClaimAnswered(log: seq<Step>, from: nat, state: StateHash, code: Digest) {
    exists p: nat :: from <= p && AnsweredAt(log, p, state, code)
  }

  lemma {:induction false} AnsweredLater(log: seq<Step>, later: seq<Step>, from: nat, state: StateHash, code: Digest)
    requires log <= later && ClaimAnswered(log, from, state, code)
    ensures ClaimAnswered(later, from, state, code)
  {
    var p: nat :| from <= p && AnsweredAt(log, p, state, code);
    assert later[..p] == log[..p];
    assert AnsweredAt(later, p, state, code);
  }

  lemma {:induction false} AnsweredNow(log: seq<Step>, step: Step, from: nat, state: StateHash, code: Digest)
    requires from <= |log| && (step.Claim? || step.LookupClaim?) && step.state == state
    requires Respond(Exec(log), step) == DoneDevice(code)
    ensures ClaimAnswered(log + [step], from, state, code)
  {
    assert (log + [step])[..|log|] == log;
    assert AnsweredAt(log + [step], |log|, state, code);
  }

  /** A creation under these codes conflicted. */
  ghost predicate ConflictedAt(log: seq<Step>, p: nat, code: Digest, userCode: string) {
    && p < |log| && log[p].Create? && log[p].code == code && log[p].userCode == userCode
    && Respond(Exec(log[..p]), log[p]) == Refused(Conflict)
  }

  ghost predicate Conflicted(log: seq<Step>, from: nat, code: Digest, userCode: string) {
    exists p: nat :: from <= p && ConflictedAt(log, p, code, userCode)
  }

  lemma {:induction false} ConflictedLater(log: seq<Step>, later: seq<Step>, from: nat, code: Digest, userCode: string)
    requires log <= later && Conflicted(log, from, code, userCode)
    ensures Conflicted(later, from, code, userCode)
  {
    var p: nat :| from <= p && ConflictedAt(log, p, code, userCode);
    assert later[..p] == log[..p];
    assert ConflictedAt(later, p, code, userCode);
  }

  lemma {:induction false} ConflictedNow(log: seq<Step>, step: Step, from: nat)
    requires from <= |log| && step.Create? && Respond(Exec(log), step) == Refused(Conflict)
    ensures Conflicted(log + [step], from, step.code, step.userCode)
  {
    assert (log + [step])[..|log|] == log;
    assert ConflictedAt(log + [step], |log|, step.code, step.userCode);
  }

  /** Each of the first `draws` draws conflicted. */
  ghost predicate AllConflicted(
    log: seq<Step>, from: nat, codes: nat -> Digest, userCodes: nat -> string, draws: int)
  {
    forall k: nat | k < draws :: Conflicted(log, from, codes(k), userCodes(k))
  }

  lemma {:induction false} NextDraw(
    before: seq<Step>, past: seq<Step>, log: seq<Step>, from: nat, codes: nat -> Digest, userCodes: nat -> string,
    draws: nat, reply: Reply)
    requires AllConflicted(before, from, codes, userCodes, draws) && before <= past && from <= |past|
    requires |log| == |past| + 1 && past == log[..|past|] && log[|past|].Create?
    requires log[|past|].code == codes(draws) && log[|past|].userCode == userCodes(draws)
    requires reply == Respond(Exec(past), log[|past|])
    ensures AllConflicted(log, from, codes, userCodes, if reply == Refused(Conflict) then draws + 1 else draws)
  {
    assert log == past + [log[|past|]];
    forall k: nat | k < draws
      ensures Conflicted(log, from, codes(k), userCodes(k))
    {
      ConflictedLater(before, log, from, codes(k), userCodes(k));
    }
    if reply == Refused(Conflict) {
      ConflictedNow(past, log[|past|], from);
    }
  }

  /** What the tries from `start` to before `tick` took, with the pauses between them. */
  function Elapsed(adversary: Adversary, start: nat, tick: nat): nat
    requires start <= tick
  {
    if tick == start then 0 else Elapsed(adversary, start, tick - 1) + adversary.spent(tick - 1) + REJECTION_RETRY_DELAY
  }

  class Service {
    const store: Store
    const corpId: string
    const deviceCodeTTL: Time
    const accessTokenTTL: Time
    const refreshTokenTTL: Time

    constructor (store: Store, corpId: string, deviceCodeTTL: Time, accessTokenTTL: Time, refreshTokenTTL: Time)
      ensures this.store == store && this.corpId == corpId && this.deviceCodeTTL == deviceCodeTTL
      ensures this.accessTokenTTL == accessTokenTTL && this.refreshTokenTTL == refreshTokenTTL
    {
      this.store, this.corpId, this.deviceCodeTTL := store, corpId, deviceCodeTTL;
      this.accessTokenTTL, this.refreshTokenTTL := accessTokenTTL, refreshTokenTTL;
    }

    /**
     * Draw codes until the store accepts them, at most five times and only after a conflict.
     * The `k`-th draw is `codes(k)` with `userCodes(k)`; the last one drawn is the one reported.
     */
    method CreateDeviceAuthorization(codes: nat -> Digest, userCodes: nat -> string, adversary: Adversary)
      returns (reply: Reply, attempts: nat)
      requires store.Valid()
      modifies store
      ensures store.Valid() && old(store.log) <= store.log
      ensures 1 <= attempts <= 5
      ensures var k := attempts - 1;
              reply.Done? ==>
                && codes(k) in store.Db().devices
                && store.Db().devices[codes(k)]
                   == FreshRow(userCodes(k), adversary.clock(k), adversary.clock(k) + deviceCodeTTL)
      ensures reply.Done? || (reply.Refused? && (reply.error == Conflict ==> attempts == 5))
      ensures adversary.net(attempts - 1).Acked? ==> reply.Done? || reply == Refused(Conflict)
      ensures AllConflicted(store.log, |old(store.log)|, codes, userCodes,
                            if reply == Refused(Conflict) then attempts else attempts - 1)
    {
      attempts := 0;
      reply := Refused(Conflict);
      while attempts < CREATE_ATTEMPTS && reply == Refused(Conflict)
        invariant store.Valid() && old(store.log) <= store.log
        invariant attempts <= CREATE_ATTEMPTS && (attempts == 0 ==> reply == Refused(Conflict))
        invariant reply.Done? || reply.Refused?
        invariant attempts > 0 && adversary.net(attempts - 1).Acked? ==> reply.Done? || reply == Refused(Conflict)
        invariant AllConflicted(store.log, |old(store.log)|, codes, userCodes,
                                if reply == Refused(Conflict) then attempts else attempts - 1)
        invariant reply.Done? ==>
          && attempts > 0 && codes(attempts - 1) in store.Db().devices
          && store.Db().devices[codes(attempts - 1)]
             == FreshRow(userCodes(attempts - 1), adversary.clock(attempts - 1),
                         adversary.clock(attempts - 1) + deviceCodeTTL)
      {
        ghost var before := store.log;
        Interfere(store, adversary.others(attempts));
        var now := adversary.clock(attempts);
        ghost var past := store.log;
        reply := store.CreateDeviceAuthorization(
          codes(attempts), userCodes(attempts), now, now + deviceCodeTTL, adversary.net(attempts));
        NextDraw(before, past, store.log, |old(store.log)|, codes, userCodes, attempts, reply);
        attempts := attempts + 1;
      }
    }

    /** One try, after others had their turn. */
    method TryRejection(code: Digest, adversary: Adversary, tick: nat) returns (reply: Reply)
      requires store.Valid() && Honest(adversary, corpId) && AllVouched(store.log, corpId)
      modifies store
      ensures store.Valid() && AllVouched(store.log, corpId) && old(store.log) <= store.log
      ensures reply.Done? || reply.Refused?
      ensures reply.Done? ==> DeniedRow(store.Db(), code)
      ensures reply == Refused(Unavailable) ==> !adversary.net(tick).Acked?
      ensures reply.Refused? && reply.error != Unavailable ==>
        !Availability.Rejectable(store.Db(), code, adversary.clock(tick))
    {
      Interfere(store, adversary.others(tick));
      ExecSound(store.log);
      Availability.RejectionWorksIff(store.Db(), code, adversary.clock(tick), adversary.net(tick));
      reply := store.RejectDeviceAuthorization(code, adversary.clock(tick), adversary.net(tick));
    }

    /**
     * Deny the claimed authorization, retrying while the database is unavailable and time remains.
     * Success means the row is denied, whoever denied it and whether or not an earlier try was applied; a
     * refusal means it cannot be denied; and the loop gives up only when no try was acknowledged until the end.
     */
    method RejectClaimedAuthorization(code: Digest, adversary: Adversary, start: nat)
      returns (failure: Option<Error>, tick: nat)
      requires store.Valid() && Honest(adversary, corpId) && AllVouched(store.log, corpId)
      modifies store
      ensures store.Valid() && AllVouched(store.log, corpId)
      ensures old(store.log) <= store.log
      ensures failure.None? ==> DeniedRow(store.Db(), code)
      ensures start < tick <= start + 51
      ensures failure == Some(Unavailable) ==>
        && (forall k :: start <= k < tick ==> !adversary.net(k).Acked?)
        && 5 * SECOND < Elapsed(adversary, start, tick)
      ensures failure.Some? && failure != Some(Unavailable) ==>
        !Availability.Rejectable(store.Db(), code, adversary.clock(tick - 1))
    {
      tick := start;
      var elapsed: int := 0;
      while true
        invariant store.Valid() && AllVouched(store.log, corpId)
        invariant old(store.log) <= store.log
        invariant tick >= start && 0 <= elapsed && (tick - start) * REJECTION_RETRY_DELAY <= elapsed
        invariant elapsed <= REJECTION_TIMEOUT && elapsed == Elapsed(adversary, start, tick)
        invariant forall k :: start <= k < tick ==> !adversary.net(k).Acked?
        decreases REJECTION_TIMEOUT - elapsed
      {
        var reply := TryRejection(code, adversary, tick);
        elapsed := elapsed + adversary.spent(tick);
        tick := tick + 1;
        if reply.Done? {
          return None, tick;
        }
        if reply.error != Unavailable {
          return Some(reply.error), tick;
        }
        if elapsed + REJECTION_RETRY_DELAY > REJECTION_TIMEOUT {
          return Some(reply.error), tick;
        }
        elapsed := elapsed + REJECTION_RETRY_DELAY;
      }
    }

    /** The first try: a code, a refusal, or an answer that leaves the commit's fate open. */
    method TryClaim(state: StateHash, adversary: Adversary) returns (reply: Reply)
      requires store.Valid()
      modifies store
      ensures store.Valid() && (reply.DoneDevice? || reply.Refused? || reply.Ambiguous?)
      ensures store.log == old(store.log) + [Claim(state, adversary.clock(0), adversary.net(0))]
      ensures reply.DoneDevice? ==> ClaimAnswered(store.log, |old(store.log)|, state, reply.code)
      ensures adversary.net(0).Acked? ==>
        !reply.Ambiguous? && (reply.DoneDevice? <==> Availability.Claimable(old(store.Db()), state, adversary.clock(0)))
    {
      ExecSound(store.log);
      Availability.ClaimWorksIff(store.Db(), state, adversary.clock(0));
      ghost var past := store.log;
      reply := store.ClaimOAuthState(state, adversary.clock(0), adversary.net(0));
      if reply.DoneDevice? {
        AnsweredNow(past, Claim(state, adversary.clock(0), adversary.net(0)), |past|, state, reply.code);
      }
    }

    /** The second look, after others had their turn. */
    method LookAtClaim(state: StateHash, adversary: Adversary) returns (reply: Reply)
      requires store.Valid()
      modifies store
      ensures store.Valid()
      ensures store.log == old(store.log) + adversary.others(0) + [LookupClaim(state, adversary.clock(0), adversary.net(1))]
      ensures reply.DoneDevice? ==> ClaimAnswered(store.log, |old(store.log)|, state, reply.code)
      ensures reply.DoneDevice? <==>
        !adversary.net(1).Down?
        && Availability.Claimed(Exec(old(store.log) + adversary.others(0)), state, adversary.clock(0))
      ensures reply.DoneDevice? || reply == Refused(Unavailable)
    {
      ghost var start := |store.log|;
      Interfere(store, adversary.others(0));
      ghost var past := store.log;
      ExecSound(past);
      Availability.LookupWorksIff(store.Db(), state, adversary.clock(0), adversary.net(1));
      reply := store.GetClaimedOAuthState(state, adversary.clock(0), adversary.net(1));
      if reply.DoneDevice? {
        AnsweredNow(past, LookupClaim(state, adversary.clock(0), adversary.net(1)), start, state, reply.code);
      } else {
        reply := Refused(Unavailable);
      }
    }

    /** Claim the state, looking it up again when the commit's fate is unknown. */
    method ClaimState(state: StateHash, adversary: Adversary) returns (reply: Reply)
      requires store.Valid()
      modifies store
      ensures store.Valid() && (reply.DoneDevice? || reply.Refused?)
      ensures old(store.log) <= store.log
      ensures reply.DoneDevice? ==> ClaimAnswered(store.log, |old(store.log)|, state, reply.code)
      ensures forall p :: |old(store.log)| <= p < |store.log| ==>
                store.log[p] in adversary.others(0) || store.log[p].Claim? || store.log[p].LookupClaim?
      ensures adversary.net(0).Acked? ==>
        && (reply.DoneDevice? <==> Availability.Claimable(old(store.Db()), state, adversary.clock(0)))
        && store.log == old(store.log) + [Claim(state, adversary.clock(0), Acked)]
    {
      reply := TryClaim(state, adversary);
      if reply.Ambiguous? {
        reply := LookAtClaim(state, adversary);
      }
    }

    /** After this history and the transactions in between, the verified user can be entered for the authorization. */
    ghost predicate CompletableThen(log: seq<Step>, code: Digest, identity: Identity, adversary: Adversary)
      requires Vouches(identity, corpId)
    {
      Availability.Completable(
        Exec(log + adversary.others(1)), code,
        User(UserKey(corpId, identity.userId.value), identity.profile.value.unionId, identity.profile.value.displayName),
        adversary.clock(2))
    }

    /**
     * Claim the state, verify the user and complete; any failure after the claim rejects the row.
     * `code` is the authorization that the claim of this request's state was answered with.
     */
    method CompleteAuthorization(state: StateHash, identity: Identity, adversary: Adversary)
      returns (result: Completion, code: Digest)
      requires store.Valid() && Honest(adversary, corpId) && AllVouched(store.log, corpId)
      modifies store
      ensures store.Valid() && AllVouched(store.log, corpId)
      ensures old(store.log) <= store.log
      ensures result.Completed? ==>
        && Vouches(identity, corpId)
        && var key := UserKey(corpId, identity.userId.value);
        && code in store.devices && store.devices[code].status == Approved && store.devices[code].holder == Some(key)
        && key in store.users
        && store.users[key] == Profile(identity.profile.value.unionId, identity.profile.value.displayName)
      ensures adversary.net(0).Acked? && adversary.net(2).Acked? ==>
        (result.Completed? <==>
           && Availability.Claimable(old(store.Db()), state, adversary.clock(0)) && Vouches(identity, corpId)
           && CompletableThen(old(store.log) + [Claim(state, adversary.clock(0), Acked)], code, identity, adversary))
      ensures !result.NotClaimed? ==> ClaimAnswered(store.log, |old(store.log)|, state, code)
      ensures result.Closed? ==> DeniedRow(store.Db(), code)
      ensures result.NotClaimed? ==>
        forall p :: |old(store.log)| <= p < |store.log| ==>
          store.log[p] in adversary.others(0) || store.log[p].Claim? || store.log[p].LookupClaim?
    {
      code := 0;
      var claimed := ClaimState(state, adversary);
      if claimed.Refused? {
        return NotClaimed(claimed.error), code;
      }
      code := claimed.code;
      ghost var answered := store.log;
      var user := Verify(identity, corpId);
      var failure := Upstream;
      if user.Failed? {
        failure := user.error;
      } else {
        var completed := CompleteVouched(code, user.value, adversary);
        if completed.Done? {
          AnsweredLater(answered, store.log, |old(store.log)|, state, code);
          return Completed, code;
        }
        failure := completed.error;
      }
      var rejection, _ := RejectClaimedAuthorization(code, adversary, 3);
      AnsweredLater(answered, store.log, |old(store.log)|, state, code);
      result := if rejection.None? then Closed(failure) else Unclosed(failure, rejection.value);
    }

    method CompleteVouched(code: Digest, user: User, adversary: Adversary) returns (reply: Reply)
      requires store.Valid() && Honest(adversary, corpId) && AllVouched(store.log, corpId)
      requires user.key.corpId == corpId && user.key.userId != "" && user.unionId != ""
      modifies store
      ensures store.Valid() && AllVouched(store.log, corpId)
      ensures old(store.log) <= store.log
      ensures reply.Done? || reply.Refused?
      ensures reply.Done? ==>
        && code in store.devices && store.devices[code].status == Approved && store.devices[code].holder == Some(user.key)
        && user.key in store.users && store.users[user.key] == Profile(user.unionId, user.displayName)
      ensures adversary.net(2).Acked? ==>
        (reply.Done? <==>
           Availability.Completable(Exec(old(store.log) + adversary.others(1)), code, user, adversary.clock(2)))
    {
      Interfere(store, adversary.others(1));
      Availability.CompleteWorksIff(store.Db(), code, user, adversary.clock(2));
      reply := store.CompleteDeviceAuthorization(code, user, adversary.clock(2), adversary.net(2));
    }

    function NewSeed(access: Digest, refresh: Digest, now: Time): Seed {
      Seed(access, refresh, now + accessTokenTTL, now + refreshTokenTTL)
    }

    /**
     * The step is known to have issued its row: the commit was acknowledged, or the database answered the
     * second look and the row this very step inserted is there and usable.
     */
    ghost predicate Issued(before: Database, step: Step, second: Net)
      reads store
      requires step.Exchange? || step.Rotate?
    {
      && Verdict(before, step).DoneUser?
      && (step.net.Acked?
          || (step.net.Lost? && !second.Down? && CommitOutcomes.Usable(store.Db(), before.nextId, step.now)))
    }

    /** Look the new access token up after a commit whose fate is unknown, while others go on. */
    method ConfirmSessionCommit(ghost before: Database, ghost step: Step, adversary: Adversary, access: Digest, now: Time)
      returns (reply: Reply)
      requires store.Valid() && (step.Exchange? || step.Rotate?) && now == step.now && access == step.seed.access
      requires Respond(before, step) == Ambiguous && store.Db() == Apply(before, step)
      requires SeedFree(before, step.seed) && CommitOutcomes.NoneMints(adversary.others(0), access)
      modifies store
      ensures store.Valid() && !reply.Ambiguous?
      ensures reply.DoneUser? <==> Issued(before, step, adversary.net(1))
      ensures reply.DoneUser? ==> reply.user.key == Verdict(before, step).user.key
    {
      ghost var past := store.log;
      Interfere(store, adversary.others(0));
      CommitOutcomes.ExecFromExec(past, adversary.others(0));
      CommitOutcomes.ConfirmationIsExact(before, step, adversary.others(0), now, adversary.net(1));
      reply := store.GetSessionByAccessToken(access, now, adversary.net(1));
      if reply.Refused? {
        reply := Refused(Unavailable);
      }
    }

    /** Success exactly when the rotation is known to have issued the new session. */
    method Refresh(refresh: Digest, newAccess: Digest, newRefresh: Digest, adversary: Adversary)
      returns (reply: Reply)
      requires store.Valid()
      requires SeedFree(store.Db(), NewSeed(newAccess, newRefresh, adversary.clock(0)))
      requires CommitOutcomes.NoneMints(adversary.others(0), newAccess)
      modifies store
      ensures store.Valid() && !reply.Ambiguous?
      ensures var step := Rotate(refresh, NewSeed(newAccess, newRefresh, adversary.clock(0)), adversary.clock(1),
                                 adversary.net(0));
              && (reply.DoneUser? <==> Issued(old(store.Db()), step, adversary.net(1)))
              && (reply.DoneUser? ==> reply.user.key == Verdict(old(store.Db()), step).user.key)
      ensures reply.DoneUser? ==> Lineage.Live(store.Db(), old(store.nextId))
      ensures adversary.net(0).Acked? ==>
        && (reply.DoneUser? <==> Availability.Renewable(old(store.Db()), refresh, adversary.clock(1)))
        && (reply.DoneUser? || reply == Refused(Unauthorized))
      ensures adversary.net(0).Acked? && reply.DoneUser? ==>
        && old(store.nextId) in store.sessions
        && store.sessions[old(store.nextId)]
           == Session(reply.user.key, newAccess, newRefresh, adversary.clock(0) + accessTokenTTL,
                      adversary.clock(0) + refreshTokenTTL, None, adversary.clock(1))
    {
      var seed := NewSeed(newAccess, newRefresh, adversary.clock(0));
      var now := adversary.clock(1);
      ghost var before, step := store.Db(), Rotate(refresh, seed, now, adversary.net(0));
      ExecSound(store.log);
      Availability.RefreshWorksIff(before, refresh, seed, now);
      reply := store.RotateSession(refresh, seed, now, adversary.net(0));
      if reply.Ambiguous? {
        reply := ConfirmSessionCommit(before, step, adversary, newAccess, now);
      }
    }

    /** Success exactly when the exchange is known to have issued the first session. */
    method ExchangeDeviceAuthorization(code: Digest, newAccess: Digest, newRefresh: Digest, adversary: Adversary)
      returns (reply: Reply)
      requires store.Valid()
      requires SeedFree(store.Db(), NewSeed(newAccess, newRefresh, adversary.clock(0)))
      requires CommitOutcomes.NoneMints(adversary.others(0), newAccess)
      modifies store
      ensures store.Valid() && !reply.Ambiguous?
      ensures var step := Exchange(code, NewSeed(newAccess, newRefresh, adversary.clock(0)), adversary.clock(1),
                                 adversary.net(0));
              && (reply.DoneUser? <==> Issued(old(store.Db()), step, adversary.net(1)))
              && (reply.DoneUser? ==> reply.user.key == Verdict(old(store.Db()), step).user.key)
      ensures reply.DoneUser? ==> Lineage.Live(store.Db(), old(store.nextId))
      ensures adversary.net(0).Acked? ==>
        (reply.DoneUser? <==>
           && code in old(store.devices) && old(store.devices)[code].status == Approved
           && adversary.clock(1) < old(store.devices)[code].expiresAt)
      ensures adversary.net(0).Acked? && reply.DoneUser? ==>
        && old(store.devices)[code].holder == Some(reply.user.key)
        && old(store.nextId) in store.sessions
        && store.sessions[old(store.nextId)]
           == Session(reply.user.key, newAccess, newRefresh, adversary.clock(0) + accessTokenTTL,
                      adversary.clock(0) + refreshTokenTTL, None, adversary.clock(1))
    {
      var seed := NewSeed(newAccess, newRefresh, adversary.clock(0));
      var now := adversary.clock(1);
      ghost var before, step := store.Db(), Exchange(code, seed, now, adversary.net(0));
      ExecSound(store.log);
      if code in store.devices {
        Availability.ExchangeOutcome(before, code, seed, now);
      }
      reply := store.ExchangeDeviceAuthorization(code, seed, now, adversary.net(0));
      if reply.Ambiguous? {
        reply := ConfirmSessionCommit(before, step, adversary, newAccess, now);
      }
    }
  }
}
