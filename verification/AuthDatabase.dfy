/**
 * The authentication tables as a value, and what each store transaction does to them.
 *
 * A transaction is one atomic step because it locks the row it decides on. `Verdict` is the
 * answer on a healthy network, `Effect` the new tables when the verdict is a success that writes,
 * and `Apply`/`Respond` add the network: a commit can be applied although the caller sees an error.
 */
module AuthDatabase {
  import opened Domain

  datatype Status = Pending | Authorizing | Approved | Denied | Consumed

  /** An OAuth state is derived from the user code and a browser confirmation; anything else is foreign. */
  datatype StateHash = Derived(userCode: string, confirmation: nat) | Foreign(raw: nat)

  datatype Device = Device(
    userCode: string,
    state: Option<StateHash>,
    status: Status,
    holder: Option<UserKey>,
    createdAt: Time,
    expiresAt: Time,
    authorizedAt: Option<Time>,
    consumedAt: Option<Time>)

  datatype Seed = Seed(access: Digest, refresh: Digest, accessExpires: Time, refreshExpires: Time)

  datatype Session = Session(
    owner: UserKey,
    access: Digest,
    refresh: Digest,
    accessExpires: Time,
    refreshExpires: Time,
    revokedAt: Option<Time>,
    createdAt: Time)

  datatype Profile = Profile(unionId: string, displayName: string)

  datatype Database = Database(
    devices: map<Digest, Device>,
    sessions: map<nat, Session>,
    users: map<UserKey, Profile>,
    nextId: nat)

  const EMPTY := Database(map[], map[], map[], 0)

  /** Down: nothing ran. Acked: applied and seen. Lost: applied, but the caller sees an error. Aborted: not applied. */
  datatype Net = Down | Acked | Lost | Aborted

  datatype Step =
    | Create(code: Digest, userCode: string, createdAt: Time, expiresAt: Time, net: Net)
    | Bind(userCode: string, state: StateHash, now: Time, net: Net)
    | RejectState(state: StateHash, now: Time, net: Net)
    | Claim(state: StateHash, now: Time, net: Net)
    | LookupClaim(state: StateHash, now: Time, net: Net)
    | RejectDevice(code: Digest, now: Time, net: Net)
    | Complete(code: Digest, user: User, now: Time, net: Net)
    | Exchange(code: Digest, seed: Seed, now: Time, net: Net)
    | GetSession(access: Digest, now: Time, net: Net)
    | Rotate(refresh: Digest, seed: Seed, now: Time, net: Net)
    | Revoke(access: Digest, now: Time, net: Net)
    | Prune(before: Time, now: Time, net: Net)

  datatype Reply =
    | Done
    | DoneDevice(code: Digest)
    | DoneUser(user: User)
    | Refused(error: Error)
    | Ambiguous

  // Row lookups. The UNIQUE constraints make each answer the only candidate.

  ghost predicate HasUserCode(db: Database, h: Digest, userCode: string) {
    h in db.devices && db.devices[h].userCode == userCode
  }

  ghost function DeviceByUserCode(db: Database, userCode: string): (found: Option<Digest>)
    ensures found.Some? ==> HasUserCode(db, found.value, userCode)
    ensures found.None? ==> forall h :: !HasUserCode(db, h, userCode)
  {
    if exists h :: HasUserCode(db, h, userCode)
    then var h :| HasUserCode(db, h, userCode); Some(h) else None
  }

  ghost predicate HasState(db: Database, h: Digest, state: StateHash) {
    h in db.devices && db.devices[h].state == Some(state)
  }

  ghost function DeviceByState(db: Database, state: StateHash): (found: Option<Digest>)
    ensures found.Some? ==> HasState(db, found.value, state)
    ensures found.None? ==> forall h :: !HasState(db, h, state)
  {
    if exists h :: HasState(db, h, state)
    then var h :| HasState(db, h, state); Some(h) else None
  }

  ghost predicate HasAccess(db: Database, id: nat, access: Digest) {
    id in db.sessions && db.sessions[id].access == access
  }

  ghost function SessionByAccess(db: Database, access: Digest): (found: Option<nat>)
    ensures found.Some? ==> HasAccess(db, found.value, access)
    ensures found.None? ==> forall id :: !HasAccess(db, id, access)
  {
    if exists id :: HasAccess(db, id, access)
    then var id :| HasAccess(db, id, access); Some(id) else None
  }

  ghost predicate HasRefresh(db: Database, id: nat, refresh: Digest) {
    id in db.sessions && db.sessions[id].refresh == refresh
  }

  ghost function SessionByRefresh(db: Database, refresh: Digest): (found: Option<nat>)
    ensures found.Some? ==> HasRefresh(db, found.value, refresh)
    ensures found.None? ==> forall id :: !HasRefresh(db, id, refresh)
  {
    if exists id :: HasRefresh(db, id, refresh)
    then var id :| HasRefresh(db, id, refresh); Some(id) else None
  }

  function UserOf(db: Database, key: UserKey): User
    requires key in db.users
  {
    User(key, db.users[key].unionId, db.users[key].displayName)
  }

  /** UNIQUE (access_token_hash) and UNIQUE (refresh_token_hash). */
  ghost predicate SeedTaken(db: Database, seed: Seed) {
    SessionByAccess(db, seed.access).Some? || SessionByRefresh(db, seed.refresh).Some?
  }

  /** UNIQUE (corp_id, union_id), seen by an upsert of `user`. */
  ghost predicate UnionTaken(db: Database, user: User) {
    exists key :: key in db.users && key != user.key && key.corpId == user.key.corpId
                  && db.users[key].unionId == user.unionId
  }

  ghost predicate SeedFree(db: Database, seed: Seed) {
    forall id :: id in db.sessions ==>
      db.sessions[id].access != seed.access && db.sessions[id].refresh != seed.refresh
  }

  lemma {:induction false} NotTaken(db: Database, seed: Seed)
    ensures SeedFree(db, seed) <==> !SeedTaken(db, seed)
  {
    if !SeedTaken(db, seed) {
      assert forall id :: id in db.sessions ==> !HasAccess(db, id, seed.access) && !HasRefresh(db, id, seed.refresh);
    }
  }

  function NewSession(owner: UserKey, seed: Seed, now: Time): Session {
    Session(owner, seed.access, seed.refresh, seed.accessExpires, seed.refreshExpires, None, now)
  }

  function Insert(db: Database, owner: UserKey, seed: Seed, now: Time): Database {
    db.(sessions := db.sessions[db.nextId := NewSession(owner, seed, now)], nextId := db.nextId + 1)
  }

  predicate Stale(session: Session, before: Time) {
    || (session.refreshExpires < before && session.accessExpires < before)
    || (session.revokedAt.Some? && session.revokedAt.value < before)
  }

  // The answers.

  ghost function BindVerdict(db: Database, userCode: string, state: StateHash, now: Time): Reply {
    match DeviceByUserCode(db, userCode)
    case None => Refused(NotFound)
    case Some(h) =>
      var row := db.devices[h];
      if row.expiresAt <= now then Refused(Expired)
      else if row.status != Pending then Refused(AlreadyUsed)
      else if row.state.Some? then (if row.state.value == state then Done else Refused(AlreadyUsed))
      else if DeviceByState(db, state).Some? then Refused(Conflict)
      else Done
  }

  ghost function ClaimVerdict(db: Database, state: StateHash, now: Time): Reply {
    match DeviceByState(db, state)
    case None => Refused(Unauthorized)
    case Some(h) =>
      if db.devices[h].expiresAt <= now then Refused(Expired)
      else if db.devices[h].status != Pending then Refused(AlreadyUsed)
      else DoneDevice(h)
  }

  ghost function LookupClaimVerdict(db: Database, state: StateHash, now: Time): Reply {
    match DeviceByState(db, state)
    case None => Refused(Unauthorized)
    case Some(h) =>
      if db.devices[h].status == Authorizing && now < db.devices[h].expiresAt then DoneDevice(h)
      else Refused(Unauthorized)
  }

  ghost function RejectStateVerdict(db: Database, state: StateHash, now: Time): Reply {
    match DeviceByState(db, state)
    case None => Refused(Unauthorized)
    case Some(h) =>
      if db.devices[h].status == Pending && now < db.devices[h].expiresAt then Done
      else Refused(Unauthorized)
  }

  function RejectDeviceVerdict(db: Database, code: Digest, now: Time): Reply {
    if code !in db.devices then Refused(Unauthorized)
    else if db.devices[code].expiresAt <= now then Refused(Expired)
    else match db.devices[code].status
      case Authorizing => Done
      case Denied => Done
      case Approved => Refused(AlreadyUsed)
      case Consumed => Refused(AlreadyUsed)
      case Pending => Refused(Conflict)
  }

  ghost function CompleteVerdict(db: Database, code: Digest, user: User, now: Time): Reply {
    if code !in db.devices then Refused(Unauthorized)
    else if db.devices[code].expiresAt <= now then Refused(Expired)
    else match db.devices[code].status
      case Authorizing => if UnionTaken(db, user) then Refused(Conflict) else Done
      case Approved => Refused(AlreadyUsed)
      case Consumed => Refused(AlreadyUsed)
      case Pending => Refused(Conflict)
      case Denied => Refused(Conflict)
  }

  ghost function ExchangeVerdict(db: Database, code: Digest, seed: Seed, now: Time): Reply {
    if code !in db.devices then Refused(Unauthorized)
    else if db.devices[code].expiresAt <= now then Refused(Expired)
    else match db.devices[code].status
      case Pending => Refused(AuthorizationPending)
      case Authorizing => Refused(AuthorizationPending)
      case Denied => Refused(Forbidden)
      case Consumed => Refused(AlreadyUsed)
      case Approved =>
        var holder := db.devices[code].holder;
        if holder.None? || holder.value !in db.users then Refused(Conflict)
        else if SeedTaken(db, seed) then Refused(Conflict)
        else DoneUser(UserOf(db, holder.value))
  }

  ghost function GetSessionVerdict(db: Database, access: Digest, now: Time): Reply {
    match SessionByAccess(db, access)
    case None => Refused(Unauthorized)
    case Some(id) =>
      var row := db.sessions[id];
      if row.owner in db.users && row.revokedAt.None? && now < row.accessExpires
      then DoneUser(UserOf(db, row.owner))
      else Refused(Unauthorized)
  }

  ghost function RotateVerdict(db: Database, refresh: Digest, seed: Seed, now: Time): Reply {
    match SessionByRefresh(db, refresh)
    case None => Refused(Unauthorized)
    case Some(id) =>
      var row := db.sessions[id];
      if row.owner !in db.users then Refused(Unauthorized)
      else if row.revokedAt.Some? || row.refreshExpires <= now then Refused(Unauthorized)
      else if SeedTaken(db, seed) then Refused(Conflict)
      else DoneUser(UserOf(db, row.owner))
  }

  ghost function RevokeVerdict(db: Database, access: Digest): Reply {
    match SessionByAccess(db, access)
    case None => Refused(Unauthorized)
    case Some(id) => if db.sessions[id].revokedAt.None? then Done else Refused(Unauthorized)
  }

  ghost function Verdict(db: Database, step: Step): Reply {
    match step
    case Create(code, userCode, _, _, _) =>
      if code in db.devices || DeviceByUserCode(db, userCode).Some? then Refused(Conflict) else Done
    case Bind(userCode, state, now, _) => BindVerdict(db, userCode, state, now)
    case RejectState(state, now, _) => RejectStateVerdict(db, state, now)
    case Claim(state, now, _) => ClaimVerdict(db, state, now)
    case LookupClaim(state, now, _) => LookupClaimVerdict(db, state, now)
    case RejectDevice(code, now, _) => RejectDeviceVerdict(db, code, now)
    case Complete(code, user, now, _) => CompleteVerdict(db, code, user, now)
    case Exchange(code, seed, now, _) => ExchangeVerdict(db, code, seed, now)
    case GetSession(access, now, _) => GetSessionVerdict(db, access, now)
    case Rotate(refresh, seed, now, _) => RotateVerdict(db, refresh, seed, now)
    case Revoke(access, _, _) => RevokeVerdict(db, access)
    case Prune(_, _, _) => Done
  }

  /** The step succeeds and has something to commit; reads and idempotent repeats have not. */
  ghost predicate Writes(db: Database, step: Step) {
    && !Verdict(db, step).Refused?
    && match step
       case Bind(userCode, _, _, _) => db.devices[DeviceByUserCode(db, userCode).value].state.None?
       case RejectDevice(code, _, _) => db.devices[code].status == Authorizing
       case LookupClaim(_, _, _) => false
       case GetSession(_, _, _) => false
       case _ => true
  }

  ghost predicate Commits(db: Database, step: Step) {
    (step.net.Acked? || step.net.Lost?) && Writes(db, step)
  }

  /** The steps that act on one existing device row, and the row they lock. */
  predicate OnRow(step: Step) {
    step.Bind? || step.RejectState? || step.Claim? || step.RejectDevice? || step.Complete? || step.Exchange?
  }

  ghost function Located(db: Database, step: Step): (found: Option<Digest>)
    requires OnRow(step)
    ensures found.Some? ==> found.value in db.devices
  {
    match step
    case Bind(userCode, _, _, _) => DeviceByUserCode(db, userCode)
    case RejectState(state, _, _) => DeviceByState(db, state)
    case Claim(state, _, _) => DeviceByState(db, state)
    case _ => if step.code in db.devices then Some(step.code) else None
  }

  function NewRow(row: Device, step: Step): Device
    requires OnRow(step)
  {
    match step
    case Bind(_, state, _, _) => row.(state := Some(state))
    case Claim(_, _, _) => row.(status := Authorizing)
    case Complete(_, user, now, _) =>
      row.(status := Approved, holder := Some(user.key), authorizedAt := Some(now), state := None)
    case Exchange(_, _, now, _) => row.(status := Consumed, consumedAt := Some(now))
    case _ => row.(status := Denied, state := None)
  }

  function NewUsers(users: map<UserKey, Profile>, step: Step): map<UserKey, Profile> {
    if step.Complete? then users[step.user.key := Profile(step.user.unionId, step.user.displayName)] else users
  }

  function PutRow(db: Database, h: Digest, step: Step): Database
    requires OnRow(step) && h in db.devices
  {
    db.(devices := db.devices[h := NewRow(db.devices[h], step)], users := NewUsers(db.users, step))
  }

  function RevokeRow(db: Database, id: nat, now: Time): Database
    requires id in db.sessions
  {
    db.(sessions := db.sessions[id := db.sessions[id].(revokedAt := Some(now))])
  }

  function Remaining(db: Database, before: Time): Database {
    db.(sessions := map id | id in db.sessions && !Stale(db.sessions[id], before) :: db.sessions[id],
        devices := map h | h in db.devices && before <= db.devices[h].expiresAt :: db.devices[h])
  }

  ghost function Effect(db: Database, step: Step): Database
    requires Writes(db, step)
  {
    if step.Create? then
      db.(devices := db.devices[step.code := FreshRow(step.userCode, step.createdAt, step.expiresAt)])
    else if step.Exchange? then
      Insert(PutRow(db, step.code, step), db.devices[step.code].holder.value, step.seed, step.now)
    else if OnRow(step) then
      PutRow(db, Located(db, step).value, step)
    else if step.Rotate? then
      var id := SessionByRefresh(db, step.refresh).value;
      Insert(RevokeRow(db, id, step.now), db.sessions[id].owner, step.seed, step.now)
    else if step.Revoke? then
      RevokeRow(db, SessionByAccess(db, step.access).value, step.now)
    else
      Remaining(db, step.before)
  }

  function FreshRow(userCode: string, createdAt: Time, expiresAt: Time): Device {
    Device(userCode, None, Pending, None, createdAt, expiresAt, None, None)
  }

  ghost function Apply(db: Database, step: Step): Database {
    if Commits(db, step) then Effect(db, step) else db
  }

  /** Claim, Exchange and Rotate answer a failed commit with a second look at the tables. */
  predicate Confirmable(step: Step) { step.Claim? || step.Exchange? || step.Rotate? }

  ghost function Respond(db: Database, step: Step): Reply {
    if step.net.Down? then Refused(Unavailable)
    else if !Writes(db, step) || step.net.Acked? then Verdict(db, step)
    else if Confirmable(step) then Ambiguous
    else Refused(Unavailable)
  }

  /** The tables after a whole run from the empty schema. */
  ghost function Exec(steps: seq<Step>): Database {
    if steps == [] then EMPTY else Apply(Exec(steps[..|steps| - 1]), steps[|steps| - 1])
  }

  lemma {:induction false} ExecSnoc(steps: seq<Step>, step: Step)
    ensures Exec(steps + [step]) == Apply(Exec(steps), step)
  {
    assert (steps + [step])[..|steps|] == steps;
  }

  // What every reachable database satisfies.

  ghost predicate UniqueDevices(db: Database) {
    && (forall g, h :: g in db.devices && h in db.devices && g != h
          ==> db.devices[g].userCode != db.devices[h].userCode)
    && (forall g, h :: g in db.devices && h in db.devices && g != h && db.devices[g].state.Some?
          ==> db.devices[g].state != db.devices[h].state)
  }

  ghost predicate UniqueSessions(db: Database) {
    && (forall i, j :: i in db.sessions && j in db.sessions && i != j
          ==> db.sessions[i].access != db.sessions[j].access)
    && (forall i, j :: i in db.sessions && j in db.sessions && i != j
          ==> db.sessions[i].refresh != db.sessions[j].refresh)
    && (forall i :: i in db.sessions ==> i < db.nextId && db.sessions[i].owner in db.users)
  }

  predicate SoundDevice(row: Device) {
    && (row.holder.Some? <==> row.status in {Approved, Consumed})
    && (row.state.Some? ==> row.status in {Pending, Authorizing})
    && (row.authorizedAt.Some? <==> row.status in {Approved, Consumed})
    && (row.consumedAt.Some? <==> row.status == Consumed)
  }

  ghost predicate Sound(db: Database) {
    && UniqueDevices(db)
    && UniqueSessions(db)
    && (forall h :: h in db.devices ==> SoundDevice(db.devices[h]))
    && (forall h :: h in db.devices && db.devices[h].holder.Some? ==> db.devices[h].holder.value in db.users)
  }

  /** Schema constraints and the status/column couplings survive every transaction, whatever the network does. */
  lemma {:induction false} ApplySound(db: Database, step: Step)
    requires Sound(db)
    ensures Sound(Apply(db, step))
  {
    if Commits(db, step) {
      if step.Exchange? || step.Rotate? || step.Revoke? || step.Prune? {
        SessionEffectSound(db, step);
      } else {
        DeviceEffectSound(db, step);
      }
    }
  }

  lemma {:induction false} DeviceEffectSound(db: Database, step: Step)
    requires Sound(db) && Writes(db, step)
    requires step.Create? || (OnRow(step) && !step.Exchange?)
    ensures Sound(Effect(db, step))
  {
    if step.Create? {
      assert forall h :: h in db.devices ==> !HasUserCode(db, h, step.userCode);
      PutDeviceSound(db, step.code, FreshRow(step.userCode, step.createdAt, step.expiresAt));
    } else {
      RowWrites(db, step);
      PutRowSound(db, Located(db, step).value, step);
    }
  }

  lemma {:induction false} SessionEffectSound(db: Database, step: Step)
    requires Sound(db) && Writes(db, step)
    requires step.Exchange? || step.Rotate? || step.Revoke? || step.Prune?
    ensures Sound(Effect(db, step))
  {
    match step
    case Exchange(code, seed, now, _) => {
      RowWrites(db, step);
      PutRowSound(db, code, step);
      InsertSound(PutRow(db, code, step), db.devices[code].holder.value, seed, now);
    }
    case Rotate(refresh, seed, now, _) => {
      var id := SessionByRefresh(db, refresh).value;
      NotTaken(db, seed);
      RevokeSound(db, id, now);
      InsertSound(RevokeRow(db, id, now), db.sessions[id].owner, seed, now);
    }
    case Revoke(access, now, _) => { RevokeSound(db, SessionByAccess(db, access).value, now); }
    case Prune(_, _, _) => {}
  }

  /** What a committing transaction has checked on the row it locked. */
  predicate RowGuard(row: Device, step: Step)
    requires OnRow(step)
  {
    && step.now < row.expiresAt
    && match step
       case Bind(userCode, _, _, _) => row.status == Pending && row.state.None? && row.userCode == userCode
       case RejectState(state, _, _) => row.status == Pending && row.state == Some(state)
       case Claim(state, _, _) => row.status == Pending && row.state == Some(state)
       case Exchange(_, _, _, _) => row.status == Approved && row.holder.Some?
       case _ => row.status == Authorizing
  }

  lemma {:induction false} RowWrites(db: Database, step: Step)
    requires OnRow(step) && Writes(db, step)
    ensures Located(db, step).Some?
    ensures RowGuard(db.devices[Located(db, step).value], step)
    ensures step.Bind? ==> forall g :: g in db.devices ==> db.devices[g].state != Some(step.state)
    ensures step.Exchange? ==> SeedFree(db, step.seed) && db.devices[step.code].holder.value in db.users
  {
    assert step.Bind? ==> forall g :: g in db.devices ==> !HasState(db, g, step.state);
    if step.Exchange? { NotTaken(db, step.seed); }
  }

  lemma {:induction false} PutRowSound(db: Database, h: Digest, step: Step)
    requires Sound(db) && OnRow(step) && h in db.devices && RowGuard(db.devices[h], step)
    requires step.Bind? ==> forall g :: g in db.devices ==> db.devices[g].state != Some(step.state)
    ensures Sound(PutRow(db, h, step))
  {
    PutDeviceSound(db.(users := NewUsers(db.users, step)), h, NewRow(db.devices[h], step));
  }

  lemma {:induction false} PutDeviceSound(db: Database, h: Digest, row: Device)
    requires Sound(db) && SoundDevice(row)
    requires row.holder.Some? ==> row.holder.value in db.users
    requires forall g :: g in db.devices && g != h ==> db.devices[g].userCode != row.userCode
    requires row.state.Some? ==> forall g :: g in db.devices && g != h ==> db.devices[g].state != row.state
    ensures Sound(db.(devices := db.devices[h := row]))
  {
  }

  lemma {:induction false} RevokeSound(db: Database, id: nat, now: Time)
    requires Sound(db) && id in db.sessions
    ensures Sound(RevokeRow(db, id, now))
  {
  }

  lemma {:induction false} InsertSound(db: Database, owner: UserKey, seed: Seed, now: Time)
    requires Sound(db) && owner in db.users && SeedFree(db, seed)
    ensures Sound(Insert(db, owner, seed, now))
  {
  }

  lemma {:induction false} ExecSound(steps: seq<Step>)
    ensures Sound(Exec(steps))
  {
    if steps != [] {
      ExecSound(steps[..|steps| - 1]);
      ApplySound(Exec(steps[..|steps| - 1]), steps[|steps| - 1]);
    }
  }
}
