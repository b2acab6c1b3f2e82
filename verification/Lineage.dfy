/**
 * Where sessions come from, over whole runs.
 *
 * `Advance` follows a run beside the tables: every authorization ever created gets a serial number
 * and a record of the positions at which it was claimed, completed and exchanged, and every session
 * ever inserted gets the serial of the authorization it descends from. The record survives pruning.
 */
module Lineage {
  import opened Domain
  import opened AuthDatabase

  datatype Track = Track(
    code: Digest,
    expiresAt: Time,
    created: nat,
    claimed: Option<nat>,
    completed: Option<nat>,
    owner: Option<UserKey>,
    exchanged: Option<nat>)

  datatype World = World(db: Database, serial: map<Digest, nat>, tracks: seq<Track>, origin: map<nat, nat>)

  function NewTrack(t: Track, step: Step, position: nat): Track {
    match step
    case Claim(_, _, _) => t.(claimed := Some(position))
    case Complete(_, user, _, _) => t.(completed := Some(position), owner := Some(user.key))
    case Exchange(_, _, _, _) => t.(exchanged := Some(position))
    case _ => t
  }

  /** The serial of the authorization whose row the step locks. */
  ghost function Serial(w: World, step: Step): Option<nat> {
    if OnRow(step) && Located(w.db, step).Some? && Located(w.db, step).value in w.serial
       && w.serial[Located(w.db, step).value] < |w.tracks|
    then Some(w.serial[Located(w.db, step).value]) else None
  }

  ghost function NewTracks(w: World, step: Step, position: nat): seq<Track> {
    if step.Create? then w.tracks + [Track(step.code, step.expiresAt, position, None, None, None, None)]
    else match Serial(w, step)
      case None => w.tracks
      case Some(k) => w.tracks[k := NewTrack(w.tracks[k], step, position)]
  }

  function NewSerial(w: World, step: Step, devices: map<Digest, Device>): map<Digest, nat> {
    if step.Create? then w.serial[step.code := |w.tracks|]
    else map h | h in w.serial && h in devices :: w.serial[h]
  }

  /** An exchange starts the lineage of its authorization; a rotation continues that of the revoked session. */
  ghost function NewOrigin(w: World, step: Step): map<nat, nat> {
    if step.Exchange? && Serial(w, step).Some? then w.origin[w.db.nextId := Serial(w, step).value]
    else if step.Rotate? && SessionByRefresh(w.db, step.refresh).Some?
            && SessionByRefresh(w.db, step.refresh).value in w.origin
    then w.origin[w.db.nextId := w.origin[SessionByRefresh(w.db, step.refresh).value]]
    else w.origin
  }

  ghost function Advance(w: World, step: Step, position: nat): World {
    if !Commits(w.db, step) then w
    else
      var db := Apply(w.db, step);
      World(db, NewSerial(w, step, db.devices), NewTracks(w, step, position), NewOrigin(w, step))
  }

  ghost function Follow(steps: seq<Step>): World {
    if steps == [] then World(EMPTY, map[], [], map[])
    else Advance(Follow(steps[..|steps| - 1]), steps[|steps| - 1], |steps| - 1)
  }

  // What a track records about the run.

  ghost predicate CommittedAt(steps: seq<Step>, p: nat) {
    p < |steps| && Commits(Exec(steps[..p]), steps[p])
  }

  ghost predicate CreatedAs(steps: seq<Step>, p: nat, code: Digest, expiresAt: Time) {
    CommittedAt(steps, p) && steps[p].Create? && steps[p].code == code && steps[p].expiresAt == expiresAt
  }

  ghost predicate ClaimedAs(steps: seq<Step>, p: nat, code: Digest, expiresAt: Time) {
    && CommittedAt(steps, p) && steps[p].Claim? && steps[p].now < expiresAt
    && Verdict(Exec(steps[..p]), steps[p]) == DoneDevice(code)
  }

  ghost predicate CompletedAs(steps: seq<Step>, p: nat, code: Digest, expiresAt: Time, owner: UserKey) {
    && CommittedAt(steps, p) && steps[p].Complete? && steps[p].now < expiresAt
    && steps[p].code == code && steps[p].user.key == owner
  }

  ghost predicate ExchangedAs(steps: seq<Step>, p: nat, code: Digest, expiresAt: Time, owner: UserKey) {
    && CommittedAt(steps, p) && steps[p].Exchange? && steps[p].now < expiresAt && steps[p].code == code
    && Verdict(Exec(steps[..p]), steps[p]).DoneUser?
    && Verdict(Exec(steps[..p]), steps[p]).user.key == owner
  }

  /** The recorded stages happened, in order, each before the authorization expired. */
  ghost predicate Recorded(steps: seq<Step>, t: Track) {
    && CreatedAs(steps, t.created, t.code, t.expiresAt)
    && (t.claimed.Some? ==> t.created < t.claimed.value && ClaimedAs(steps, t.claimed.value, t.code, t.expiresAt))
    && (t.owner.Some? <==> t.completed.Some?)
    && (t.completed.Some? ==>
          && t.claimed.Some? && t.claimed.value < t.completed.value
          && CompletedAs(steps, t.completed.value, t.code, t.expiresAt, t.owner.value))
    && (t.exchanged.Some? ==>
          && t.completed.Some? && t.completed.value < t.exchanged.value
          && ExchangedAs(steps, t.exchanged.value, t.code, t.expiresAt, t.owner.value))
  }

  /** What the track of a present row knows is what the row says. */
  predicate Matches(h: Digest, row: Device, t: Track) {
    && t.code == h && t.expiresAt == row.expiresAt && t.owner == row.holder
    && (row.status in {Authorizing, Approved, Consumed} ==> t.claimed.Some?)
    && (row.status in {Approved, Consumed} <==> t.completed.Some?)
    && (row.status == Consumed <==> t.exchanged.Some?)
  }

  ghost predicate RowsTracked(w: World) {
    && w.serial.Keys == w.db.devices.Keys
    && (forall h :: h in w.serial ==>
          w.serial[h] < |w.tracks| && Matches(h, w.db.devices[h], w.tracks[w.serial[h]]))
    && (forall g, h :: g in w.serial && h in w.serial && g != h ==> w.serial[g] != w.serial[h])
  }

  ghost predicate SessionsTracked(w: World) {
    && (forall id: nat :: id in w.origin <==> id < w.db.nextId)
    && (forall id :: id in w.origin ==> w.origin[id] < |w.tracks| && w.tracks[w.origin[id]].exchanged.Some?
                                        && w.tracks[w.origin[id]].owner.Some?)
    && (forall id :: id in w.db.sessions ==>
          id in w.origin && Some(w.db.sessions[id].owner) == w.tracks[w.origin[id]].owner)
  }

  predicate Live(db: Database, id: nat) {
    id in db.sessions && db.sessions[id].revokedAt.None?
  }

  ghost predicate OneLive(w: World) {
    forall i, j :: (Live(w.db, i) && Live(w.db, j) && i in w.origin && j in w.origin
                    && w.origin[i] == w.origin[j]) ==> i == j
  }

  ghost predicate Tracked(w: World) {
    RowsTracked(w) && SessionsTracked(w) && OneLive(w)
  }

  /** One present row and its track change together. */
  function PutWorld(w: World, h: Digest, row: Device, t: Track, users: map<UserKey, Profile>): World
    requires h in w.serial && w.serial[h] < |w.tracks|
  {
    World(w.db.(devices := w.db.devices[h := row], users := users),
          w.serial, w.tracks[w.serial[h] := t], w.origin)
  }

  lemma {:induction false} PutTracked(w: World, h: Digest, row: Device, t: Track, users: map<UserKey, Profile>)
    requires Tracked(w) && h in w.serial && Matches(h, row, t)
    requires w.tracks[w.serial[h]].exchanged.Some? ==> t.exchanged.Some? && t.owner == w.tracks[w.serial[h]].owner
    ensures Tracked(PutWorld(w, h, row, t, users))
  {
    PutRowsTracked(w, h, row, t, users);
    PutSessionsTracked(w, h, row, t, users);
  }

  lemma {:induction false} PutRowsTracked(w: World, h: Digest, row: Device, t: Track, users: map<UserKey, Profile>)
    requires RowsTracked(w) && h in w.serial && Matches(h, row, t)
    ensures RowsTracked(PutWorld(w, h, row, t, users))
  {
  }

  lemma {:induction false} PutSessionsTracked(w: World, h: Digest, row: Device, t: Track, users: map<UserKey, Profile>)
    requires SessionsTracked(w) && h in w.serial && w.serial[h] < |w.tracks|
    requires w.tracks[w.serial[h]].exchanged.Some? ==> t.exchanged.Some? && t.owner == w.tracks[w.serial[h]].owner
    ensures SessionsTracked(PutWorld(w, h, row, t, users))
  {
  }

  lemma {:induction false} CreateTracked(w: World, h: Digest, row: Device, t: Track)
    requires Tracked(w) && h !in w.serial && Matches(h, row, t)
    ensures Tracked(World(w.db.(devices := w.db.devices[h := row]),
                          w.serial[h := |w.tracks|], w.tracks + [t], w.origin))
  {
  }

  function InsertWorld(w: World, k: nat, seed: Seed, owner: UserKey, now: Time): World {
    World(Insert(w.db, owner, seed, now), w.serial, w.tracks, w.origin[w.db.nextId := k])
  }

  /** A session enters the lineage of an exchanged authorization that has no live session. */
  lemma {:induction false} InsertTracked(w: World, k: nat, seed: Seed, owner: UserKey, now: Time)
    requires Tracked(w) && k < |w.tracks| && w.tracks[k].exchanged.Some? && w.tracks[k].owner == Some(owner)
    requires forall id :: Live(w.db, id) && id in w.origin ==> w.origin[id] != k
    ensures Tracked(InsertWorld(w, k, seed, owner, now))
  {
  }

  lemma {:induction false} RevokeTracked(w: World, id: nat, now: Time)
    requires Tracked(w) && id in w.db.sessions
    ensures Tracked(w.(db := RevokeRow(w.db, id, now)))
  {
  }

  lemma {:induction false} PruneTracked(w: World, before: Time)
    requires Tracked(w)
    ensures var db := Remaining(w.db, before);
            Tracked(World(db, map h | h in w.serial && h in db.devices :: w.serial[h], w.tracks, w.origin))
  {
  }

  lemma {:induction false} AdvanceTracked(w: World, step: Step, position: nat)
    requires Sound(w.db) && Tracked(w)
    ensures Tracked(Advance(w, step, position))
  {
    if Commits(w.db, step) {
      if step.Create? || step.Prune? {
        RowsChangeTracked(w, step, position);
      } else {
        RowsStayTracked(w, step, position);
      }
    }
  }

  lemma {:induction false} RowsChangeTracked(w: World, step: Step, position: nat)
    requires Tracked(w) && Commits(w.db, step) && (step.Create? || step.Prune?)
    ensures Tracked(Advance(w, step, position))
  {
    var db := Effect(w.db, step);
    if step.Create? {
      var t := Track(step.code, step.expiresAt, position, None, None, None, None);
      CreateTracked(w, step.code, FreshRow(step.userCode, step.createdAt, step.expiresAt), t);
      assert Advance(w, step, position) == World(db, w.serial[step.code := |w.tracks|], w.tracks + [t], w.origin);
    } else {
      PruneTracked(w, step.before);
      assert Advance(w, step, position)
          == World(db, map h | h in w.serial && h in db.devices :: w.serial[h], w.tracks, w.origin);
    }
  }

  lemma {:induction false} RowsStayTracked(w: World, step: Step, position: nat)
    requires Sound(w.db) && Tracked(w) && Commits(w.db, step) && !step.Create? && !step.Prune?
    ensures Tracked(Advance(w, step, position))
  {
    AdvanceInPlace(w, step, position);
    if step.Exchange? {
      ExchangeTracked(w, step, position);
    } else if OnRow(step) {
      RowTracked(w, step, position);
    } else if step.Rotate? {
      RotateTracked(w, step);
    } else {
      RevokeTracked(w, SessionByAccess(w.db, step.access).value, step.now);
    }
  }

  lemma {:induction false} AdvanceInPlace(w: World, step: Step, position: nat)
    requires RowsTracked(w) && Commits(w.db, step) && !step.Create? && !step.Prune?
    ensures Advance(w, step, position)
         == World(Effect(w.db, step), w.serial, NewTracks(w, step, position), NewOrigin(w, step))
  {
  }

  /** The step's row is tracked, and its record is the one that moves. */
  lemma {:induction false} RowSerial(w: World, step: Step, position: nat)
    requires RowsTracked(w) && OnRow(step) && Located(w.db, step).Some?
    ensures var h := Located(w.db, step).value;
            && h in w.serial && w.serial[h] < |w.tracks| && Matches(h, w.db.devices[h], w.tracks[w.serial[h]])
            && Serial(w, step) == Some(w.serial[h])
            && NewTracks(w, step, position) == w.tracks[w.serial[h] := NewTrack(w.tracks[w.serial[h]], step, position)]
  {
  }

  lemma {:induction false} RowTracked(w: World, step: Step, position: nat)
    requires Sound(w.db) && Tracked(w) && OnRow(step) && Writes(w.db, step)
    ensures Serial(w, step).Some?
    ensures Tracked(World(PutRow(w.db, Located(w.db, step).value, step),
                          w.serial, NewTracks(w, step, position), w.origin))
  {
    RowWrites(w.db, step);
    RowSerial(w, step, position);
    LocatedTracked(w, step, position, Located(w.db, step).value);
  }

  lemma {:induction false} LocatedTracked(w: World, step: Step, position: nat, h: Digest)
    requires Tracked(w) && OnRow(step) && h in w.serial && w.serial[h] < |w.tracks| && h in w.db.devices
    requires SoundDevice(w.db.devices[h]) && RowGuard(w.db.devices[h], step)
    requires Matches(h, w.db.devices[h], w.tracks[w.serial[h]])
    ensures Tracked(World(PutRow(w.db, h, step), w.serial,
                          w.tracks[w.serial[h] := NewTrack(w.tracks[w.serial[h]], step, position)], w.origin))
  {
    var row, t := w.db.devices[h], w.tracks[w.serial[h]];
    RowMatches(h, row, t, step, position);
    PutTracked(w, h, NewRow(row, step), NewTrack(t, step, position), NewUsers(w.db.users, step));
  }

  lemma {:induction false} RowMatches(h: Digest, row: Device, t: Track, step: Step, position: nat)
    requires SoundDevice(row) && OnRow(step) && RowGuard(row, step) && Matches(h, row, t)
    ensures Matches(h, NewRow(row, step), NewTrack(t, step, position)) && t.exchanged.None?
  {
  }

  /** The new session is the first of its authorization, which had none before it was exchanged. */
  lemma {:induction false} ExchangeTracked(w: World, step: Step, position: nat)
    requires Sound(w.db) && Tracked(w) && step.Exchange? && Writes(w.db, step)
    ensures Tracked(World(Effect(w.db, step), w.serial, NewTracks(w, step, position), NewOrigin(w, step)))
  {
    RowTracked(w, step, position);
    RowWrites(w.db, step);
    var k := w.serial[step.code];
    RowMatches(step.code, w.db.devices[step.code], w.tracks[k], step, position);
    var mid := World(PutRow(w.db, step.code, step), w.serial, NewTracks(w, step, position), w.origin);
    InsertTracked(mid, k, step.seed, w.db.devices[step.code].holder.value, step.now);
  }

  /** The new session takes the place of the one it revokes. */
  lemma {:induction false} RotateTracked(w: World, step: Step)
    requires Tracked(w) && step.Rotate? && Writes(w.db, step)
    ensures Tracked(World(Effect(w.db, step), w.serial, w.tracks, NewOrigin(w, step)))
  {
    var id := SessionByRefresh(w.db, step.refresh).value;
    assert Live(w.db, id);
    RevokeTracked(w, id, step.now);
    InsertTracked(w.(db := RevokeRow(w.db, id, step.now)), w.origin[id], step.seed, w.db.sessions[id].owner, step.now);
  }

  // The record of a run stays true as the run grows.

  lemma {:induction false} RecordedLater(steps: seq<Step>, step: Step, t: Track)
    requires Recorded(steps, t)
    ensures Recorded(steps + [step], t)
  {
    assert forall p: nat :: p < |steps| ==> (steps + [step])[..p] == steps[..p];
  }

  lemma {:induction false} StageRecorded(steps: seq<Step>, step: Step, t: Track, row: Device)
    requires Recorded(steps, t) && OnRow(step) && Commits(Exec(steps), step)
    requires Located(Exec(steps), step) == Some(t.code) && Exec(steps).devices[t.code] == row
    requires Matches(t.code, row, t)
    ensures Recorded(steps + [step], NewTrack(t, step, |steps|))
  {
    RecordedLater(steps, step, t);
    RowWrites(Exec(steps), step);
    assert (steps + [step])[..|steps|] == steps;
    assert CommittedAt(steps + [step], |steps|);
  }

  ghost predicate AllRecorded(steps: seq<Step>, tracks: seq<Track>) {
    forall k :: 0 <= k < |tracks| ==> Recorded(steps, tracks[k])
  }

  lemma {:induction false} AllRecordedLater(steps: seq<Step>, step: Step, tracks: seq<Track>)
    requires AllRecorded(steps, tracks)
    ensures AllRecorded(steps + [step], tracks)
  {
    forall k | 0 <= k < |tracks|
      ensures Recorded(steps + [step], tracks[k])
    {
      RecordedLater(steps, step, tracks[k]);
    }
  }

  lemma {:induction false} CreationRecorded(steps: seq<Step>, step: Step)
    requires step.Create? && Commits(Exec(steps), step)
    ensures Recorded(steps + [step], Track(step.code, step.expiresAt, |steps|, None, None, None, None))
  {
  }

  lemma {:induction false} AdvanceRecorded(steps: seq<Step>, w: World, step: Step)
    requires w.db == Exec(steps) && RowsTracked(w) && AllRecorded(steps, w.tracks)
    ensures AllRecorded(steps + [step], Advance(w, step, |steps|).tracks)
  {
    AllRecordedLater(steps, step, w.tracks);
    if Commits(w.db, step) {
      assert Advance(w, step, |steps|).tracks == NewTracks(w, step, |steps|);
      if step.Create? {
        CreationRecorded(steps, step);
      } else if Serial(w, step).Some? {
        var h, k := Located(w.db, step).value, Serial(w, step).value;
        StageRecorded(steps, step, w.tracks[k], w.db.devices[h]);
      }
    }
  }

  lemma {:induction false} FollowRun(steps: seq<Step>)
    ensures Follow(steps).db == Exec(steps) && Tracked(Follow(steps)) && AllRecorded(steps, Follow(steps).tracks)
  {
    if steps != [] {
      var past, step := steps[..|steps| - 1], steps[|steps| - 1];
      FollowRun(past);
      ExecSound(past);
      AdvanceTracked(Follow(past), step, |past|);
      AdvanceRecorded(past, Follow(past), step);
      assert past + [step] == steps;
      assert Follow(steps) == Advance(Follow(past), step, |past|);
    }
  }

  // The theorems.

  /** Two sessions of one run that descend from the same authorization. */
  ghost predicate Siblings(steps: seq<Step>, i: nat, j: nat) {
    && i in Follow(steps).origin && j in Follow(steps).origin
    && Follow(steps).origin[i] == Follow(steps).origin[j]
  }

  /**
   * In every reachable state, whatever the interleaving, the lost acknowledgements and the pruning,
   * an authorization has at most one session that is not revoked.
   */
  lemma {:induction false} SingleLiveDescendant(steps: seq<Step>, i: nat, j: nat)
    requires Live(Exec(steps), i) && Live(Exec(steps), j) && Siblings(steps, i, j)
    ensures i == j
  {
    FollowRun(steps);
  }

  datatype Journey = Journey(code: Digest, expiresAt: Time, created: nat, claimed: nat, completed: nat, exchanged: nat)

  /** The authorization `j` was created, claimed, completed for `owner` and exchanged, in that order and in time. */
  ghost predicate Travelled(steps: seq<Step>, j: Journey, owner: UserKey) {
    && j.created < j.claimed < j.completed < j.exchanged < |steps|
    && CreatedAs(steps, j.created, j.code, j.expiresAt)
    && ClaimedAs(steps, j.claimed, j.code, j.expiresAt)
    && CompletedAs(steps, j.completed, j.code, j.expiresAt, owner)
    && ExchangedAs(steps, j.exchanged, j.code, j.expiresAt, owner)
  }

  function JourneyOf(t: Track): Journey
    requires t.claimed.Some? && t.completed.Some? && t.exchanged.Some?
  {
    Journey(t.code, t.expiresAt, t.created, t.claimed.value, t.completed.value, t.exchanged.value)
  }

  /** The session descends from an authorization that travelled all the way for this owner. */
  ghost predicate Originates(steps: seq<Step>, id: nat, owner: UserKey) {
    && id in Follow(steps).origin && Follow(steps).origin[id] < |Follow(steps).tracks|
    && var t := Follow(steps).tracks[Follow(steps).origin[id]];
       && t.claimed.Some? && t.completed.Some? && t.exchanged.Some?
       && Travelled(steps, JourneyOf(t), owner)
  }

  /** Every session in the table of any reachable state belongs to the user its own authorization was completed for. */
  lemma {:induction false} SessionProvenance(steps: seq<Step>, id: nat)
    requires id in Exec(steps).sessions
    ensures Originates(steps, id, Exec(steps).sessions[id].owner)
  {
    FollowRun(steps);
    assert Recorded(steps, Follow(steps).tracks[Follow(steps).origin[id]]);
  }

  /** The step at `m` inserted the session, for this owner. */
  ghost predicate InsertedAt(steps: seq<Step>, m: nat, id: nat, owner: UserKey) {
    && CommittedAt(steps, m) && Exec(steps[..m]).nextId == id
    && id in Exec(steps[..m + 1]).sessions && Exec(steps[..m + 1]).sessions[id].owner == owner
  }

  /** The step at `m` rotated the session `parent`, which descends from the same authorization. */
  ghost predicate Succeeds(steps: seq<Step>, m: nat, origin: map<nat, nat>, id: nat, parent: nat) {
    && m < |steps| && steps[m].Rotate? && SessionByRefresh(Exec(steps[..m]), steps[m].refresh) == Some(parent)
    && parent < id && id in origin && parent in origin && origin[parent] == origin[id]
  }

  /** How a session came about: as the first of its authorization, or by rotating a sibling. */
  ghost predicate BornAt(steps: seq<Step>, w: World, m: nat, id: nat) {
    && id in w.origin && w.origin[id] < |w.tracks| && w.tracks[w.origin[id]].owner.Some?
    && InsertedAt(steps, m, id, w.tracks[w.origin[id]].owner.value)
    && (if steps[m].Exchange? then w.tracks[w.origin[id]].exchanged == Some(m)
        else exists parent :: Succeeds(steps, m, w.origin, id, parent))
  }

  /** An exchanged authorization's record never changes again. */
  lemma {:induction false} ExchangedIsFinal(w: World, step: Step, position: nat, k: nat)
    requires Sound(w.db) && Tracked(w) && k < |w.tracks| && w.tracks[k].exchanged.Some? && Commits(w.db, step)
    ensures k < |NewTracks(w, step, position)| && NewTracks(w, step, position)[k] == w.tracks[k]
  {
    if !step.Create? && Serial(w, step) == Some(k) {
      RowWrites(w.db, step);
      var h := Located(w.db, step).value;
      RowMatches(h, w.db.devices[h], w.tracks[k], step, position);
    }
  }

  /** `later` knows every session of `w`, under the same authorization. */
  predicate OriginsKept(w: World, later: World) {
    forall id :: id in w.origin ==> id in later.origin && later.origin[id] == w.origin[id]
  }

  lemma {:induction false} AdvanceKeepsOrigins(w: World, step: Step, position: nat)
    requires SessionsTracked(w)
    ensures OriginsKept(w, Advance(w, step, position))
  {
  }

  lemma {:induction false} BornEarlier(steps: seq<Step>, step: Step, w: World, later: World, m: nat, id: nat)
    requires BornAt(steps, w, m, id) && OriginsKept(w, later)
    requires w.origin[id] < |later.tracks| && later.tracks[w.origin[id]] == w.tracks[w.origin[id]]
    ensures BornAt(steps + [step], later, m, id)
  {
    var more := steps + [step];
    assert more[..m] == steps[..m] && more[..m + 1] == steps[..m + 1] && more[m] == steps[m];
    if !steps[m].Exchange? {
      var parent :| Succeeds(steps, m, w.origin, id, parent);
      assert Succeeds(more, m, later.origin, id, parent);
    }
  }

  lemma {:induction false} BornBefore(steps: seq<Step>, step: Step, m: nat, id: nat)
    requires BornAt(steps, Follow(steps), m, id)
    ensures BornAt(steps + [step], Follow(steps + [step]), m, id)
  {
    var w := Follow(steps);
    FollowRun(steps);
    ExecSound(steps);
    FollowSnoc(steps, step);
    AdvanceKeepsOrigins(w, step, |steps|);
    if Commits(w.db, step) {
      ExchangedIsFinal(w, step, |steps|, w.origin[id]);
    }
    BornEarlier(steps, step, w, Follow(steps + [step]), m, id);
  }

  lemma {:induction false} FollowSnoc(steps: seq<Step>, step: Step)
    ensures Follow(steps + [step]) == Advance(Follow(steps), step, |steps|)
  {
    assert (steps + [step])[..|steps|] == steps;
  }

  /** Only an exchange or a rotation enters a session, the next one, and it enters it for its lineage's owner. */
  lemma {:induction false} Newborn(w: World, step: Step, position: nat, id: nat)
    requires Sound(w.db) && Tracked(w) && id in Advance(w, step, position).origin && id !in w.origin
    ensures Commits(w.db, step) && (step.Exchange? || step.Rotate?) && id == w.db.nextId
    ensures id in Effect(w.db, step).sessions
    ensures step.Exchange? ==> Serial(w, step) == Some(Advance(w, step, position).origin[id])
    ensures step.Rotate? ==>
      var parent := SessionByRefresh(w.db, step.refresh);
      parent.Some? && parent.value in w.origin && w.origin[parent.value] == Advance(w, step, position).origin[id]
  {
  }

  lemma {:induction false} ExchangeRecorded(w: World, step: Step, position: nat)
    requires step.Exchange? && Commits(w.db, step) && Serial(w, step).Some?
    ensures var k := Serial(w, step).value;
            k < |Advance(w, step, position).tracks| && Advance(w, step, position).tracks[k].exchanged == Some(position)
  {
  }

  lemma {:induction false} OwnerTracked(w: World, id: nat)
    requires SessionsTracked(w) && id in w.db.sessions
    ensures id in w.origin && w.origin[id] < |w.tracks|
    ensures w.tracks[w.origin[id]].owner == Some(w.db.sessions[id].owner)
  {
  }

  lemma {:induction false} BornByExchange(steps: seq<Step>, step: Step, w: World, id: nat)
    requires w == Follow(steps) && w.db == Exec(steps) && step.Exchange? && Commits(w.db, step) && id == w.db.nextId
    requires id in Effect(w.db, step).sessions && SessionsTracked(Advance(w, step, |steps|))
    requires Serial(w, step).Some? && id in Advance(w, step, |steps|).origin
    requires Serial(w, step) == Some(Advance(w, step, |steps|).origin[id])
    ensures BornAt(steps + [step], Advance(w, step, |steps|), |steps|, id)
  {
    NewbornInserted(steps, step, id);
    ExchangeRecorded(w, step, |steps|);
    OwnerTracked(Advance(w, step, |steps|), id);
  }

  lemma {:induction false} BornByRotation(steps: seq<Step>, step: Step, w: World, id: nat, parent: nat)
    requires w == Follow(steps) && w.db == Exec(steps) && step.Rotate? && Commits(w.db, step) && id == w.db.nextId
    requires id in Effect(w.db, step).sessions && SessionsTracked(Advance(w, step, |steps|))
    requires SessionByRefresh(w.db, step.refresh) == Some(parent) && parent in w.origin && parent < id
    requires OriginsKept(w, Advance(w, step, |steps|)) && id in Advance(w, step, |steps|).origin
    requires w.origin[parent] == Advance(w, step, |steps|).origin[id]
    ensures BornAt(steps + [step], Advance(w, step, |steps|), |steps|, id)
  {
    NewbornInserted(steps, step, id);
    OwnerTracked(Advance(w, step, |steps|), id);
    NewbornSucceeds(steps, step, Advance(w, step, |steps|).origin, id, parent);
  }

  lemma {:induction false} BornNow(steps: seq<Step>, step: Step, id: nat)
    requires id in Follow(steps + [step]).origin && id !in Follow(steps).origin
    ensures BornAt(steps + [step], Follow(steps + [step]), |steps|, id)
  {
    var w := Follow(steps);
    FollowRun(steps);
    FollowRun(steps + [step]);
    ExecSound(steps);
    FollowSnoc(steps, step);
    Newborn(w, step, |steps|, id);
    if step.Exchange? {
      BornByExchange(steps, step, w, id);
    } else {
      AdvanceKeepsOrigins(w, step, |steps|);
      BornByRotation(steps, step, w, id, SessionByRefresh(w.db, step.refresh).value);
    }
  }

  lemma {:induction false} NewbornInserted(steps: seq<Step>, step: Step, id: nat)
    requires Commits(Exec(steps), step) && id == Exec(steps).nextId && id in Effect(Exec(steps), step).sessions
    ensures InsertedAt(steps + [step], |steps|, id, Exec(steps + [step]).sessions[id].owner)
    ensures (steps + [step])[|steps|] == step && Exec(steps + [step]) == Effect(Exec(steps), step)
  {
    ExecSnoc(steps, step);
    assert (steps + [step])[..|steps|] == steps && (steps + [step])[..|steps| + 1] == steps + [step];
  }

  lemma {:induction false} NewbornSucceeds(steps: seq<Step>, step: Step, origin: map<nat, nat>, id: nat, parent: nat)
    requires step.Rotate? && SessionByRefresh(Exec(steps), step.refresh) == Some(parent) && parent < id
    requires id in origin && parent in origin && origin[parent] == origin[id]
    ensures Succeeds(steps + [step], |steps|, origin, id, parent)
  {
    assert (steps + [step])[..|steps|] == steps;
  }

  /**
   * Every session ever inserted, also one deleted since, was inserted for its authorization's user, either by
   * the one exchange of that authorization or by rotating an earlier session of the same authorization.
   */
  lemma {:induction false} SessionAncestry(steps: seq<Step>, id: nat)
    requires id < Exec(steps).nextId
    ensures exists m :: BornAt(steps, Follow(steps), m, id)
  {
    FollowRun(steps);
    var past, step := steps[..|steps| - 1], steps[|steps| - 1];
    assert steps == past + [step];
    FollowRun(past);
    if id in Follow(past).origin {
      SessionAncestry(past, id);
      var m :| BornAt(past, Follow(past), m, id);
      BornBefore(past, step, m, id);
    } else {
      BornNow(past, step, id);
    }
  }

  /** The sessions of one authorization all carry the same corporation and user. */
  lemma {:induction false} SiblingsShareUser(steps: seq<Step>, i: nat, j: nat)
    requires Siblings(steps, i, j) && i in Exec(steps).sessions && j in Exec(steps).sessions
    ensures Exec(steps).sessions[i].owner == Exec(steps).sessions[j].owner
  {
    FollowRun(steps);
  }
}
