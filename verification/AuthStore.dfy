/**
 * The PostgreSQL store: one method per transaction, updating the tables in place.
 *
 * `log` is the ghost history of the transactions every replica has run; `Valid` says the tables are
 * exactly what that history produces, so each theorem about runs speaks about every valid store.
 */
module AuthStore {
  import opened Domain
  import opened AuthDatabase

  class Store {
    var devices: map<Digest, Device>
    var sessions: map<nat, Session>
    var users: map<UserKey, Profile>
    var nextId: nat
    ghost var log: seq<Step>

    function Db(): Database
      reads this
    {
      Database(devices, sessions, users, nextId)
    }

    ghost predicate Valid()
      reads this
    {
      Db() == Exec(log)
    }

    /** `step` ran on `before` after the history `past`, and answered `reply`. */
    ghost predicate Ran(before: Database, past: seq<Step>, step: Step, reply: Reply)
      reads this
    {
      && Valid()
      && log == past + [step]
      && Db() == Apply(before, step)
      && reply == Respond(before, step)
    }

    constructor ()
      ensures Valid() && log == []
    {
      devices, sessions, users, nextId, log := map[], map[], map[], 0, [];
    }

    ghost method Record(before: Database, step: Step)
      requires before == Exec(log) && Db() == Apply(before, step)
      modifies this`log
      ensures Valid() && log == old(log) + [step]
    {
      ExecSnoc(log, step);
      log := log + [step];
    }

    // SELECT ... WHERE on the unique columns.

    method SelectByUserCode(userCode: string) returns (found: Option<Digest>)
      requires Valid()
      ensures found == DeviceByUserCode(Db(), userCode)
    {
      ExecSound(log);
      var rest := devices.Keys;
      while rest != {}
        invariant rest <= devices.Keys
        invariant forall h :: HasUserCode(Db(), h, userCode) ==> h in rest
        decreases |rest|
      {
        var h :| h in rest;
        if devices[h].userCode == userCode {
          assert HasUserCode(Db(), h, userCode);
          return Some(h);
        }
        rest := rest - {h};
      }
      return None;
    }

    method SelectByState(state: StateHash) returns (found: Option<Digest>)
      requires Valid()
      ensures found == DeviceByState(Db(), state)
    {
      ExecSound(log);
      var rest := devices.Keys;
      while rest != {}
        invariant rest <= devices.Keys
        invariant forall h :: HasState(Db(), h, state) ==> h in rest
        decreases |rest|
      {
        var h :| h in rest;
        if devices[h].state == Some(state) {
          assert HasState(Db(), h, state);
          return Some(h);
        }
        rest := rest - {h};
      }
      return None;
    }

    method SelectByAccess(access: Digest) returns (found: Option<nat>)
      requires Valid()
      ensures found == SessionByAccess(Db(), access)
    {
      ExecSound(log);
      var rest := sessions.Keys;
      while rest != {}
        invariant rest <= sessions.Keys
        invariant forall id :: HasAccess(Db(), id, access) ==> id in rest
        decreases |rest|
      {
        var id :| id in rest;
        if sessions[id].access == access {
          assert HasAccess(Db(), id, access);
          return Some(id);
        }
        rest := rest - {id};
      }
      return None;
    }

    method SelectByRefresh(refresh: Digest) returns (found: Option<nat>)
      requires Valid()
      ensures found == SessionByRefresh(Db(), refresh)
    {
      ExecSound(log);
      var rest := sessions.Keys;
      while rest != {}
        invariant rest <= sessions.Keys
        invariant forall id :: HasRefresh(Db(), id, refresh) ==> id in rest
        decreases |rest|
      {
        var id :| id in rest;
        if sessions[id].refresh == refresh {
          assert HasRefresh(Db(), id, refresh);
          return Some(id);
        }
        rest := rest - {id};
      }
      return None;
    }

    // The transactions.

    method CreateDeviceAuthorization(
      code: Digest, userCode: string, createdAt: Time, expiresAt: Time, net: Net)
      returns (reply: Reply)
      requires Valid()
      modifies this
      ensures Ran(old(Db()), old(log), Create(code, userCode, createdAt, expiresAt, net), reply)
    {
      ghost var before := Db();
      var holder := SelectByUserCode(userCode);
      if net.Down? {
        reply := Refused(Unavailable);
      } else if code in devices || holder.Some? {
        reply := Refused(Conflict);
      } else {
        if !net.Aborted? {
          devices := devices[code := FreshRow(userCode, createdAt, expiresAt)];
        }
        reply := if net.Acked? then Done else Refused(Unavailable);
      }
      Record(before, Create(code, userCode, createdAt, expiresAt, net));
    }

    method BindOAuthState(userCode: string, state: StateHash, now: Time, net: Net) returns (reply: Reply)
      requires Valid()
      modifies this
      ensures Ran(old(Db()), old(log), Bind(userCode, state, now, net), reply)
    {
      ghost var before := Db();
      var found := SelectByUserCode(userCode);
      var clash := SelectByState(state);
      if net.Down? {
        reply := Refused(Unavailable);
      } else if found.None? {
        reply := Refused(NotFound);
      } else {
        var row := devices[found.value];
        if row.expiresAt <= now {
          reply := Refused(Expired);
        } else if row.status != Pending {
          reply := Refused(AlreadyUsed);
        } else if row.state.Some? {
          reply := if row.state.value == state then Done else Refused(AlreadyUsed);
        } else if clash.Some? {
          reply := Refused(Conflict);
        } else {
          if !net.Aborted? {
            devices := devices[found.value := row.(state := Some(state))];
          }
          reply := if net.Acked? then Done else Refused(Unavailable);
        }
      }
      Record(before, Bind(userCode, state, now, net));
    }

    method RejectOAuthState(state: StateHash, now: Time, net: Net) returns (reply: Reply)
      requires Valid()
      modifies this
      ensures Ran(old(Db()), old(log), RejectState(state, now, net), reply)
    {
      ghost var before := Db();
      var found := SelectByState(state);
      if net.Down? {
        reply := Refused(Unavailable);
      } else if found.None? || devices[found.value].status != Pending || devices[found.value].expiresAt <= now {
        reply := Refused(Unauthorized);
      } else {
        if !net.Aborted? {
          devices := devices[found.value := devices[found.value].(status := Denied, state := None)];
        }
        reply := if net.Acked? then Done else Refused(Unavailable);
      }
      Record(before, RejectState(state, now, net));
    }

    method ClaimOAuthState(state: StateHash, now: Time, net: Net) returns (reply: Reply)
      requires Valid()
      modifies this
      ensures Ran(old(Db()), old(log), Claim(state, now, net), reply)
    {
      ghost var before := Db();
      var found := SelectByState(state);
      if net.Down? {
        reply := Refused(Unavailable);
      } else if found.None? {
        reply := Refused(Unauthorized);
      } else if devices[found.value].expiresAt <= now {
        reply := Refused(Expired);
      } else if devices[found.value].status != Pending {
        reply := Refused(AlreadyUsed);
      } else {
        if !net.Aborted? {
          devices := devices[found.value := devices[found.value].(status := Authorizing)];
        }
        reply := if net.Acked? then DoneDevice(found.value) else Ambiguous;
        assert Verdict(before, Claim(state, now, net)) == DoneDevice(found.value);
      }
      Record(before, Claim(state, now, net));
    }

    /** The lookup `confirmOAuthStateClaim` falls back on. */
    method GetClaimedOAuthState(state: StateHash, now: Time, net: Net) returns (reply: Reply)
      requires Valid()
      modifies this
      ensures Ran(old(Db()), old(log), LookupClaim(state, now, net), reply)
    {
      ghost var before := Db();
      var found := SelectByState(state);
      if net.Down? {
        reply := Refused(Unavailable);
      } else if found.Some? && devices[found.value].status == Authorizing && now < devices[found.value].expiresAt {
        reply := DoneDevice(found.value);
      } else {
        reply := Refused(Unauthorized);
      }
      Record(before, LookupClaim(state, now, net));
    }

    method RejectDeviceAuthorization(code: Digest, now: Time, net: Net) returns (reply: Reply)
      requires Valid()
      modifies this
      ensures Ran(old(Db()), old(log), RejectDevice(code, now, net), reply)
    {
      ghost var before := Db();
      if net.Down? {
        reply := Refused(Unavailable);
      } else if code !in devices {
        reply := Refused(Unauthorized);
      } else if devices[code].expiresAt <= now {
        reply := Refused(Expired);
      } else {
        match devices[code].status
        case Authorizing =>
          if !net.Aborted? {
            devices := devices[code := devices[code].(status := Denied, state := None)];
          }
          reply := if net.Acked? then Done else Refused(Unavailable);
        case Denied => reply := Done;
        case Approved => reply := Refused(AlreadyUsed);
        case Consumed => reply := Refused(AlreadyUsed);
        case Pending => reply := Refused(Conflict);
      }
      Record(before, RejectDevice(code, now, net));
    }

    method UnionIdTaken(user: User) returns (taken: bool)
      ensures taken == UnionTaken(Db(), user)
    {
      var rest := users.Keys;
      while rest != {}
        invariant rest <= users.Keys
        invariant forall key ::
            (key in users && key != user.key && key.corpId == user.key.corpId
             && users[key].unionId == user.unionId) ==> key in rest
        decreases |rest|
      {
        var key :| key in rest;
        if key != user.key && key.corpId == user.key.corpId && users[key].unionId == user.unionId {
          return true;
        }
        rest := rest - {key};
      }
      return false;
    }

    method CompleteDeviceAuthorization(code: Digest, user: User, now: Time, net: Net) returns (reply: Reply)
      requires Valid()
      modifies this
      ensures Ran(old(Db()), old(log), Complete(code, user, now, net), reply)
    {
      ghost var before := Db();
      var taken := UnionIdTaken(user);
      if net.Down? {
        reply := Refused(Unavailable);
      } else if code !in devices {
        reply := Refused(Unauthorized);
      } else if devices[code].expiresAt <= now {
        reply := Refused(Expired);
      } else {
        match devices[code].status
        case Authorizing =>
          if taken {
            reply := Refused(Conflict);
          } else {
            if !net.Aborted? {
              users := users[user.key := Profile(user.unionId, user.displayName)];
              devices := devices[code := devices[code].(
                status := Approved, holder := Some(user.key), authorizedAt := Some(now), state := None)];
            }
            reply := if net.Acked? then Done else Refused(Unavailable);
          }
        case Approved => reply := Refused(AlreadyUsed);
        case Consumed => reply := Refused(AlreadyUsed);
        case Pending => reply := Refused(Conflict);
        case Denied => reply := Refused(Conflict);
      }
      Record(before, Complete(code, user, now, net));
    }

    method ExchangeDeviceAuthorization(code: Digest, seed: Seed, now: Time, net: Net) returns (reply: Reply)
      requires Valid()
      modifies this
      ensures Ran(old(Db()), old(log), Exchange(code, seed, now, net), reply)
    {
      ghost var before := Db();
      var access := SelectByAccess(seed.access);
      var refresh := SelectByRefresh(seed.refresh);
      if net.Down? {
        reply := Refused(Unavailable);
      } else if code !in devices {
        reply := Refused(Unauthorized);
      } else if devices[code].expiresAt <= now {
        reply := Refused(Expired);
      } else {
        match devices[code].status
        case Pending => reply := Refused(AuthorizationPending);
        case Authorizing => reply := Refused(AuthorizationPending);
        case Denied => reply := Refused(Forbidden);
        case Consumed => reply := Refused(AlreadyUsed);
        case Approved =>
          var holder := devices[code].holder;
          if holder.None? || holder.value !in users || access.Some? || refresh.Some? {
            reply := Refused(Conflict);
          } else {
            reply := IssueFirstSession(code, holder.value, seed, now, net);
            return;
          }
      }
      Record(before, Exchange(code, seed, now, net));
    }

    method IssueFirstSession(code: Digest, owner: UserKey, seed: Seed, now: Time, net: Net) returns (reply: Reply)
      requires Valid() && !net.Down?
      requires ExchangeVerdict(Db(), code, seed, now).DoneUser? && devices[code].holder == Some(owner)
      modifies this
      ensures Ran(old(Db()), old(log), Exchange(code, seed, now, net), reply)
    {
      ghost var before := Db();
      if !net.Aborted? {
        sessions := sessions[nextId := NewSession(owner, seed, now)];
        nextId := nextId + 1;
        devices := devices[code := devices[code].(status := Consumed, consumedAt := Some(now))];
      }
      reply := if net.Acked? then DoneUser(User(owner, users[owner].unionId, users[owner].displayName))
               else Ambiguous;
      Record(before, Exchange(code, seed, now, net));
    }

    method GetSessionByAccessToken(access: Digest, now: Time, net: Net) returns (reply: Reply)
      requires Valid()
      modifies this
      ensures Ran(old(Db()), old(log), GetSession(access, now, net), reply)
    {
      ghost var before := Db();
      var found := SelectByAccess(access);
      if net.Down? {
        reply := Refused(Unavailable);
      } else if found.None? {
        reply := Refused(Unauthorized);
      } else {
        var row := sessions[found.value];
        if row.owner in users && row.revokedAt.None? && now < row.accessExpires {
          reply := DoneUser(User(row.owner, users[row.owner].unionId, users[row.owner].displayName));
        } else {
          reply := Refused(Unauthorized);
        }
      }
      Record(before, GetSession(access, now, net));
    }

    method RotateSession(refresh: Digest, seed: Seed, now: Time, net: Net) returns (reply: Reply)
      requires Valid()
      modifies this
      ensures Ran(old(Db()), old(log), Rotate(refresh, seed, now, net), reply)
    {
      ghost var before := Db();
      var found := SelectByRefresh(refresh);
      var accessClash := SelectByAccess(seed.access);
      var refreshClash := SelectByRefresh(seed.refresh);
      if net.Down? {
        reply := Refused(Unavailable);
      } else if found.None? {
        reply := Refused(Unauthorized);
      } else {
        var row := sessions[found.value];
        if row.owner !in users || row.revokedAt.Some? || row.refreshExpires <= now {
          reply := Refused(Unauthorized);
        } else if accessClash.Some? || refreshClash.Some? {
          reply := Refused(Conflict);
        } else {
          if !net.Aborted? {
            sessions := sessions[found.value := row.(revokedAt := Some(now))];
            sessions := sessions[nextId := NewSession(row.owner, seed, now)];
            nextId := nextId + 1;
          }
          reply := if net.Acked?
                   then DoneUser(User(row.owner, users[row.owner].unionId, users[row.owner].displayName))
                   else Ambiguous;
        }
      }
      Record(before, Rotate(refresh, seed, now, net));
    }

    method RevokeSession(access: Digest, now: Time, net: Net) returns (reply: Reply)
      requires Valid()
      modifies this
      ensures Ran(old(Db()), old(log), Revoke(access, now, net), reply)
    {
      ghost var before := Db();
      var found := SelectByAccess(access);
      if net.Down? {
        reply := Refused(Unavailable);
      } else if found.None? || sessions[found.value].revokedAt.Some? {
        reply := Refused(Unauthorized);
      } else {
        if !net.Aborted? {
          sessions := sessions[found.value := sessions[found.value].(revokedAt := Some(now))];
        }
        reply := if net.Acked? then Done else Refused(Unavailable);
      }
      Record(before, Revoke(access, now, net));
    }

    method PruneAuthenticationState(before: Time, now: Time, net: Net) returns (reply: Reply)
      requires Valid()
      modifies this
      ensures Ran(old(Db()), old(log), Prune(before, now, net), reply)
    {
      ghost var past := Db();
      if net.Down? {
        reply := Refused(Unavailable);
      } else {
        if !net.Aborted? {
          sessions := map id | id in sessions && !Stale(sessions[id], before) :: sessions[id];
          devices := map h | h in devices && before <= devices[h].expiresAt :: devices[h];
        }
        reply := if net.Acked? then Done else Refused(Unavailable);
      }
      Record(past, Prune(before, now, net));
    }
  }
}
