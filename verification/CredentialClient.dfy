/**
 * One call of the command-line client on the shared credential file, step by step, while other processes,
 * other users and the network do what they like in between.
 *
 * `Machine` holds the broker's store, the file and the bookkeeping of the refresh protocol; every change to
 * them is one of the protocol's moves, so its theorems hold in every state of every call.
 */
module CredentialClient {
  import opened Domain
  import opened AuthDatabase
  import opened AuthStore
  import AuthService
  import Availability
  import opened RefreshProtocol
  import opened RefreshRuns

  /** How a call ends: with the broker's answer to its last request, which carried this bearer, or with an error. */
  datatype Ending = Asked(bearer: Digest, reply: Reply) | Raised(error: Error) | LoginRequired | ConnectionLost

  /** What is not the client's choice: other moves between its steps, clocks, networks, and the file system. */
  datatype Surroundings = Surroundings(
    others: nat -> seq<Move>, clock: nat -> Time, net: nat -> Net, delivered: bool, save: SaveOutcome,
    spent: nat -> nat, accessTokenTTL: Time, refreshTokenTTL: Time)

  const RECOVERY_WAIT: Time := SECOND
  const RECOVERY_POLL: Time := 50_000_000

  /** A refresh request: the tables it found, the session drawn for it, and what the broker answered in the end. */
  datatype Refresh = Refresh(at: Database, seed: Seed, told: Reply)

  /** Since `from`, process `p` has sent this refresh request. */
  ghost predicate Sent(start: System, moves: seq<Move>, from: nat, p: nat, around: Surroundings, at: Database, seed: Seed) {
    exists n: nat :: from <= n < |moves| && moves[n] == RotateFor(p, seed, around.clock(2), around.net(1))
                     && Play(start, moves[..n]).db == at
  }

  lemma {:induction false} SentLater(
    start: System, moves: seq<Move>, later: seq<Move>, from: nat, earlier: nat, p: nat, around: Surroundings,
    at: Database, seed: Seed)
    requires moves <= later && Sent(start, moves, from, p, around, at, seed) && earlier <= from
    ensures Sent(start, later, earlier, p, around, at, seed)
  {
    var n: nat :| from <= n < |moves| && moves[n] == RotateFor(p, seed, around.clock(2), around.net(1))
                  && Play(start, moves[..n]).db == at;
    assert later[n] == moves[n] && later[..n] == moves[..n];
  }

  /** The broker's answer to an acknowledged refresh: a new session exactly while the old one can be renewed. */
  ghost predicate ToldRightly(refresh: Refresh, token: Digest, around: Surroundings) {
    around.net(1).Acked? ==>
      && (refresh.told.DoneUser? <==> Availability.Renewable(refresh.at, token, around.clock(2)))
      && (refresh.told.DoneUser? || refresh.told == Refused(Unauthorized))
  }

  /** The first answer to a refresh request, and the tables it leaves. */
  ghost predicate FirstTold(at: Database, token: Digest, seed: Seed, around: Surroundings, reply: Reply, after: Database) {
    && ToldRightly(Refresh(at, seed, reply), token, around)
    && (around.net(1).Acked? || around.net(1).Lost? ==>
          after == Apply(at, Rotate(token, seed, around.clock(2), Acked)))
    && (around.net(1).Acked? ==> !reply.Ambiguous?)
    && (around.net(1).Lost? && Availability.Renewable(at, token, around.clock(2)) ==> reply.Ambiguous?)
  }

  /** A look at the file that found other credentials than the refused ones. */
  predicate Replaced(seen: Creds, creds: Creds) { seen != creds && seen.access.Some? }

  /** Only the last of these looks may have found a replacement. */
  predicate SeenInOrder(seen: seq<Creds>, creds: Creds) {
    |seen| > 0 && forall k :: 0 <= k < |seen| - 1 ==> !Replaced(seen[k], creds)
  }

  lemma {:induction false} SeenOnceMore(seen: seq<Creds>, creds: Creds, found: Creds)
    requires SeenInOrder(seen, creds) && !Replaced(seen[|seen| - 1], creds)
    ensures SeenInOrder(seen + [found], creds)
  {
  }

  /**
   * How a call ends after its refresh: without an answer the connection is lost; a new session is used once it is
   * saved; a refusal with one of four errors ends with other credentials if a look at the file found some, else
   * with a new login; any other refusal is passed on.
   */
  predicate EndsWell(
    ending: Ending, told: Reply, seed: Seed, creds: Creds, seen: seq<Creds>, around: Surroundings)
  {
    if !around.delivered then ending == ConnectionLost
    else if told.DoneUser? then
      (if around.save.Written? then ending.Asked? && ending.bearer == seed.access
       else ending == Raised(Unavailable))
    else if told.Refused? && told.error in {Unauthorized, Conflict, AlreadyUsed, Expired} then
      && SeenInOrder(seen, creds)
      && (if Replaced(seen[|seen| - 1], creds) then ending.Asked? && ending.bearer == seen[|seen| - 1].access.value
          else ending == LoginRequired)
    else ending == Raised(if told.Refused? then told.error else Unavailable)
  }

  /** Nobody else does anything during the call. */
  ghost predicate Quiet(around: Surroundings) { forall k :: around.others(k) == [] }

  /**
   * Nothing goes wrong on the way of a refresh, unless the broker's commit is not acknowledged but its second look
   * goes through; and the new session is used before its access token expires.
   */
  ghost predicate Smooth(around: Surroundings) {
    && Quiet(around) && around.delivered
    && (around.net(1).Acked?
        || (around.net(1).Lost? && !around.net(2).Down? && around.clock(2) < around.clock(1) + around.accessTokenTTL))
    && around.save.Written? && !around.net(3).Down?
    && around.clock(3) < around.clock(1) + around.accessTokenTTL
  }

  /** In a smooth course a renewable session is renewed, and the new one is good for the last request. */
  lemma {:induction false} SmoothSucceeds(
    at: Database, token: Digest, seed: Seed, around: Surroundings, after: Database, told: Reply)
    requires Sound(at) && SeedFree(at, seed) && Smooth(around) && Availability.Renewable(at, token, around.clock(2))
    requires seed.accessExpires == around.clock(1) + around.accessTokenTTL
    requires after == Apply(at, Rotate(token, seed, around.clock(2), Acked))
    requires ToldRightly(Refresh(at, seed, told), token, around)
    requires around.net(1).Lost? ==>
               (told.DoneUser? <==> Respond(after, GetSession(seed.access, around.clock(2), around.net(2))).DoneUser?)
    ensures told.DoneUser? && Respond(after, GetSession(seed.access, around.clock(3), around.net(3))).DoneUser?
  {
    Availability.NewSessionWorks(at, token, seed, around.clock(2), around.clock(3), around.net(3));
    if around.net(1).Lost? {
      Availability.NewSessionWorks(at, token, seed, around.clock(2), around.clock(2), around.net(2));
    }
  }

  /** What the first `looks` looks at the file took. */
  function Spent(around: Surroundings, looks: nat): nat {
    if looks == 0 then 0 else Spent(around, looks - 1) + around.spent(looks - 1)
  }

  predicate ByProcess(move: Move, p: nat) {
    match move
    case Repeat(_, _, _, _) => false
    case Others(_) => false
    case _ => move.p == p
  }

  class Machine {
    const store: Store
    const start: System
    var file: Creds
    var processes: map<nat, Process>
    var lineage: seq<Seed>
    var fileAt: nat
    var sent: set<Creds>
    var used: set<Digest>
    ghost var moves: seq<Move>

    function View(): System
      reads this, store
    {
      System(store.Db(), start.first, file, processes, lineage, fileAt, sent, used)
    }

    /** The machine is where the protocol's moves since the login lead. */
    ghost predicate Valid()
      reads this, store
    {
      && store.Valid() && JustLoggedIn(start) && AllAllowed(start, moves)
      && View() == Play(start, moves)
    }

    /** The one change since `before` is this move. */
    ghost predicate Did(before: System, past: seq<Move>, move: Move)
      reads this, store
    {
      Valid() && View() == Advance(before, move) && moves == past + [move]
    }

    constructor (store: Store, start: System)
      requires store.Valid() && JustLoggedIn(start) && start.db == store.Db()
      ensures Valid() && View() == start && moves == []
    {
      this.store, this.start, file, processes := store, start, start.file, start.processes;
      lineage, fileAt, sent, used, moves := start.lineage, start.fileAt, start.sent, start.used, [];
    }

    ghost method Record(before: System, move: Move)
      requires JustLoggedIn(start) && AllAllowed(start, moves) && before == Play(start, moves) && Allowed(before, move)
      requires store.Valid() && View() == Advance(before, move)
      modifies this`moves
      ensures Did(before, old(moves), move)
    {
      AllowedNext(start, moves, move);
      moves := moves + [move];
    }

    method Put(p: nat, process: Process)
      modifies this`processes
      ensures View() == Set(old(View()), p, process)
    {
      processes := processes[p := process];
    }

    // The moves, in place.

    method Load(p: nat) returns (creds: Creds)
      requires Valid() && Get(View(), p).phase.Finished?
      modifies this
      ensures Did(old(View()), old(moves), Begin(p)) && creds == old(file)
      ensures Get(View(), p) == Process(Loaded(creds), 0, 0)
    {
      ghost var before := View();
      creds := file;
      Put(p, Process(Loaded(file), 0, 0));
      Record(before, Begin(p));
    }

    /** A session lookup changes no table. */
    method ReadSession(access: Digest, now: Time, net: Net) returns (reply: Reply)
      requires store.Valid()
      modifies store
      ensures store.Valid() && View() == old(View())
      ensures reply == Respond(old(View()).db, GetSession(access, now, net))
    {
      reply := store.GetSessionByAccessToken(access, now, net);
    }

    method AskWithBearer(p: nat, now: Time, net: Net) returns (reply: Reply)
      requires Valid() && Get(View(), p).phase.Loaded? && Get(View(), p).phase.creds.access.Some?
      modifies this, store
      ensures Did(old(View()), old(moves), FirstBearer(p, now, net))
      ensures reply == Respond(old(View()).db, GetSession(Get(old(View()), p).phase.creds.access.value, now, net))
    {
      ghost var before := View();
      var process := Get(View(), p);
      var creds := process.phase.creds;
      reply := ReadSession(creds.access.value, now, net);
      var asked := AfterBearer(process, reply, creds);
      Put(p, asked);
      if asked.phase.Refreshing? {
        sent := sent + {creds};
      }
      Record(before, FirstBearer(p, now, net));
    }

    method SkipBearer(p: nat)
      requires Valid() && Get(View(), p).phase.Loaded? && Get(View(), p).phase.creds.access.None?
      modifies this
      ensures Did(old(View()), old(moves), WithoutBearer(p))
    {
      ghost var before := View();
      var process := Get(View(), p);
      if process.phase.creds.refresh.Some? {
        Put(p, Next(process, Refreshing(process.phase.creds)));
        sent := sent + {process.phase.creds};
      } else {
        Put(p, Next(process, Finished));
      }
      Record(before, WithoutBearer(p));
    }

    method RotateInStore(creds: Creds, seed: Seed, now: Time, net: Net) returns (reply: Reply)
      requires Valid() && creds.refresh.Some?
      modifies this`lineage, this`used, store
      ensures store.Valid() && View() == Rotated(old(View()), creds, seed, now, net)
      ensures reply == Respond(old(View()).db, Rotate(creds.refresh.value, seed, now, net))
    {
      var count := store.nextId;
      reply := store.RotateSession(creds.refresh.value, seed, now, net);
      used := used + {seed.access, seed.refresh};
      if store.nextId != count {
        lineage := lineage + [seed];
      }
    }

    method AskForRotation(p: nat, seed: Seed, now: Time, net: Net) returns (reply: Reply)
      requires Valid() && Get(View(), p).phase.Refreshing? && Get(View(), p).phase.creds.refresh.Some?
      requires FreshSeed(View(), seed)
      modifies this, store
      ensures Did(old(View()), old(moves), RotateFor(p, seed, now, net))
      ensures reply == Respond(old(View()).db, Rotate(Get(old(View()), p).phase.creds.refresh.value, seed, now, net))
    {
      ghost var before := View();
      var process := Get(View(), p);
      reply := RotateInStore(process.phase.creds, seed, now, net);
      Put(p, AfterRotation(process, reply, process.phase.creds, seed));
      Record(before, RotateFor(p, seed, now, net));
    }

    method ConfirmRotation(p: nat, now: Time, net: Net) returns (reply: Reply)
      requires Valid() && Get(View(), p).phase.Confirming?
      modifies this, store
      ensures Did(old(View()), old(moves), ConfirmFor(p, now, net))
      ensures reply == Respond(old(View()).db, GetSession(Get(old(View()), p).phase.seed.access, now, net))
    {
      ghost var before := View();
      var process := Get(View(), p);
      reply := ReadSession(process.phase.seed.access, now, net);
      Put(p, Next(process, if reply.DoneUser? then Replied(process.phase.creds, process.phase.seed) else Finished));
      Record(before, ConfirmFor(p, now, net));
    }

    method SaveSession(p: nat, outcome: SaveOutcome)
      requires Valid() && Get(View(), p).phase.Replied?
      modifies this
      ensures Did(old(View()), old(moves), RefreshProtocol.Save(p, outcome))
    {
      ghost var before := View();
      var process := Get(View(), p);
      var seed := process.phase.seed;
      Put(p, AfterSave(process, outcome));
      if !outcome.NotWritten? {
        file, fileAt := CredsOf(seed), IndexOf(lineage, seed);
      }
      Record(before, RefreshProtocol.Save(p, outcome));
    }

    method AskOnceMore(p: nat, bearer: Digest, now: Time, net: Net) returns (reply: Reply)
      requires Valid() && (Get(View(), p).phase.Saved? || Get(View(), p).phase.Retrying?)
      modifies this, store
      ensures Did(old(View()), old(moves), LastBearer(p))
      ensures reply == Respond(View().db, GetSession(bearer, now, net))
    {
      ghost var before := View();
      reply := ReadSession(bearer, now, net);
      var process := Get(View(), p);
      Put(p, Process(Finished, process.bearers + 1, process.refreshes));
      Record(before, LastBearer(p));
    }

    method LookAgain(p: nat) returns (replacement: Option<Creds>)
      requires Valid() && Get(View(), p).phase.Recovering?
      modifies this
      ensures Did(old(View()), old(moves), Poll(p))
      ensures replacement == if old(file) != Get(old(View()), p).phase.creds && old(file).access.Some?
                             then Some(old(file)) else None
    {
      ghost var before := View();
      var process := Get(View(), p);
      replacement := None;
      if file != process.phase.creds && file.access.Some? {
        replacement := Some(file);
        Put(p, Next(process, Retrying(file)));
      }
      Record(before, Poll(p));
    }

    method GiveUp(p: nat)
      requires Valid()
      modifies this
      ensures Did(old(View()), old(moves), Abandon(p))
    {
      ghost var before := View();
      Put(p, Next(Get(View(), p), Finished));
      Record(before, Abandon(p));
    }

    method RepeatRotation(creds: Creds, seed: Seed, now: Time, net: Net)
      requires Valid() && creds in sent && creds.refresh.Some? && FreshSeed(View(), seed)
      modifies this, store
      ensures Did(old(View()), old(moves), Repeat(creds, seed, now, net))
    {
      ghost var before := View();
      var _ := RotateInStore(creds, seed, now, net);
      Record(before, Repeat(creds, seed, now, net));
    }

    method RunOther(step: Step)
      requires Valid() && Allowed(View(), Others(step))
      modifies this, store
      ensures Did(old(View()), old(moves), Others(step))
    {
      ghost var before := View();
      ExecSnoc(store.log, step);
      AuthService.RunStep(store, step);
      if step.Exchange? || step.Rotate? {
        used := used + {step.seed.access, step.seed.refresh};
      }
      Record(before, Others(step));
    }

    // What goes on between two steps of a call.

    method PerformByProcess(move: Move)
      requires Valid() && Allowed(View(), move) && !move.Repeat? && !move.Others?
      modifies this, store
      ensures Did(old(View()), old(moves), move)
    {
      ghost var before := View();
      var phase := Get(View(), move.p).phase;
      if move.Begin? && phase.Finished? { var _ := Load(move.p); }
      else if move.FirstBearer? && phase.Loaded? && phase.creds.access.Some? {
        var _ := AskWithBearer(move.p, move.now, move.net);
      }
      else if move.WithoutBearer? && phase.Loaded? && phase.creds.access.None? { SkipBearer(move.p); }
      else if move.RotateFor? && phase.Refreshing? && phase.creds.refresh.Some? {
        var _ := AskForRotation(move.p, move.seed, move.now, move.net);
      }
      else if move.ConfirmFor? && phase.Confirming? { var _ := ConfirmRotation(move.p, move.now, move.net); }
      else if move.Save? && phase.Replied? { SaveSession(move.p, move.outcome); }
      else if move.LastBearer? && (phase.Saved? || phase.Retrying?) {
        var _ := AskOnceMore(move.p, 0, 0, Acked);
      }
      else if move.Poll? && phase.Recovering? { var _ := LookAgain(move.p); }
      else if move.Abandon? { GiveUp(move.p); }
      else { Record(before, move); }
    }

    method Perform(move: Move)
      requires Valid() && Allowed(View(), move)
      modifies this, store
      ensures Did(old(View()), old(moves), move)
    {
      ghost var before := View();
      if move.Others? {
        RunOther(move.step);
      } else if move.Repeat? {
        if move.creds in sent && move.creds.refresh.Some? {
          RepeatRotation(move.creds, move.seed, move.now, move.net);
        } else {
          Record(before, move);
        }
      } else {
        PerformByProcess(move);
      }
    }

    /** Everybody but process `p` makes moves; the protocol's premises are kept by leaving out what breaks them. */
    method Interfere(p: nat, others: seq<Move>)
      requires Valid()
      modifies this, store
      ensures Valid() && Get(View(), p) == Get(old(View()), p)
      ensures old(moves) <= moves && Later(old(View()), View())
      ensures others == [] ==> View() == old(View())
    {
      for k := 0 to |others|
        invariant Valid() && Get(View(), p) == Get(old(View()), p)
        invariant old(moves) <= moves && Later(old(View()), View())
        invariant k == 0 ==> View() == old(View())
      {
        if !ByProcess(others[k], p) && Allowed(View(), others[k]) {
          ghost var before, past := View(), moves;
          Perform(others[k]);
          DidLater(start, past, others[k]);
          OthersLeave(before, others[k], p);
        }
      }
    }

    // The call.

    /** Between calls, `p` is not in the protocol and within its allowance of requests. */
    ghost predicate Idle(p: nat)
      reads this, store
    {
      && Valid() && Get(View(), p).phase.Finished?
      && Get(View(), p).bearers <= 2 && Get(View(), p).refreshes <= 1
    }

    /** One step of process `p` was taken; what is known of the machine afterwards. */
    lemma {:induction false} Took(before: System, past: seq<Move>, move: Move)
      requires Did(before, past, move) && AllAllowed(start, past) && before == Play(start, past) && Allowed(before, move)
      ensures Later(before, View()) && past <= moves
    {
      DidLater(start, past, move);
    }

    /** The file holds the session of the lineage it is said to hold. */
    lemma {:induction false} AtFile()
      requires Valid()
      ensures fileAt < |lineage| && file == StoredAt(start.first, lineage, fileAt)
      ensures file.access.Some? ==> lineage[fileAt].access == file.access.value
      ensures fileAt > 0 ==> file.access.Some?
    {
      PlayInv(start, moves);
    }

    /** The last request was answered so, as the database is now; `when` numbers its clock and network. */
    ghost predicate Answers(around: Surroundings, ending: Ending, when: nat)
      reads this, store
      requires ending.Asked?
    {
      ending.reply == Respond(View().db, GetSession(ending.bearer, around.clock(when), around.net(when)))
    }

    /** A session that has arrived is the one after the file's. */
    lemma {:induction false} AtReply(p: nat)
      requires Valid() && Get(View(), p).phase.Replied?
      ensures Unsaved(View(), Get(View(), p).phase.seed)
    {
      PlayInv(start, moves);
      assert PhaseOk(View(), processes[p].phase);
    }

    /** One look at the file, after others had their turn. */
    method Look(p: nat, ghost creds: Creds, others: seq<Move>) returns (replacement: Option<Creds>)
      requires Valid() && Get(View(), p).phase == Recovering(creds)
      modifies this, store
      ensures Valid() && Later(old(View()), View()) && old(moves) <= moves
      ensures Looked(p, creds, replacement) && (replacement.Some? <==> Replaced(file, creds))
      ensures others == [] ==> file == old(file)
    {
      Interfere(p, others);
      ghost var before, past := View(), moves;
      replacement := LookAgain(p);
      Took(before, past, Poll(p));
    }

    /**
     * The refresh was refused because somebody else refreshed first, or the session is gone: look at the file
     * until it has changed or the wait is over. `seen` lists what the looks found.
     */
    method Recover(p: nat, ghost creds: Creds, around: Surroundings)
      returns (ending: Ending, waited: nat, ghost seen: seq<Creds>)
      requires Valid() && Get(View(), p).phase == Recovering(creds)
      modifies this, store
      ensures Idle(p) && Later(old(View()), View()) && old(moves) <= moves
      ensures ending.Asked? ==> NotOlder(View(), old(fileAt), ending.bearer) && Answers(around, ending, 3)
      ensures ending.LoginRequired? ==> SECOND <= waited && (file == creds || file.access.None?)
      ensures SeenInOrder(seen, creds)
      ensures if Replaced(seen[|seen| - 1], creds)
              then ending.Asked? && ending.bearer == seen[|seen| - 1].access.value
              else ending == LoginRequired
      ensures around.others(10) == [] ==> seen[0] == old(file)
      ensures waited <= (|seen| - 1) * 50_000_000 + Spent(around, |seen|)
    {
      var replacement;
      replacement, waited, seen := WaitForFile(p, creds, around);
      if replacement.Some? {
        ending := RetryWith(p, replacement.value, around);
      } else {
        Quit(p);
        ending := LoginRequired;
      }
    }

    /** What a look at the file leaves: a replacement to retry with, or a process that still waits. */
    ghost predicate Looked(p: nat, creds: Creds, replacement: Option<Creds>)
      reads this, store
    {
      if replacement.Some?
      then replacement.value == file && file.access.Some? && Get(View(), p).phase == Retrying(file)
      else Get(View(), p).phase == Recovering(creds) && (file == creds || file.access.None?)
    }

    /** The looks so far: none but the last found a replacement, and they took at most this long. */
    ghost predicate Watched(
      creds: Creds, replacement: Option<Creds>, waited: nat, seen: seq<Creds>, around: Surroundings)
      reads this`file
    {
      && SeenInOrder(seen, creds) && seen[|seen| - 1] == file && (replacement.Some? <==> Replaced(file, creds))
      && waited <= (|seen| - 1) * RECOVERY_POLL + Spent(around, |seen|)
    }

    /** Pause, and look at the file once more. */
    method PauseAndLook(p: nat, ghost creds: Creds, around: Surroundings, looks: nat, before: nat, ghost past: seq<Creds>)
      returns (replacement: Option<Creds>, waited: nat, ghost seen: seq<Creds>)
      requires Valid() && Get(View(), p).phase == Recovering(creds) && before < RECOVERY_WAIT
      requires Watched(creds, None, before, past, around) && |past| == looks
      modifies this, store
      ensures Valid() && Later(old(View()), View()) && old(moves) <= moves && before < waited
      ensures Looked(p, creds, replacement) && Watched(creds, replacement, waited, seen, around)
      ensures |seen| == looks + 1 && seen[0] == past[0]
    {
      waited := before + Min(RECOVERY_POLL, RECOVERY_WAIT - before);
      replacement := Look(p, creds, around.others(10 + looks));
      waited := waited + around.spent(looks);
      SeenOnceMore(past, creds, file);
      seen := past + [file];
    }

    /** Look at the file at once, and again after each pause until it has changed or the wait is over. */
    method WaitForFile(p: nat, ghost creds: Creds, around: Surroundings)
      returns (replacement: Option<Creds>, waited: nat, ghost seen: seq<Creds>)
      requires Valid() && Get(View(), p).phase == Recovering(creds)
      modifies this, store
      ensures Valid() && Later(old(View()), View()) && old(moves) <= moves
      ensures Looked(p, creds, replacement) && (replacement.None? ==> RECOVERY_WAIT <= waited)
      ensures Watched(creds, replacement, waited, seen, around)
      ensures around.others(10) == [] ==> seen[0] == old(file)
    {
      replacement := Look(p, creds, around.others(10));
      var looks := 1;
      waited, seen := around.spent(0), [file];
      ghost var first := file;
      while replacement.None? && waited < RECOVERY_WAIT
        invariant Valid() && Later(old(View()), View()) && old(moves) <= moves
        invariant Looked(p, creds, replacement) && Watched(creds, replacement, waited, seen, around)
        invariant |seen| == looks && seen[0] == first
        decreases RECOVERY_WAIT - waited
      {
        replacement, waited, seen := PauseAndLook(p, creds, around, looks, waited, seen);
        looks := looks + 1;
      }
    }

    method RetryWith(p: nat, creds: Creds, around: Surroundings) returns (ending: Ending)
      requires Valid() && Get(View(), p).phase == Retrying(creds) && creds.access.Some? && creds == file
      modifies this, store
      ensures Idle(p) && Later(old(View()), View()) && old(moves) <= moves
      ensures ending.Asked? && ending.bearer == creds.access.value
      ensures NotOlder(View(), old(fileAt), ending.bearer) && Answers(around, ending, 3)
    {
      ghost var at := fileAt;
      AtFile();
      Interfere(p, around.others(9));
      ending := AskLast(p, creds.access.value, around);
      assert lineage[at].access == creds.access.value;
    }

    /** The last request of a call. */
    method AskLast(p: nat, bearer: Digest, around: Surroundings) returns (ending: Ending)
      requires Valid() && (Get(View(), p).phase.Saved? || Get(View(), p).phase.Retrying?)
      modifies this, store
      ensures Idle(p) && Later(old(View()), View()) && old(moves) <= moves
      ensures ending.Asked? && ending.bearer == bearer && Answers(around, ending, 3)
      ensures store.Db() == old(store.Db())
    {
      ghost var before, past := View(), moves;
      var reply := AskOnceMore(p, bearer, around.clock(3), around.net(3));
      Took(before, past, LastBearer(p));
      CallsAreBounded(start, moves, p);
      ending := Asked(bearer, reply);
    }

    /** A new session has arrived: write it to the file, then use it. */
    method SaveAndAsk(p: nat, seed: Seed, around: Surroundings) returns (ending: Ending)
      requires Valid() && Get(View(), p).phase.Replied? && Get(View(), p).phase.seed == seed
      modifies this, store
      ensures Idle(p) && Later(old(View()), View()) && old(moves) <= moves
      ensures if around.save.Written? then ending.Asked? && ending.bearer == seed.access
              else ending == Raised(Unavailable)
      ensures ending.Asked? ==> NotOlder(View(), old(fileAt) + 1, ending.bearer) && Answers(around, ending, 3)
      ensures ending.Asked? ==> fileAt > old(fileAt)
      ensures Quiet(around) ==> store.Db() == old(store.Db())
    {
      SaveNew(p, seed, around.save);
      if !around.save.Written? {
        CallsAreBounded(start, moves, p);
        return Raised(Unavailable);
      }
      ghost var at := fileAt;
      Interfere(p, around.others(4));
      ending := AskLast(p, seed.access, around);
      assert lineage[at] == seed;
    }

    method SaveNew(p: nat, seed: Seed, outcome: SaveOutcome)
      requires Valid() && Get(View(), p).phase.Replied? && Get(View(), p).phase.seed == seed
      modifies this
      ensures Valid() && Later(old(View()), View()) && old(moves) <= moves
      ensures Get(View(), p).phase == if outcome.Written? then Saved(seed) else Finished
      ensures outcome.Written? ==> fileAt == old(fileAt) + 1 < |lineage| && lineage[fileAt] == seed
    {
      AtReply(p);
      SavedIndex(View(), seed);
      ghost var before, past := View(), moves;
      SaveSession(p, outcome);
      Took(before, past, RefreshProtocol.Save(p, outcome));
    }

    method Quit(p: nat)
      requires Valid()
      modifies this
      ensures Idle(p) && Later(old(View()), View()) && old(moves) <= moves && file == old(file)
    {
      ghost var before, past := View(), moves;
      GiveUp(p);
      Took(before, past, Abandon(p));
      CallsAreBounded(start, moves, p);
    }

    /** The broker's answer to one refresh request, with its second look when the commit's fate is unknown. */
    method RequestRotation(p: nat, ghost creds: Creds, around: Surroundings)
      returns (reply: Reply, seed: Seed, ghost at: Database)
      requires Valid() && Get(View(), p).phase == Refreshing(creds) && creds.refresh.Some?
      modifies this, store
      ensures Valid() && Later(old(View()), View()) && old(moves) <= moves
      ensures Answered(p, creds, reply, seed, at, around)
      ensures Sent(start, moves, |old(moves)|, p, around, at, seed)
      ensures LivesFrom(seed, around, around.clock(1)) && (Quiet(around) ==> at == old(store.Db()))
    {
      seed := AwaitTurn(p, around);
      ghost var from := |moves|;
      reply, at := SendAndConfirm(p, creds, seed, around);
      SentLater(start, moves, moves, from, |old(moves)|, p, around, at, seed);
    }

    /** A refresh was answered so, by these tables; where that leaves the process and the tables. */
    ghost predicate Answered(p: nat, creds: Creds, reply: Reply, seed: Seed, at: Database, around: Surroundings)
      reads this, store
      requires creds.refresh.Some?
    {
      && (reply.DoneUser? ==> Get(View(), p).phase == Replied(creds, seed))
      && (reply.Refused? && reply.error in {Unauthorized, Conflict, AlreadyUsed, Expired} ==>
            Get(View(), p).phase == Recovering(creds))
      && ToldRightly(Refresh(at, seed, reply), creds.refresh.value, around)
      && Sound(at) && SeedFree(at, seed)
      && (around.net(1).Acked? || (around.net(1).Lost? && Quiet(around)) ==>
            store.Db() == Apply(at, Rotate(creds.refresh.value, seed, around.clock(2), Acked)))
      && (around.net(1).Lost? && Availability.Renewable(at, creds.refresh.value, around.clock(2)) ==>
            (reply.DoneUser? <==>
               Respond(store.Db(), GetSession(seed.access, around.clock(2), around.net(2))).DoneUser?))
    }

    method SendAndConfirm(p: nat, ghost creds: Creds, seed: Seed, around: Surroundings)
      returns (reply: Reply, ghost at: Database)
      requires Valid() && Get(View(), p).phase == Refreshing(creds) && creds.refresh.Some?
      requires FreshSeed(View(), seed)
      modifies this, store
      ensures Valid() && Later(old(View()), View()) && old(moves) <= moves && at == old(store.Db())
      ensures Answered(p, creds, reply, seed, at, around)
      ensures Sent(start, moves, |old(moves)|, p, around, at, seed)
    {
      ghost var from := |moves|;
      reply, at := SendRotation(p, creds, seed, around);
      ghost var past := moves;
      if reply.Ambiguous? {
        reply := Confirm(p, creds, seed, around);
      }
      SentLater(start, past, moves, from, from, p, around, at, seed);
    }

    method AwaitTurn(p: nat, around: Surroundings) returns (seed: Seed)
      requires Valid()
      modifies this, store
      ensures Valid() && Later(old(View()), View()) && old(moves) <= moves
      ensures Get(View(), p) == Get(old(View()), p) && FreshSeed(View(), seed)
      ensures LivesFrom(seed, around, around.clock(1))
      ensures Quiet(around) ==> store.Db() == old(store.Db())
    {
      Interfere(p, around.others(1));
      seed := DrawSeed(around, around.clock(1));
    }

    /** A session nobody has seen has tokens that no session of the broker has, so only the old one matters. */
    lemma {:induction false} FreshIsFree(refresh: Digest, seed: Seed, around: Surroundings)
      requires Valid() && FreshSeed(View(), seed)
      ensures Sound(store.Db()) && SeedFree(store.Db(), seed)
      ensures var step := Rotate(refresh, seed, around.clock(2), around.net(1));
              FirstTold(store.Db(), refresh, seed, around, Respond(store.Db(), step), Apply(store.Db(), step))
    {
      PlayInv(start, moves);
      Availability.RefreshWorksIff(store.Db(), refresh, seed, around.clock(2));
      Availability.LostRotation(store.Db(), refresh, seed, around.clock(2));
    }

    lemma {:induction false} SentNow(past: seq<Move>, p: nat, seed: Seed, around: Surroundings)
      requires moves == past + [RotateFor(p, seed, around.clock(2), around.net(1))]
      ensures Sent(start, moves, |past|, p, around, Play(start, past).db, seed)
    {
      assert moves[|past|] == RotateFor(p, seed, around.clock(2), around.net(1)) && moves[..|past|] == past;
    }

    method SendRotation(p: nat, ghost creds: Creds, seed: Seed, around: Surroundings)
      returns (reply: Reply, ghost at: Database)
      requires Valid() && Get(View(), p).phase == Refreshing(creds) && creds.refresh.Some?
      requires FreshSeed(View(), seed)
      modifies this, store
      ensures Valid() && Later(old(View()), View()) && old(moves) <= moves
      ensures reply.DoneUser? ==> Get(View(), p).phase == Replied(creds, seed)
      ensures reply.Ambiguous? ==> Get(View(), p).phase == Confirming(creds, seed)
      ensures reply.Refused? && reply.error in {Unauthorized, Conflict, AlreadyUsed, Expired} ==>
                Get(View(), p).phase == Recovering(creds)
      ensures Sent(start, moves, |old(moves)|, p, around, at, seed) && at == old(store.Db())
      ensures Sound(at) && SeedFree(at, seed) && FirstTold(at, creds.refresh.value, seed, around, reply, store.Db())
    {
      ghost var before, past := View(), moves;
      at := store.Db();
      FreshIsFree(creds.refresh.value, seed, around);
      reply := AskForRotation(p, seed, around.clock(2), around.net(1));
      Took(before, past, RotateFor(p, seed, around.clock(2), around.net(1)));
      RotationPhase(before, p, seed, around.clock(2), around.net(1));
      SentNow(past, p, seed, around);
    }

    method Confirm(p: nat, ghost creds: Creds, ghost seed: Seed, around: Surroundings) returns (reply: Reply)
      requires Valid() && Get(View(), p).phase == Confirming(creds, seed)
      modifies this, store
      ensures Valid() && Later(old(View()), View()) && old(moves) <= moves
      ensures reply.DoneUser? ==> Get(View(), p).phase == Replied(creds, seed)
      ensures !reply.DoneUser? ==> reply == Refused(Unavailable)
      ensures reply.DoneUser? <==>
                Respond(store.Db(), GetSession(seed.access, around.clock(2), around.net(2))).DoneUser?
      ensures Quiet(around) ==> store.Db() == old(store.Db())
    {
      Interfere(p, around.others(2));
      ghost var before, past := View(), moves;
      reply := ConfirmRotation(p, around.clock(2), around.net(2));
      Took(before, past, ConfirmFor(p, around.clock(2), around.net(2)));
      if !reply.DoneUser? {
        reply := Refused(Unavailable);
      }
    }

    /** What the answer to a refresh leads to. */
    method UseAnswer(p: nat, ghost creds: Creds, reply: Reply, seed: Seed, around: Surroundings)
      returns (ending: Ending, ghost seen: seq<Creds>)
      requires Valid() && (reply.DoneUser? ==> Get(View(), p).phase == Replied(creds, seed))
      requires reply.Refused? && reply.error in {Unauthorized, Conflict, AlreadyUsed, Expired} ==>
                 Get(View(), p).phase == Recovering(creds)
      modifies this, store
      ensures Idle(p) && Later(old(View()), View()) && old(moves) <= moves
      ensures ending.Asked? ==> NotOlder(View(), old(fileAt), ending.bearer) && Answers(around, ending, 3)
      ensures ending.LoginRequired? ==> file == creds || file.access.None?
      ensures EndsWell(ending, reply, seed, creds, seen, around)
      ensures Quiet(around) && reply.DoneUser? ==> store.Db() == old(store.Db())
    {
      seen := [];
      if !around.delivered {
        Quit(p);
        ending := ConnectionLost;
      } else if reply.DoneUser? {
        ending := SaveAndAsk(p, seed, around);
      } else if reply.Refused? && Recoverable(reply.error) {
        var waited;
        ending, waited, seen := Recover(p, creds, around);
      } else {
        Quit(p);
        ending := Raised(if reply.Refused? then reply.error else Unavailable);
      }
    }

    /** The refresh request, and whether its answer is good for the rest of a smooth course. */
    method Renew(p: nat, ghost creds: Creds, around: Surroundings) returns (reply: Reply, seed: Seed, ghost at: Database)
      requires Valid() && Get(View(), p).phase == Refreshing(creds) && creds.refresh.Some?
      modifies this, store
      ensures Valid() && Later(old(View()), View()) && old(moves) <= moves
      ensures reply.DoneUser? ==> Get(View(), p).phase == Replied(creds, seed)
      ensures reply.Refused? && reply.error in {Unauthorized, Conflict, AlreadyUsed, Expired} ==>
                Get(View(), p).phase == Recovering(creds)
      ensures Sent(start, moves, |old(moves)|, p, around, at, seed)
      ensures ToldRightly(Refresh(at, seed, reply), creds.refresh.value, around)
      ensures Smooth(around) && Availability.Renewable(old(store.Db()), creds.refresh.value, around.clock(2)) ==>
                reply.DoneUser? && GoodFor(seed, around)
    {
      reply, seed, at := RequestRotation(p, creds, around);
      if Smooth(around) && Availability.Renewable(at, creds.refresh.value, around.clock(2)) {
        SmoothSucceeds(at, creds.refresh.value, seed, around, store.Db(), reply);
      }
    }

    /** The last request would succeed with this session, as the tables are now. */
    ghost predicate GoodFor(seed: Seed, around: Surroundings)
      reads store
    {
      Respond(store.Db(), GetSession(seed.access, around.clock(3), around.net(3))).DoneUser?
    }

    /** One refresh, and what its answer leads to. */
    method RefreshAndAsk(p: nat, ghost creds: Creds, around: Surroundings)
      returns (ending: Ending, ghost refresh: Refresh, ghost seen: seq<Creds>)
      requires Valid() && Get(View(), p).phase == Refreshing(creds) && creds.refresh.Some?
      modifies this, store
      ensures Idle(p) && Later(old(View()), View()) && old(moves) <= moves
      ensures ending.Asked? ==> NotOlder(View(), old(fileAt), ending.bearer) && Answers(around, ending, 3)
      ensures ending.LoginRequired? ==> file == creds || file.access.None?
      ensures Sent(start, moves, |old(moves)|, p, around, refresh.at, refresh.seed)
      ensures ToldRightly(refresh, creds.refresh.value, around)
      ensures EndsWell(ending, refresh.told, refresh.seed, creds, seen, around)
      ensures ending.Raised? ==> ending.error !in {Unauthorized, Conflict, AlreadyUsed, Expired}
      ensures Smooth(around) && Availability.Renewable(old(store.Db()), creds.refresh.value, around.clock(2)) ==>
                ending.Asked? && ending.reply.DoneUser?
    {
      var reply, seed, at := Renew(p, creds, around);
      refresh := Refresh(at, seed, reply);
      ghost var past := moves;
      ending, seen := UseAnswer(p, creds, reply, seed, around);
      SentLater(start, past, moves, |old(moves)|, |old(moves)|, p, around, at, seed);
    }

    /** The first request, when the file has an access token; a refusal leads to a refresh, anything else ends the call. */
    method AskFirst(p: nat, creds: Creds, around: Surroundings) returns (ending: Option<Ending>)
      requires Valid() && Get(View(), p).phase == Loaded(creds) && creds.access.Some?
      modifies this, store
      ensures Valid() && Later(old(View()), View()) && old(moves) <= moves && store.Db() == old(store.Db())
      ensures ending.None? ==> creds.refresh.Some? && Get(View(), p).phase == Refreshing(creds)
      ensures ending.Some? ==> Idle(p)
      ensures var reply := Respond(old(store.Db()), GetSession(creds.access.value, around.clock(0), around.net(0)));
              ending == if reply == Refused(Unauthorized) && creds.refresh.Some? then None
                        else Some(Asked(creds.access.value, reply))
    {
      ghost var before, past := View(), moves;
      var reply := AskWithBearer(p, around.clock(0), around.net(0));
      Took(before, past, FirstBearer(p, around.clock(0), around.net(0)));
      if reply == Refused(Unauthorized) && creds.refresh.Some? {
        return None;
      }
      Quit(p);
      ending := Some(Asked(creds.access.value, reply));
    }

    /** Without an access token, refresh at once if the file has a refresh token. */
    method AskNothing(p: nat, creds: Creds) returns (ending: Option<Ending>)
      requires Valid() && Get(View(), p).phase == Loaded(creds) && creds.access.None?
      modifies this
      ensures Valid() && Later(old(View()), View()) && old(moves) <= moves
      ensures ending.None? ==> Get(View(), p).phase == Refreshing(creds)
      ensures ending.Some? ==> Idle(p)
      ensures ending == if creds.refresh.Some? then None else Some(Raised(InvalidInput))
    {
      ghost var before, past := View(), moves;
      SkipBearer(p);
      Took(before, past, WithoutBearer(p));
      if creds.refresh.Some? {
        return None;
      }
      Quit(p);
      ending := Some(Raised(InvalidInput));
    }

    method LoadFile(p: nat, others: seq<Move>) returns (creds: Creds)
      requires Valid() && Get(View(), p).phase.Finished?
      modifies this, store
      ensures Valid() && Later(old(View()), View()) && old(moves) <= moves
      ensures creds == old(file) && Get(View(), p).phase == Loaded(creds)
      ensures others == [] ==> store.Db() == old(store.Db())
    {
      ghost var before, past := View(), moves;
      creds := Load(p);
      Took(before, past, Begin(p));
      Interfere(p, others);
    }

    /**
     * What the call does first: without a refresh it ends with the broker's answer to the file's access token, which
     * then is no refusal, or with an error when the file has no token at all.
     */
    ghost predicate TriedFirst(ending: Option<Ending>, creds: Creds, around: Surroundings)
      reads this, store
    {
      match ending
      case None => creds.refresh.Some?
      case Some(end) =>
        if creds.access.Some? then
          && end.Asked? && end.bearer == creds.access.value && Answers(around, end, 0)
          && (end.reply == Refused(Unauthorized) ==> creds.refresh.None?)
        else creds.refresh.None? && end == Raised(InvalidInput)
    }

    /** The first request, if there is one, would be refused by these tables. */
    ghost predicate RefusedFirst(db: Database, creds: Creds, around: Surroundings) {
      creds.access.Some? ==>
        Respond(db, GetSession(creds.access.value, around.clock(0), around.net(0))) == Refused(Unauthorized)
    }

    /** Everything up to the refresh: the call ends, or its process is about to refresh with what it loaded. */
    method TryFirst(p: nat, around: Surroundings) returns (ending: Option<Ending>, creds: Creds)
      requires Valid() && Get(View(), p).phase.Finished?
      modifies this, store
      ensures Valid() && Later(old(View()), View()) && old(moves) <= moves && creds == old(file)
      ensures ending.None? ==> creds.refresh.Some? && Get(View(), p).phase == Refreshing(creds)
      ensures ending.Some? ==> Idle(p)
      ensures ending.Some? && ending.value.Asked? ==> NotOlder(View(), old(fileAt), ending.value.bearer)
      ensures TriedFirst(ending, creds, around)
      ensures Quiet(around) ==>
                && store.Db() == old(store.Db())
                && (ending.None? <==> creds.refresh.Some? && RefusedFirst(store.Db(), creds, around))
    {
      ghost var before := View();
      AtFile();
      creds := LoadFile(p, around.others(0));
      if creds.access.Some? {
        ending := AskFirst(p, creds, around);
      } else {
        ending := AskNothing(p, creds);
      }
      if ending.Some? {
        AskedNotOlder(before, View(), ending.value);
      }
    }

    /**
     * `_authenticated_open`: ask with the file's access token; when it is refused, refresh once, save the new
     * session and ask again; when the refresh is refused, wait for somebody else's save.
     *
     * Whatever happens in between, the last request carries a session that is not older than the one the file
     * held when the call began, and its answer is the broker's; the user is sent to log in again only if the
     * file has not changed. `refresh` is the refresh the call sent, if any, and `seen` what it then found in the
     * file. When nothing goes wrong, the call succeeds as long as the file's session can be renewed.
     */
    method AuthenticatedOpen(p: nat, around: Surroundings)
      returns (ending: Ending, ghost refresh: Option<Refresh>, ghost seen: seq<Creds>)
      requires Valid() && Get(View(), p).phase.Finished?
      modifies this, store
      ensures Idle(p) && Later(old(View()), View()) && old(moves) <= moves
      ensures ending.Asked? ==>
                NotOlder(View(), old(fileAt), ending.bearer)
                && Answers(around, ending, if refresh.None? then 0 else 3)
      ensures ending.LoginRequired? ==> file == old(file)
      ensures ending.Raised? ==> ending.error !in {Unauthorized, Conflict, AlreadyUsed, Expired}
      ensures refresh.None? ==> TriedFirst(Some(ending), old(file), around)
      ensures refresh.Some? ==>
                && Sent(start, moves, |old(moves)|, p, around, refresh.value.at, refresh.value.seed)
                && old(file).refresh.Some? && ToldRightly(refresh.value, old(file).refresh.value, around)
                && EndsWell(ending, refresh.value.told, refresh.value.seed, old(file), seen, around)
      ensures Quiet(around) ==>
                (refresh.Some? <==> old(file).refresh.Some? && RefusedFirst(old(store.Db()), old(file), around))
      ensures Smooth(around) && RefusedFirst(old(store.Db()), old(file), around) && old(file).refresh.Some?
              && Availability.Renewable(old(store.Db()), old(file).refresh.value, around.clock(2)) ==>
                ending.Asked? && ending.reply.DoneUser?
    {
      AtFile();
      var first, creds := TryFirst(p, around);
      refresh, seen := None, [];
      if first.Some? {
        return first.value, None, [];
      }
      ghost var tried, past := |moves|, moves;
      ghost var sent;
      ending, sent, seen := RefreshAndAsk(p, creds, around);
      refresh := Some(sent);
      SentLater(start, moves, moves, tried, |old(moves)|, p, around, sent.at, sent.seed);
      AtFile();
    }

    /** The session is issued now, with the broker's two lifetimes. */
    predicate LivesFrom(seed: Seed, around: Surroundings, now: Time) {
      seed.accessExpires == now + around.accessTokenTTL && seed.refreshExpires == now + around.refreshTokenTTL
    }

    /** Random tokens nobody has seen before. */
    method DrawSeed(around: Surroundings, now: Time) returns (seed: Seed)
      ensures FreshSeed(View(), seed) && LivesFrom(seed, around, now)
    {
      var rest, top: nat := used, 0;
      while rest != {}
        invariant rest <= used && forall d :: d in used && d !in rest ==> d < top
        decreases |rest|
      {
        var d :| d in rest;
        if top <= d { top := d + 1; }
        rest := rest - {d};
      }
      seed := Seed(top, top + 1, now + around.accessTokenTTL, now + around.refreshTokenTTL);
    }
  }

  /** The access token of a session not older than the one at this place of the lineage. */
  ghost predicate NotOlder(s: System, at: nat, bearer: Digest) {
    exists i :: at <= i < |s.lineage| && s.lineage[i].access == bearer
  }

  /** A later state: the lineage has only grown and the file has not gone back. */
  predicate Later(before: System, after: System) {
    before.fileAt <= after.fileAt && before.lineage <= after.lineage
  }

  lemma {:induction false} DidLater(start: System, past: seq<Move>, move: Move)
    requires JustLoggedIn(start) && AllAllowed(start, past) && Allowed(Play(start, past), move)
    ensures Later(Play(start, past), Advance(Play(start, past), move))
  {
    PlayInv(start, past);
    AdvanceGrows(Play(start, past), move);
  }

  lemma {:induction false} AskedNotOlder(before: System, after: System, ending: Ending)
    requires Later(before, after) && before.fileAt < |before.lineage|
    requires ending.Asked? ==> before.lineage[before.fileAt].access == ending.bearer
    ensures ending.Asked? ==> NotOlder(after, before.fileAt, ending.bearer)
  {
    assert after.lineage[before.fileAt] == before.lineage[before.fileAt];
  }

  /** Where a rotation request leaves its process. */
  lemma {:induction false} RotationPhase(s: System, p: nat, seed: Seed, now: Time, net: Net)
    requires Get(s, p).phase.Refreshing? && Get(s, p).phase.creds.refresh.Some?
    ensures var creds := Get(s, p).phase.creds;
            var reply := Respond(s.db, Rotate(creds.refresh.value, seed, now, net));
            Get(Advance(s, RotateFor(p, seed, now, net)), p).phase
            == AfterRotation(Get(s, p), reply, creds, seed).phase
  {
  }

  lemma {:induction false} OthersLeave(s: System, move: Move, p: nat)
    requires !ByProcess(move, p)
    ensures Get(Advance(s, move), p) == Get(s, p)
  {
  }

  lemma {:induction false} AllowedNext(start: System, moves: seq<Move>, move: Move)
    requires AllAllowed(start, moves) && Allowed(Play(start, moves), move)
    ensures AllAllowed(start, moves + [move])
    ensures Play(start, moves + [move]) == Advance(Play(start, moves), move)
  {
    assert (moves + [move])[..|moves|] == moves;
    forall k | 0 <= k < |moves + [move]|
      ensures Allowed(Play(start, (moves + [move])[..k]), (moves + [move])[k])
    {
      if k < |moves| {
        assert (moves + [move])[..k] == moves[..k];
      }
    }
  }
}
