/** One device row over time: its status never falls back, and what is decided once stays decided. */
module StatusOrder {
  import opened Domain
  import opened AuthDatabase

  function Rank(status: Status): nat {
    match status
    case Pending => 0
    case Authorizing => 1
    case Approved => 2
    case Denied => 3
    case Consumed => 3
  }

  predicate Terminal(status: Status) { status in {Denied, Consumed} }

  /** `after` is a later version of the row `before`. */
  predicate Continues(before: Device, after: Device) {
    && after.userCode == before.userCode
    && after.expiresAt == before.expiresAt
    && Rank(before.status) <= Rank(after.status)
    && (before.status == Denied ==> after.status == Denied)
    && (before.holder.Some? ==> after.holder == before.holder && after.authorizedAt == before.authorizedAt)
    && (Terminal(before.status) ==> after == before)
  }

  /** No transaction on any store lowers a row's status, reassigns its user, or revives a finished row. */
  lemma {:induction false} StepContinues(db: Database, step: Step, h: Digest)
    requires Sound(db) && h in db.devices && h in Apply(db, step).devices
    ensures Continues(db.devices[h], Apply(db, step).devices[h])
  {
    if Commits(db, step) && OnRow(step) {
      RowWrites(db, step);
      var target := Located(db, step).value;
      RowContinues(db.devices[target], step);
      assert Apply(db, step).devices == db.devices[target := NewRow(db.devices[target], step)];
    }
  }

  lemma {:induction false} RowContinues(row: Device, step: Step)
    requires SoundDevice(row) && OnRow(step) && RowGuard(row, step)
    ensures Continues(row, NewRow(row, step))
  {
  }

  /** `code` was created anew between the two positions of the run. */
  ghost predicate Recreated(steps: seq<Step>, code: Digest, from: nat, upTo: nat) {
    exists c: nat :: CreatedAt(steps, c, code) && from <= c < upTo
  }

  ghost predicate CreatedAt(steps: seq<Step>, c: nat, code: Digest) {
    c < |steps| && steps[c].Create? && steps[c].code == code && Commits(Exec(steps[..c]), steps[c])
  }

  /** Over any stretch of a run a row only moves forward, unless it disappears and is created anew. */
  lemma {:induction false} RunContinues(steps: seq<Step>, code: Digest, from: nat, upTo: nat)
    requires from <= upTo <= |steps|
    requires code in Exec(steps[..from]).devices
    requires !Recreated(steps, code, from, upTo)
    ensures code in Exec(steps[..upTo]).devices ==>
      Continues(Exec(steps[..from]).devices[code], Exec(steps[..upTo]).devices[code])
    decreases upTo
  {
    if from < upTo {
      var p := upTo - 1;
      RunContinues(steps, code, from, p);
      assert steps[..upTo] == steps[..p] + [steps[p]];
      ExecSnoc(steps[..p], steps[p]);
      ExecSound(steps[..p]);
      var db := Exec(steps[..p]);
      assert code in Exec(steps[..upTo]).devices && code !in db.devices ==> CreatedAt(steps, p, code);
      if code in Exec(steps[..upTo]).devices {
        StepContinues(db, steps[p], code);
      }
    }
  }

  /** The run commits, at position `p`, a step on the row of `code`. */
  ghost predicate CommittedOn(steps: seq<Step>, p: nat, code: Digest) {
    && p < |steps| && OnRow(steps[p]) && Commits(Exec(steps[..p]), steps[p])
    && Located(Exec(steps[..p]), steps[p]) == Some(code)
  }

  predicate SameStage(a: Step, b: Step) {
    (a.Claim? && b.Claim?) || (a.Complete? && b.Complete?) || (a.Exchange? && b.Exchange?)
  }

  /**
   * An authorization is claimed once, completed once and exchanged once, counting commits nobody saw
   * acknowledged: a second commit of the same stage needs a new authorization under that code.
   */
  lemma {:induction false} StageCommitsOnce(steps: seq<Step>, p: nat, q: nat, code: Digest)
    requires p < q && CommittedOn(steps, p, code) && CommittedOn(steps, q, code)
    requires SameStage(steps[p], steps[q])
    ensures Recreated(steps, code, p + 1, q)
  {
    assert steps[..p + 1] == steps[..p] + [steps[p]];
    ExecSnoc(steps[..p], steps[p]);
    RowWrites(Exec(steps[..p]), steps[p]);
    RowWrites(Exec(steps[..q]), steps[q]);
    if !Recreated(steps, code, p + 1, q) {
      RunContinues(steps, code, p + 1, q);
    }
  }

  /** Once denied, a code is never exchanged again, unless a new authorization is created under it. */
  lemma {:induction false} DeniedStaysClosed(
    steps: seq<Step>, p: nat, q: nat, code: Digest, seed: Seed, now: Time, net: Net)
    requires p <= q <= |steps|
    requires code in Exec(steps[..p]).devices && Exec(steps[..p]).devices[code].status == Denied
    requires !Recreated(steps, code, p, q)
    ensures Respond(Exec(steps[..q]), Exchange(code, seed, now, net)).Refused?
  {
    RunContinues(steps, code, p, q);
  }
}
