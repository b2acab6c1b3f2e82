/**
 * Authorising the candidates of a search page: one task per candidate, run concurrently in any order, with
 * the first error cancelling the others; and the order of the results.
 */
module SearchFanout {
  import opened Domain
  import opened Ordering
  import opened Approvals

  /** What does not change during one search. `upstream` is what the approval system holds. */
  datatype Search = Search(
    candidates: seq<string>, upstream: string -> Approval, user: string, administrators: set<string>,
    keyword: string, fold: string -> string)

  datatype Verdict =
    | Taken(approval: Approval)
    | Skipped
    | Dropped             // a sibling's failure cancelled this task's request
    | Broken(error: Error)

  datatype Decision = Allowed | Denied(cause: Error)

  datatype Audit = Audit(instance: string, decision: Decision)

  /** A task waits for its approval, then perhaps for its audit record, and ends with a verdict. */
  datatype Task = Fetching | Auditing(decision: Decision, verdict: Verdict) | Done(verdict: Verdict)

  /** `groupError` is the first error of a task; it cancels the group. */
  datatype System = System(tasks: seq<Task>, groupError: Option<Error>, parentCancelled: bool, audits: seq<Audit>)

  datatype Event =
    | Fetched(i: nat)
    | FetchFailed(i: nat, error: Error, cancelled: bool)
    | Audited(i: nat)
    | AuditFailed(i: nat)
    | CancelParent

  predicate Wanted(search: Search, approval: Approval) {
    && approval.CanAccess(search.user, search.administrators)
    && approval.attachments != []
    && (search.keyword == "" || approval.MatchesKeyword(search.fold, search.keyword))
  }

  /** What a task does with the approval it got. */
  function Judge(search: Search, approval: Approval): Task {
    if !approval.CanAccess(search.user, search.administrators) then Auditing(Denied(Forbidden), Skipped)
    else if approval.attachments == [] then Done(Skipped)
    else if search.keyword != "" && !approval.MatchesKeyword(search.fold, search.keyword) then Done(Skipped)
    else Auditing(Allowed, Taken(approval))
  }

  /** A task ends; the first error is kept. */
  function End(s: System, i: nat, verdict: Verdict): System
    requires i < |s.tasks|
  {
    s.(tasks := s.tasks[i := Done(verdict)],
       groupError := if s.groupError.None? && verdict.Broken? then Some(verdict.error) else s.groupError)
  }

  function Advance(search: Search, s: System, e: Event): System {
    match e
    case Fetched(i) =>
      if i < |s.tasks| && i < |search.candidates| && s.tasks[i].Fetching?
      then s.(tasks := s.tasks[i := Judge(search, search.upstream(search.candidates[i]))]) else s
    case FetchFailed(i, error, cancelled) =>
      if !(i < |s.tasks| && s.tasks[i].Fetching?) then s
      else if cancelled && s.groupError.Some? && !s.parentCancelled then End(s, i, Dropped)
      else s.(tasks := s.tasks[i := Auditing(Denied(error), Broken(error))])
    case Audited(i) =>
      if i < |s.tasks| && i < |search.candidates| && s.tasks[i].Auditing?
      then End(s, i, s.tasks[i].verdict)
           .(audits := s.audits + [Audit(search.candidates[i], s.tasks[i].decision)]) else s
    case AuditFailed(i) =>
      if i < |s.tasks| && s.tasks[i].Auditing? then End(s, i, Broken(Unavailable)) else s
    case CancelParent => s.(parentCancelled := true)
  }

  function Play(search: Search, events: seq<Event>): System {
    if events == [] then System(seq(|search.candidates|, _ => Fetching), None, false, [])
    else Advance(search, Play(search, events[..|events| - 1]), events[|events| - 1])
  }

  predicate Finished(s: System) {
    forall i :: 0 <= i < |s.tasks| ==> s.tasks[i].Done?
  }

  /** The items of the tasks in the order of the candidates, whatever order they ended in. */
  function ItemsOf(tasks: seq<Task>): seq<Approval> {
    if tasks == [] then []
    else
      var last := tasks[|tasks| - 1];
      ItemsOf(tasks[..|tasks| - 1]) + (if last.Done? && last.verdict.Taken? then [last.verdict.approval] else [])
  }

  function Result(s: System): Answer<seq<Approval>> {
    if s.groupError.Some? then Failed(s.groupError.value) else Answered(ItemsOf(s.tasks))
  }

  /** The same search done one candidate after the other. */
  function Filtered(search: Search, candidates: seq<string>): seq<Approval> {
    if candidates == [] then []
    else
      var approval := search.upstream(candidates[|candidates| - 1]);
      Filtered(search, candidates[..|candidates| - 1]) + (if Wanted(search, approval) then [approval] else [])
  }

  function Expected(search: Search, id: string): Verdict {
    if Wanted(search, search.upstream(id)) then Taken(search.upstream(id)) else Skipped
  }

  predicate Recorded(audits: seq<Audit>, audit: Audit) {
    audit in audits
  }

  /** The audit record a candidate that was judged must have. */
  predicate AuditedOk(search: Search, id: string, audits: seq<Audit>) {
    var approval := search.upstream(id);
    && (Wanted(search, approval) ==> Recorded(audits, Audit(id, Allowed)))
    && (!approval.CanAccess(search.user, search.administrators) ==> Recorded(audits, Audit(id, Denied(Forbidden))))
  }

  predicate TaskOk(search: Search, id: string, task: Task, groupError: Option<Error>, audits: seq<Audit>) {
    match task
    case Fetching => true
    case Auditing(decision, verdict) =>
      || (verdict.Broken? && decision == Denied(verdict.error))
      || task == Judge(search, search.upstream(id))
    case Done(verdict) =>
      if verdict.Broken? || verdict.Dropped? then groupError.Some?
      else verdict == Expected(search, id) && AuditedOk(search, id, audits)
  }

  predicate Inv(search: Search, s: System) {
    && |s.tasks| == |search.candidates|
    && (forall i :: 0 <= i < |s.tasks| ==>
          TaskOk(search, search.candidates[i], s.tasks[i], s.groupError, s.audits))
    && (s.groupError.Some? ==> exists i :: 0 <= i < |s.tasks| && s.tasks[i] == Done(Broken(s.groupError.value)))
  }

  lemma {:induction false} AdvanceInv(search: Search, s: System, e: Event)
    requires Inv(search, s)
    ensures Inv(search, Advance(search, s, e))
  {
  }

  lemma {:induction false} PlayInv(search: Search, events: seq<Event>)
    ensures Inv(search, Play(search, events))
  {
    if events != [] {
      PlayInv(search, events[..|events| - 1]);
      AdvanceInv(search, Play(search, events[..|events| - 1]), events[|events| - 1]);
    }
  }

  lemma {:induction false} ItemsAreFiltered(search: Search, tasks: seq<Task>, candidates: seq<string>)
    requires |tasks| == |candidates|
    requires forall i :: 0 <= i < |tasks| ==> tasks[i] == Done(Expected(search, candidates[i]))
    ensures ItemsOf(tasks) == Filtered(search, candidates)
  {
    if tasks != [] {
      ItemsAreFiltered(search, tasks[..|tasks| - 1], candidates[..|candidates| - 1]);
    }
  }

  /**
   * Under every schedule, a search that succeeds gives exactly what filtering the candidates one by one
   * gives: no task was dropped, and every decision is on record.
   */
  lemma {:induction false} ConcurrentEqualsSequential(search: Search, events: seq<Event>)
    requires Finished(Play(search, events)) && Result(Play(search, events)).Answered?
    ensures Result(Play(search, events)) == Answered(Filtered(search, search.candidates))
    ensures Done(Dropped) !in Play(search, events).tasks
    ensures forall id :: id in search.candidates ==> AuditedOk(search, id, Play(search, events).audits)
  {
    PlayInv(search, events);
    var s := Play(search, events);
    forall i | 0 <= i < |s.tasks|
      ensures s.tasks[i] == Done(Expected(search, search.candidates[i]))
      ensures AuditedOk(search, search.candidates[i], s.audits)
    {
      assert TaskOk(search, search.candidates[i], s.tasks[i], s.groupError, s.audits);
      assert s.tasks[i].Done?;
    }
    ItemsAreFiltered(search, s.tasks, search.candidates);
  }

  /** A finished search fails exactly when some task failed; cancellation alone never hides a candidate. */
  lemma {:induction false} FailsIffSomeTaskFailed(search: Search, events: seq<Event>)
    requires Finished(Play(search, events))
    ensures var s := Play(search, events);
            Result(s).Failed? <==> exists i :: 0 <= i < |s.tasks| && s.tasks[i].Done? && s.tasks[i].verdict.Broken?
  {
    PlayInv(search, events);
    var s := Play(search, events);
    if exists i :: 0 <= i < |s.tasks| && s.tasks[i].Done? && s.tasks[i].verdict.Broken? {
      var i :| 0 <= i < |s.tasks| && s.tasks[i].Done? && s.tasks[i].verdict.Broken?;
      assert TaskOk(search, search.candidates[i], s.tasks[i], s.groupError, s.audits);
    }
  }

  // What a search comes to, in terms of the approvals.

  /** What the search is for: approvals with attachments that the user may see and that mention the keyword, if any. */
  ghost predicate Searched(search: Search, approval: Approval) {
    && search.user in Participants(approval) + search.administrators - {""}
    && |approval.attachments| > 0
    && (search.keyword == "" || Mentions(approval, search.fold, search.keyword))
  }

  lemma {:induction false} WhatIsWanted(search: Search, approval: Approval)
    ensures Wanted(search, approval) <==> Searched(search, approval)
  {
    WhoHasAccess(approval, search.administrators, search.user);
    WhatMatches(approval, search.fold, search.keyword);
  }

  /** A search that succeeds has found exactly the candidates' approvals that it is for. */
  lemma {:induction false} FoundIffSearched(search: Search, events: seq<Event>, approval: Approval)
    requires Finished(Play(search, events)) && Result(Play(search, events)).Answered?
    ensures approval in Result(Play(search, events)).value
       <==> Searched(search, approval) && exists id :: id in search.candidates && search.upstream(id) == approval
  {
    ConcurrentEqualsSequential(search, events);
    FilteredHas(search, search.candidates, approval);
    WhatIsWanted(search, approval);
    if exists id :: id in search.candidates && search.upstream(id) == approval {
      var id :| id in search.candidates && search.upstream(id) == approval;
      var i :| 0 <= i < |search.candidates| && search.candidates[i] == id;
    }
  }

  /** Allowed access is on record only for approvals that the search is for, also of searches that fail. */
  lemma {:induction false} AuditsAreTrue(search: Search, events: seq<Event>, id: string)
    requires Audit(id, Allowed) in Play(search, events).audits
    ensures id in search.candidates && Searched(search, search.upstream(id))
  {
    if events != [] {
      var past, e := events[..|events| - 1], events[|events| - 1];
      var s := Play(search, past);
      PlayInv(search, past);
      if Audit(id, Allowed) in s.audits {
        AuditsAreTrue(search, past, id);
      } else {
        assert e.Audited? && search.candidates[e.i] == id;
        assert TaskOk(search, id, s.tasks[e.i], s.groupError, s.audits);
        WhatIsWanted(search, search.upstream(id));
      }
    }
  }

  /** The event is a failure that counts: of a fetch that was not cancelled by a sibling's failure, or of an audit. */
  predicate Fails(s: System, e: Event) {
    match e
    case FetchFailed(i, _, cancelled) =>
      i < |s.tasks| && s.tasks[i].Fetching? && !(cancelled && s.groupError.Some? && !s.parentCancelled)
    case AuditFailed(i) => i < |s.tasks| && s.tasks[i].Auditing?
    case _ => false
  }

  predicate TaskFails(task: Task) {
    (task.Auditing? || task.Done?) && task.verdict.Broken?
  }

  lemma {:induction false} FailureStarts(search: Search, s: System, e: Event, i: nat)
    requires i < |Advance(search, s, e).tasks| && |s.tasks| == |Advance(search, s, e).tasks|
    ensures TaskFails(s.tasks[i]) ==> TaskFails(Advance(search, s, e).tasks[i])
    ensures TaskFails(Advance(search, s, e).tasks[i]) ==> TaskFails(s.tasks[i]) || Fails(s, e)
    ensures Fails(s, e) && i == e.i ==> TaskFails(Advance(search, s, e).tasks[i])
  {
  }

  ghost predicate FailsAt(search: Search, events: seq<Event>, k: nat) {
    k < |events| && Fails(Play(search, events[..k]), events[k])
  }

  lemma {:induction false} FailedEarlier(search: Search, events: seq<Event>, i: nat)
    requires i < |search.candidates|
    ensures |Play(search, events).tasks| == |search.candidates|
    ensures TaskFails(Play(search, events).tasks[i]) ==> exists k: nat :: FailsAt(search, events, k)
  {
    PlayInv(search, events);
    if events != [] {
      var past, e := events[..|events| - 1], events[|events| - 1];
      FailedEarlier(search, past, i);
      FailureStarts(search, Play(search, past), e, i);
      if k: nat :| FailsAt(search, past, k) {
        assert past[..k] == events[..k];
        assert FailsAt(search, events, k);
      }
      if Fails(Play(search, past), e) {
        assert FailsAt(search, events, |past|);
      }
    }
  }

  lemma {:induction false} FailureLasts(search: Search, events: seq<Event>, k: nat)
    requires FailsAt(search, events, k)
    ensures exists i :: 0 <= i < |Play(search, events).tasks| && TaskFails(Play(search, events).tasks[i])
  {
    var past, e := events[..|events| - 1], events[|events| - 1];
    PlayInv(search, past);
    PlayInv(search, events);
    if k == |past| {
      FailureStarts(search, Play(search, past), e, e.i);
    } else {
      assert past[..k] == events[..k];
      FailureLasts(search, past, k);
      var i :| 0 <= i < |Play(search, past).tasks| && TaskFails(Play(search, past).tasks[i]);
      FailureStarts(search, Play(search, past), e, i);
    }
  }

  /**
   * A finished search fails exactly when a fetch or an audit record failed; approvals that are not for the user, or
   * not what is searched for, never make it fail, and neither does a request that a sibling's failure cancelled.
   */
  lemma {:induction false} FailsIffSomethingFailed(search: Search, events: seq<Event>)
    requires Finished(Play(search, events))
    ensures Result(Play(search, events)).Failed? <==> exists k: nat :: FailsAt(search, events, k)
  {
    var s := Play(search, events);
    FailsIffSomeTaskFailed(search, events);
    if k: nat :| FailsAt(search, events, k) {
      FailureLasts(search, events, k);
    }
    if i :| 0 <= i < |s.tasks| && s.tasks[i].Done? && s.tasks[i].verdict.Broken? {
      PlayInv(search, events);
      FailedEarlier(search, events, i);
    }
  }

  // The order of the results.

  /** Newest first; unparsable times last; ties by the written time, then by the identifier, both descending. */
  predicate Newer(parse: string -> Option<Time>, a: Approval, b: Approval) {
    var s, t := parse(a.createTime), parse(b.createTime);
    if s.Some? && t.Some? && s.value != t.value then s.value > t.value
    else if s.Some? != t.Some? then s.Some?
    else if a.createTime != b.createTime then Before(b.createTime, a.createTime)
    else Before(b.instance, a.instance)
  }

  function Comparator(parse: string -> Option<Time>): (Approval, Approval) -> bool {
    (a, b) => Newer(parse, a, b)
  }

  lemma {:induction false} NewerTransitive(parse: string -> Option<Time>, a: Approval, b: Approval, c: Approval)
    requires Newer(parse, a, b) && Newer(parse, b, c)
    ensures Newer(parse, a, c)
  {
    BeforeIrreflexive(a.createTime);
    BeforeIrreflexive(b.createTime);
    if Before(b.createTime, a.createTime) && Before(c.createTime, b.createTime) {
      BeforeTransitive(c.createTime, b.createTime, a.createTime);
    }
    if Before(b.instance, a.instance) && Before(c.instance, b.instance) {
      BeforeTransitive(c.instance, b.instance, a.instance);
    }
  }

  lemma {:induction false} NewerIsTotal(parse: string -> Option<Time>, all: set<Approval>)
    requires forall a, b | a in all && b in all :: a.instance == b.instance ==> a == b
    ensures TotalOn(Comparator(parse), all)
  {
    var less := Comparator(parse);
    forall a | a in all
      ensures !less(a, a)
    {
      BeforeIrreflexive(a.instance);
    }
    forall a, b | a in all && b in all && a != b
      ensures less(a, b) || less(b, a)
    {
      if a.createTime != b.createTime { BeforeTotal(a.createTime, b.createTime); }
      BeforeTotal(a.instance, b.instance);
    }
    forall a, b, c | a in all && b in all && c in all && less(a, b) && less(b, c)
      ensures less(a, c)
    {
      NewerTransitive(parse, a, b, c);
    }
  }

  /** In the page's order: a later time first, an unreadable time last, and ties by text and identifier, descending. */
  predicate InOrder(parse: string -> Option<Time>, a: Approval, b: Approval) {
    match (parse(a.createTime), parse(b.createTime))
    case (Some(s), Some(t)) => t < s || (t == s && TextInOrder(a, b))
    case (Some(_), None) => true
    case (None, Some(_)) => false
    case (None, None) => TextInOrder(a, b)
  }

  predicate TextInOrder(a: Approval, b: Approval) {
    Before(b.createTime, a.createTime) || (a.createTime == b.createTime && Before(b.instance, a.instance))
  }

  lemma {:induction false} NewerIsInOrder(parse: string -> Option<Time>, a: Approval, b: Approval)
    ensures Newer(parse, a, b) <==> InOrder(parse, a, b)
  {
    BeforeIrreflexive(a.createTime);
  }

  /** Each approval answers for the identifier it was asked for. */
  ghost predicate Named(search: Search) {
    forall id :: search.upstream(id).instance == id
  }

  lemma {:induction false} FilteredHas(search: Search, candidates: seq<string>, approval: Approval)
    ensures approval in Filtered(search, candidates)
       <==> exists i :: 0 <= i < |candidates| && search.upstream(candidates[i]) == approval && Wanted(search, approval)
  {
    if candidates != [] {
      var before := candidates[..|candidates| - 1];
      FilteredHas(search, before, approval);
      if approval in Filtered(search, before) {
        var i :| 0 <= i < |before| && search.upstream(before[i]) == approval && Wanted(search, approval);
        assert candidates[i] == before[i];
      }
      if exists i :: 0 <= i < |candidates| && search.upstream(candidates[i]) == approval && Wanted(search, approval) {
        var i :| 0 <= i < |candidates| && search.upstream(candidates[i]) == approval && Wanted(search, approval);
        if i < |before| { assert before[i] == candidates[i]; }
      }
    }
  }

  lemma {:induction false} FilteredDistinct(search: Search, candidates: seq<string>)
    requires Named(search) && Distinct(candidates)
    ensures Distinct(Filtered(search, candidates))
  {
    if candidates != [] {
      var before, last := candidates[..|candidates| - 1], candidates[|candidates| - 1];
      FilteredDistinct(search, before);
      FilteredHas(search, before, search.upstream(last));
      assert forall i :: 0 <= i < |before| ==> search.upstream(before[i]).instance == before[i] != last;
    }
  }

  function Members(all: seq<Approval>): set<Approval> {
    set a | a in all
  }

  /** The page as it is returned does not depend on schedules, nor on the order the candidates were listed in. */
  lemma {:induction false} PageIsDeterministic(
    search: Search, parse: string -> Option<Time>, events: seq<Event>, shuffled: seq<string>, others: seq<Event>)
    requires Named(search) && Distinct(search.candidates) && Distinct(shuffled)
    requires forall id :: id in search.candidates <==> id in shuffled
    requires Finished(Play(search, events)) && Result(Play(search, events)).Answered?
    requires var again := search.(candidates := shuffled);
             Finished(Play(again, others)) && Result(Play(again, others)).Answered?
    ensures Sort(Comparator(parse), Result(Play(search, events)).value)
         == Sort(Comparator(parse), Result(Play(search.(candidates := shuffled), others)).value)
    ensures Sorted(Comparator(parse), Sort(Comparator(parse), Result(Play(search, events)).value))
    ensures var page := Sort(Comparator(parse), Result(Play(search, events)).value);
            forall i, j :: 0 <= i < j < |page| ==> InOrder(parse, page[i], page[j])
  {
    var again := search.(candidates := shuffled);
    ConcurrentEqualsSequential(search, events);
    ConcurrentEqualsSequential(again, others);
    SameFilter(search, again, shuffled);
    ShuffledPage(search, parse, search.candidates, shuffled);
    var page := Sort(Comparator(parse), Result(Play(search, events)).value);
    forall i, j | 0 <= i < j < |page|
      ensures InOrder(parse, page[i], page[j])
    {
      NewerIsInOrder(parse, page[i], page[j]);
    }
  }

  /** The filter does not look at the search's own list of candidates. */
  lemma {:induction false} SameFilter(search: Search, again: Search, candidates: seq<string>)
    requires again == search.(candidates := again.candidates)
    ensures Filtered(search, candidates) == Filtered(again, candidates)
  {
    if candidates != [] {
      SameFilter(search, again, candidates[..|candidates| - 1]);
    }
  }

  lemma {:induction false} ShuffledPage(
    search: Search, parse: string -> Option<Time>, candidates: seq<string>, shuffled: seq<string>)
    requires Named(search) && Distinct(candidates) && Distinct(shuffled)
    requires forall id :: id in candidates <==> id in shuffled
    ensures Sort(Comparator(parse), Filtered(search, candidates)) == Sort(Comparator(parse), Filtered(search, shuffled))
    ensures Sorted(Comparator(parse), Sort(Comparator(parse), Filtered(search, candidates)))
  {
    var x, y := Filtered(search, candidates), Filtered(search, shuffled);
    FilteredDistinct(search, candidates);
    FilteredDistinct(search, shuffled);
    forall a
      ensures a in x <==> a in y
    {
      Shuffle(search, candidates, shuffled, a);
      Shuffle(search, shuffled, candidates, a);
    }
    forall a, b | a in Members(x) && b in Members(x) && a.instance == b.instance
      ensures a == b
    {
      FilteredHas(search, candidates, a);
      FilteredHas(search, candidates, b);
    }
    NewerIsTotal(parse, Members(x));
    SortIgnoresOrder(Comparator(parse), x, y, Members(x));
  }

  lemma {:induction false} Shuffle(search: Search, from: seq<string>, into: seq<string>, a: Approval)
    requires forall id :: id in from ==> id in into
    ensures a in Filtered(search, from) ==> a in Filtered(search, into)
  {
    FilteredHas(search, from, a);
    FilteredHas(search, into, a);
    if a in Filtered(search, from) {
      var i :| 0 <= i < |from| && search.upstream(from[i]) == a && Wanted(search, a);
      assert from[i] in into;
      var j :| 0 <= j < |into| && into[j] == from[i];
      assert search.upstream(into[j]) == a;
    }
  }
}
