/**
 * Listing the candidates of one search page: the page limit is split over the sources that are not
 * exhausted, each is asked for its next identifiers, and identifiers seen twice are kept once.
 */
module Candidates {
  import opened Domain
  import opened SearchChain

  const MAX_RESULTS := 20

  datatype IdPage = IdPage(ids: seq<string>, next: Option<int>)

  datatype Candidate = Candidate(id: string, source: nat)

  /** The upstream answers for a source, a token and a maximum. */
  type Upstream = (nat, int, int) -> Answer<IdPage>

  /** `NormalizeProcessInstanceID` as a parameter: the normal form of a valid identifier. */
  type Normal = string -> Option<string>

  /** The client checks its query and insists that a token advances. */
  function Ask(upstream: Upstream, source: nat, token: int, max: int): Answer<IdPage> {
    if token < 0 || max < 1 || MAX_RESULTS < max then Failed(InvalidInput)
    else
      var page := upstream(source, token, max);
      if page.Answered? && page.value.next.Some? && (page.value.next.value < 0 || page.value.next.value <= token)
      then Failed(Upstream) else page
  }

  // Quotas.

  function Share(limit: nat, active: nat): (q: nat)
    requires 0 < active
    ensures q * active <= limit < q * active + active && q <= limit
  {
    ShareBounds(limit, active);
    limit / active
  }

  lemma {:induction false} ShareBounds(limit: nat, active: nat)
    requires 0 < active
    ensures var q := limit / active; q * active <= limit < q * active + active && q <= limit
  {
    var q, r := limit / active, limit % active;
    assert limit == active * q + r;
    Crossed(active, 0, q);
  }

  lemma {:induction false} Crossed(p: nat, q: nat, a: nat)
    ensures p > q ==> p * a >= q * a + a
  {
    if p > q {
      var d := p - q - 1;
      assert p * a == (q + 1 + d) * a == q * a + a + d * a;
      assert d * a >= 0;
    }
  }

  /** The share is the only number whose multiple fits below the limit like this. */
  lemma {:induction false} ShareUnique(limit: nat, active: nat, q: nat)
    requires 0 < active && q * active <= limit < q * active + active
    ensures Share(limit, active) == q
  {
    Crossed(q, Share(limit, active), active);
    Crossed(Share(limit, active), q, active);
  }

  /** The quota of the k-th of `active` sources. */
  function QuotaAt(limit: nat, active: nat, k: nat): nat
    requires k < active
  {
    if k == 0 then Share(limit, active) else QuotaAt(limit - Share(limit, active), active - 1, k - 1)
  }

  function QuotaSum(limit: nat, active: nat, n: nat): nat
    requires n <= active
  {
    if n == 0 then 0 else QuotaSum(limit, active, n - 1) + QuotaAt(limit, active, n - 1)
  }

  lemma {:induction false} LessOne(share: nat, active: nat)
    requires 0 < active
    ensures share * active - share == share * (active - 1)
  {
  }

  /** When `rest` sources must get one more than the others, each gets the share or one more. */
  lemma {:induction false} SpreadIsFair(limit: nat, active: nat, k: nat, share: nat, rest: nat)
    requires k < active && limit == share * active + rest && rest < active
    ensures share <= QuotaAt(limit, active, k) <= (if rest == 0 then share else share + 1)
  {
    ShareUnique(limit, active, share);
    if k > 0 {
      LessOne(share, active);
      if rest == active - 1 {
        assert limit - share == share * (active - 1) + (active - 1) == (share + 1) * (active - 1);
        SpreadIsFair(limit - share, active - 1, k - 1, share + 1, 0);
      } else {
        SpreadIsFair(limit - share, active - 1, k - 1, share, rest);
      }
    }
  }

  /** Each quota is the even share, rounded down or up. */
  lemma {:induction false} QuotaIsFair(limit: nat, active: nat, k: nat)
    requires k < active
    ensures var q := limit / active;
            q <= QuotaAt(limit, active, k) <= (if q * active == limit then q else q + 1)
  {
    var q := Share(limit, active);
    SpreadIsFair(limit, active, k, q, limit - q * active);
  }

  /** The quotas of all active sources add up to the limit. */
  lemma {:induction false} QuotasAddUp(limit: nat, active: nat)
    requires 0 < active
    ensures QuotaSum(limit, active, active) == limit
  {
    SumShift(limit, active, active);
    if active > 1 {
      QuotasAddUp(limit - Share(limit, active), active - 1);
    } else {
      assert QuotaSum(limit - Share(limit, 1), 0, 0) == 0;
      ShareUnique(limit, 1, limit);
    }
  }

  lemma {:induction false} SumShift(limit: nat, active: nat, n: nat)
    requires 1 <= n <= active
    ensures QuotaSum(limit, active, n)
         == Share(limit, active) + QuotaSum(limit - Share(limit, active), active - 1, n - 1)
  {
    if n == 1 {
      assert QuotaSum(limit, active, 0) == 0;
    } else {
      SumShift(limit, active, n - 1);
    }
  }

  /** Exactly with a limit of at least one per source, every source is asked for something. */
  lemma {:induction false} QuotaPositiveIff(limit: nat, active: nat)
    requires 0 < active
    ensures (forall k :: 0 <= k < active ==> 1 <= QuotaAt(limit, active, k)) <==> active <= limit
  {
    if active <= limit {
      Crossed(1, Share(limit, active), active);
      forall k | 0 <= k < active
        ensures 1 <= QuotaAt(limit, active, k)
      {
        QuotaIsFair(limit, active, k);
      }
    } else {
      ShareUnique(limit, active, 0);
      assert QuotaAt(limit, active, 0) == 0;
    }
  }

  // One page.

  function ActiveBefore(sources: seq<SourceCursor>, n: nat): nat
    requires n <= |sources|
    ensures ActiveBefore(sources, n) <= n
  {
    if n == 0 then 0 else ActiveBefore(sources, n - 1) + (if sources[n - 1].done then 0 else 1)
  }

  function Active(sources: seq<SourceCursor>): nat {
    ActiveBefore(sources, |sources|)
  }

  lemma {:induction false} ActiveMonotone(sources: seq<SourceCursor>, m: nat, n: nat)
    requires m <= n <= |sources|
    ensures ActiveBefore(sources, m) <= ActiveBefore(sources, n)
  {
    if m < n { ActiveMonotone(sources, m, n - 1); }
  }

  function QuotaOf(sources: seq<SourceCursor>, limit: nat, i: nat): nat
    requires i < |sources| && !sources[i].done
  {
    ActiveMonotone(sources, i + 1, |sources|);
    QuotaAt(limit, Active(sources), ActiveBefore(sources, i))
  }

  function PageOf(upstream: Upstream, sources: seq<SourceCursor>, limit: nat, i: nat): Answer<IdPage>
    requires i < |sources| && !sources[i].done
  {
    Ask(upstream, i, sources[i].nextToken, QuotaOf(sources, limit, i))
  }

  predicate AllNormal(normal: Normal, ids: seq<string>) {
    forall k :: 0 <= k < |ids| ==> normal(ids[k]).Some?
  }

  /** An active source answers with no more than its quota of valid identifiers. */
  predicate Answers(upstream: Upstream, normal: Normal, sources: seq<SourceCursor>, limit: nat, i: nat)
    requires i < |sources| && !sources[i].done
  {
    var page := PageOf(upstream, sources, limit, i);
    page.Answered? && |page.value.ids| <= QuotaOf(sources, limit, i) && AllNormal(normal, page.value.ids)
  }

  /** Why a page fails at an active source: its own error, or an answer that is out of bounds. */
  function ErrorAt(upstream: Upstream, sources: seq<SourceCursor>, limit: nat, i: nat): Error
    requires i < |sources| && !sources[i].done
  {
    var page := PageOf(upstream, sources, limit, i);
    if page.Failed? then page.error else Error.Upstream
  }

  predicate AllAnswer(upstream: Upstream, normal: Normal, sources: seq<SourceCursor>, limit: nat, n: nat)
    requires n <= |sources|
  {
    forall i | 0 <= i < n :: sources[i].done || Answers(upstream, normal, sources, limit, i)
  }

  function NextSource(upstream: Upstream, sources: seq<SourceCursor>, limit: nat, i: nat): SourceCursor
    requires i < |sources|
  {
    var source := sources[i];
    if source.done then source
    else
      var page := PageOf(upstream, sources, limit, i);
      if page.Failed? then source
      else if page.value.next.None? then source.(done := true) else source.(nextToken := page.value.next.value)
  }

  predicate Has(found: seq<Candidate>, id: string) {
    exists i :: 0 <= i < |found| && found[i].id == id
  }

  /** The identifiers of a page, normalized, without those already found. */
  function WithIds(normal: Normal, found: seq<Candidate>, ids: seq<string>, source: nat): seq<Candidate> {
    if ids == [] then found
    else
      var before, id := WithIds(normal, found, ids[..|ids| - 1], source), normal(ids[|ids| - 1]);
      if id.None? || Has(before, id.value) then before else before + [Candidate(id.value, source)]
  }

  /** What the first `n` sources contribute to the page. */
  function Found(upstream: Upstream, normal: Normal, sources: seq<SourceCursor>, limit: nat, n: nat): seq<Candidate>
    requires n <= |sources|
  {
    if n == 0 then []
    else
      var before := Found(upstream, normal, sources, limit, n - 1);
      if sources[n - 1].done then before
      else match PageOf(upstream, sources, limit, n - 1)
        case Answered(page) => WithIds(normal, before, page.ids, n - 1)
        case Failed(_) => before
  }

  ghost predicate Seen(seen: set<string>, found: seq<Candidate>) {
    forall id :: id in seen <==> Has(found, id)
  }

  method AddIds(normal: Normal, found: seq<Candidate>, seen: set<string>, ids: seq<string>, source: nat)
    returns (ok: bool, found': seq<Candidate>, seen': set<string>)
    requires Seen(seen, found)
    ensures ok == AllNormal(normal, ids)
    ensures ok ==> found' == WithIds(normal, found, ids, source) && Seen(seen', found')
  {
    found', seen' := found, seen;
    for k := 0 to |ids|
      invariant AllNormal(normal, ids[..k])
      invariant found' == WithIds(normal, found, ids[..k], source) && Seen(seen', found')
    {
      var id := normal(ids[k]);
      if id.None? {
        return false, found', seen';
      }
      assert ids[..k + 1][..k] == ids[..k];
      if id.value !in seen' {
        HasMore(found', Candidate(id.value, source));
        found', seen' := found' + [Candidate(id.value, source)], seen' + {id.value};
      }
    }
    assert ids[..|ids|] == ids;
    ok := true;
  }

  lemma {:induction false} HasMore(found: seq<Candidate>, c: Candidate)
    ensures forall id :: Has(found + [c], id) <==> Has(found, id) || id == c.id
  {
    forall id
      ensures Has(found + [c], id) <==> Has(found, id) || id == c.id
    {
      if Has(found, id) {
        var i :| 0 <= i < |found| && found[i].id == id;
        assert (found + [c])[i].id == id;
      }
      assert (found + [c])[|found|].id == c.id;
    }
  }

  /** Quotas of the sources still to come, in terms of what is left. */
  ghost predicate Left(limit: nat, active: nat, passed: nat, remainingLimit: nat, remainingSources: nat) {
    && passed + remainingSources == active
    && forall j: nat | j < remainingSources :: SameQuota(limit, active, passed, remainingLimit, remainingSources, j)
  }

  predicate SameQuota(limit: nat, active: nat, passed: nat, remainingLimit: nat, remainingSources: nat, j: nat)
    requires j < remainingSources && passed + remainingSources == active
  {
    QuotaAt(remainingLimit, remainingSources, j) == QuotaAt(limit, active, passed + j)
  }

  lemma {:induction false} LeftNext(limit: nat, active: nat, passed: nat, remainingLimit: nat, remainingSources: nat)
    requires Left(limit, active, passed, remainingLimit, remainingSources) && 0 < remainingSources
    ensures Share(remainingLimit, remainingSources) == QuotaAt(limit, active, passed)
    ensures Left(limit, active, passed + 1, remainingLimit - Share(remainingLimit, remainingSources), remainingSources - 1)
  {
    assert SameQuota(limit, active, passed, remainingLimit, remainingSources, 0);
    var rest, fewer, next := remainingLimit - Share(remainingLimit, remainingSources), remainingSources - 1, passed + 1;
    forall j: nat | j < fewer
      ensures SameQuota(limit, active, next, rest, fewer, j)
    {
      assert SameQuota(limit, active, passed, remainingLimit, remainingSources, j + 1);
    }
  }

  /** One active source is asked; its position and what was found change together. */
  method TakePage(
    upstream: Upstream, normal: Normal, sources: seq<SourceCursor>, limit: nat, i: nat, quota: nat,
    found: seq<Candidate>, seen: set<string>)
    returns (failure: Option<Error>, source: SourceCursor, found': seq<Candidate>, seen': set<string>)
    requires i < |sources| && !sources[i].done && quota == QuotaOf(sources, limit, i)
    requires found == Found(upstream, normal, sources, limit, i) && Seen(seen, found)
    ensures failure.None? == Answers(upstream, normal, sources, limit, i)
    ensures failure.Some? ==> failure.value == ErrorAt(upstream, sources, limit, i)
    ensures failure.None? ==> source == NextSource(upstream, sources, limit, i)
    ensures failure.None? ==> found' == Found(upstream, normal, sources, limit, i + 1) && Seen(seen', found')
  {
    source, found', seen' := sources[i], found, seen;
    var page := Ask(upstream, i, sources[i].nextToken, quota);
    if page.Failed? {
      return Some(page.error), source, found', seen';
    }
    if quota < |page.value.ids| {
      return Some(Error.Upstream), source, found', seen';
    }
    if page.value.next.None? {
      source := source.(done := true);
    } else {
      source := source.(nextToken := page.value.next.value);
    }
    var ok;
    ok, found', seen' := AddIds(normal, found, seen, page.value.ids, i);
    failure := if ok then None else Some(Error.Upstream);
  }

  /** The loop's variables after the first `i` sources. */
  datatype Progress = Progress(remainingLimit: nat, remainingSources: nat, found: seq<Candidate>, seen: set<string>)

  ghost predicate Passed(
    upstream: Upstream, normal: Normal, sources: seq<SourceCursor>, limit: nat, i: nat, p: Progress)
    requires i <= |sources|
  {
    && AllAnswer(upstream, normal, sources, limit, i)
    && Left(limit, Active(sources), ActiveBefore(sources, i), p.remainingLimit, p.remainingSources)
    && p.found == Found(upstream, normal, sources, limit, i) && Seen(p.seen, p.found)
  }

  method VisitSource(
    upstream: Upstream, normal: Normal, sources: seq<SourceCursor>, limit: nat, i: nat, p: Progress)
    returns (failure: Option<Error>, source: SourceCursor, p': Progress)
    requires i < |sources| && Passed(upstream, normal, sources, limit, i, p)
    ensures failure.None? == (sources[i].done || Answers(upstream, normal, sources, limit, i))
    ensures failure.Some? ==> failure.value == ErrorAt(upstream, sources, limit, i)
    ensures failure.None? ==> source == NextSource(upstream, sources, limit, i)
    ensures failure.None? ==> Passed(upstream, normal, sources, limit, i + 1, p')
  {
    if sources[i].done {
      return None, sources[i], p;
    }
    ActiveMonotone(sources, i + 1, |sources|);
    LeftNext(limit, Active(sources), ActiveBefore(sources, i), p.remainingLimit, p.remainingSources);
    var quota := Share(p.remainingLimit, p.remainingSources);
    var found, seen;
    failure, source, found, seen := TakePage(upstream, normal, sources, limit, i, quota, p.found, p.seen);
    p' := Progress(p.remainingLimit - quota, p.remainingSources - 1, found, seen);
  }

  /**
   * Every active source is asked once, with its quota; the page succeeds exactly when all answer properly,
   * and then each source has moved on and the identifiers found are kept once. Otherwise the error is that of the
   * first source that does not.
   */
  method ListCandidates(upstream: Upstream, normal: Normal, sources: seq<SourceCursor>, limit: nat)
    returns (r: Answer<seq<Candidate>>, sources': seq<SourceCursor>)
    ensures r.Answered? == AllAnswer(upstream, normal, sources, limit, |sources|)
    ensures r.Answered? ==> r.value == Found(upstream, normal, sources, limit, |sources|)
    ensures r.Answered? ==> sources' == NextSources(upstream, sources, limit)
    ensures r.Failed? ==>
      exists i | 0 <= i < |sources| ::
        && AllAnswer(upstream, normal, sources, limit, i) && !sources[i].done
        && !Answers(upstream, normal, sources, limit, i) && r.error == ErrorAt(upstream, sources, limit, i)
  {
    var active := CountActive(sources);
    var p := Progress(limit, active, [], {});
    sources' := sources;
    for i := 0 to |sources|
      invariant |sources'| == |sources| && Passed(upstream, normal, sources, limit, i, p)
      invariant forall j :: 0 <= j < i ==> sources'[j] == NextSource(upstream, sources, limit, j)
    {
      var failure, source;
      failure, source, p := VisitSource(upstream, normal, sources, limit, i, p);
      if failure.Some? {
        return Failed(failure.value), sources';
      }
      sources' := sources'[i := source];
    }
    r := Answered(p.found);
  }

  function NextSources(upstream: Upstream, sources: seq<SourceCursor>, limit: nat): seq<SourceCursor> {
    seq(|sources|, i requires 0 <= i < |sources| => NextSource(upstream, sources, limit, i))
  }

  method CountActive(sources: seq<SourceCursor>) returns (active: nat)
    ensures active == Active(sources)
  {
    active := 0;
    for i := 0 to |sources|
      invariant active == ActiveBefore(sources, i)
    {
      if !sources[i].done { active := active + 1; }
    }
  }
}
