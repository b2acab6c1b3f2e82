/**
 * What pages of candidates add up to: each page is bounded and free of repetitions, and following the
 * cursors lists exactly what the upstream has, in finitely many pages.
 */
module CandidateWalk {
  import opened Domain
  import opened SearchChain
  import opened Candidates

  // One page.

  predicate DistinctIds(found: seq<Candidate>) {
    forall i, j :: 0 <= i < j < |found| ==> found[i].id != found[j].id
  }

  /** Some identifier of the list has this normal form. */
  predicate Names(normal: Normal, ids: seq<string>, id: string) {
    exists k :: 0 <= k < |ids| && normal(ids[k]) == Some(id)
  }

  lemma {:induction false} WithIdsOk(normal: Normal, found: seq<Candidate>, ids: seq<string>, source: nat)
    requires DistinctIds(found)
    ensures DistinctIds(WithIds(normal, found, ids, source))
    ensures |WithIds(normal, found, ids, source)| <= |found| + |ids|
  {
    if ids != [] {
      WithIdsOk(normal, found, ids[..|ids| - 1], source);
    }
  }

  lemma {:induction false} NamesMore(normal: Normal, ids: seq<string>, id: string)
    requires ids != []
    ensures Names(normal, ids, id)
       <==> Names(normal, ids[..|ids| - 1], id) || normal(ids[|ids| - 1]) == Some(id)
  {
  }

  lemma {:induction false} WithIdsHas(normal: Normal, found: seq<Candidate>, ids: seq<string>, source: nat, id: string)
    ensures Has(WithIds(normal, found, ids, source), id) <==> Has(found, id) || Names(normal, ids, id)
  {
    if ids != [] {
      WithIdsHas(normal, found, ids[..|ids| - 1], source, id);
      NamesMore(normal, ids, id);
      var last := normal(ids[|ids| - 1]);
      if last.Some? {
        HasMore(WithIds(normal, found, ids[..|ids| - 1], source), Candidate(last.value, source));
      }
    }
  }

  lemma {:induction false} QuotaSumGrows(limit: nat, active: nat, m: nat, n: nat)
    requires m <= n <= active
    ensures QuotaSum(limit, active, m) <= QuotaSum(limit, active, n)
  {
    if m < n { QuotaSumGrows(limit, active, m, n - 1); }
  }

  lemma {:induction false} FoundDistinct(upstream: Upstream, normal: Normal, sources: seq<SourceCursor>, limit: nat, n: nat)
    requires n <= |sources|
    ensures DistinctIds(Found(upstream, normal, sources, limit, n))
  {
    if n > 0 {
      FoundDistinct(upstream, normal, sources, limit, n - 1);
      if !sources[n - 1].done && PageOf(upstream, sources, limit, n - 1).Answered? {
        WithIdsOk(normal, Found(upstream, normal, sources, limit, n - 1),
                  PageOf(upstream, sources, limit, n - 1).value.ids, n - 1);
      }
    }
  }

  /** One source adds at most its quota. */
  lemma {:induction false} FoundGrows(upstream: Upstream, normal: Normal, sources: seq<SourceCursor>, limit: nat, i: nat)
    requires i < |sources| && !sources[i].done && Answers(upstream, normal, sources, limit, i)
    ensures |Found(upstream, normal, sources, limit, i + 1)|
         <= |Found(upstream, normal, sources, limit, i)| + QuotaOf(sources, limit, i)
  {
    FoundDistinct(upstream, normal, sources, limit, i);
    WithIdsOk(normal, Found(upstream, normal, sources, limit, i), PageOf(upstream, sources, limit, i).value.ids, i);
  }

  /** What the first `n` sources may contribute. */
  function Allowance(sources: seq<SourceCursor>, limit: nat, n: nat): nat
    requires n <= |sources|
  {
    if n == 0 then 0
    else Allowance(sources, limit, n - 1) + (if sources[n - 1].done then 0 else QuotaOf(sources, limit, n - 1))
  }

  lemma {:induction false} FoundWithinAllowance(
    upstream: Upstream, normal: Normal, sources: seq<SourceCursor>, limit: nat, n: nat)
    requires n <= |sources| && AllAnswer(upstream, normal, sources, limit, n)
    ensures |Found(upstream, normal, sources, limit, n)| <= Allowance(sources, limit, n)
  {
    if n > 0 {
      FoundWithinAllowance(upstream, normal, sources, limit, n - 1);
      if !sources[n - 1].done {
        FoundGrows(upstream, normal, sources, limit, n - 1);
      }
    }
  }

  lemma {:induction false} AllowanceIsQuotas(sources: seq<SourceCursor>, limit: nat, n: nat)
    requires n <= |sources|
    ensures ActiveBefore(sources, n) <= Active(sources)
    ensures Allowance(sources, limit, n) == QuotaSum(limit, Active(sources), ActiveBefore(sources, n))
  {
    ActiveMonotone(sources, n, |sources|);
    if n > 0 {
      AllowanceIsQuotas(sources, limit, n - 1);
      if !sources[n - 1].done { QuotaSumNext(sources, limit, n - 1); }
    }
  }

  lemma {:induction false} QuotaSumNext(sources: seq<SourceCursor>, limit: nat, i: nat)
    requires i < |sources| && !sources[i].done
    ensures ActiveBefore(sources, i + 1) == ActiveBefore(sources, i) + 1 <= Active(sources)
    ensures QuotaSum(limit, Active(sources), ActiveBefore(sources, i + 1))
         == QuotaSum(limit, Active(sources), ActiveBefore(sources, i)) + QuotaOf(sources, limit, i)
  {
    ActiveMonotone(sources, i + 1, |sources|);
  }

  /** A page's candidates are distinct and at most as many as its limit. */
  lemma {:induction false} PageIsBounded(upstream: Upstream, normal: Normal, sources: seq<SourceCursor>, limit: nat)
    requires AllAnswer(upstream, normal, sources, limit, |sources|)
    ensures DistinctIds(Found(upstream, normal, sources, limit, |sources|))
    ensures |Found(upstream, normal, sources, limit, |sources|)| <= limit
  {
    FoundDistinct(upstream, normal, sources, limit, |sources|);
    FoundWithinAllowance(upstream, normal, sources, limit, |sources|);
    AllowanceIsQuotas(sources, limit, |sources|);
    if Active(sources) > 0 {
      QuotasAddUp(limit, Active(sources));
    }
  }

  /** The i-th source's page names the identifier. */
  predicate Gives(upstream: Upstream, normal: Normal, sources: seq<SourceCursor>, limit: nat, i: nat, id: string)
    requires i < |sources|
  {
    !sources[i].done && PageOf(upstream, sources, limit, i).Answered?
    && Names(normal, PageOf(upstream, sources, limit, i).value.ids, id)
  }

  predicate SomeGives(upstream: Upstream, normal: Normal, sources: seq<SourceCursor>, limit: nat, n: nat, id: string)
    requires n <= |sources|
  {
    exists i | 0 <= i < n :: Gives(upstream, normal, sources, limit, i, id)
  }

  /** No identifier of any source's page is lost, and none is made up. */
  lemma {:induction false} FoundIffGiven(
    upstream: Upstream, normal: Normal, sources: seq<SourceCursor>, limit: nat, n: nat, id: string)
    requires n <= |sources|
    ensures Has(Found(upstream, normal, sources, limit, n), id)
       <==> SomeGives(upstream, normal, sources, limit, n, id)
  {
    if n > 0 {
      FoundIffGiven(upstream, normal, sources, limit, n - 1, id);
      var before := Found(upstream, normal, sources, limit, n - 1);
      if !sources[n - 1].done && PageOf(upstream, sources, limit, n - 1).Answered? {
        WithIdsHas(normal, before, PageOf(upstream, sources, limit, n - 1).value.ids, n - 1, id);
      }
      assert SomeGives(upstream, normal, sources, limit, n, id)
        <==> SomeGives(upstream, normal, sources, limit, n - 1, id) || Gives(upstream, normal, sources, limit, n - 1, id);
    }
  }

  // A whole walk over an upstream that does not change.

  /** A candidate is listed under the first source whose page names it. */
  lemma {:induction false} FoundFromSource(
    upstream: Upstream, normal: Normal, sources: seq<SourceCursor>, limit: nat, n: nat, c: Candidate)
    requires n <= |sources| && c in Found(upstream, normal, sources, limit, n)
    ensures c.source < n && Gives(upstream, normal, sources, limit, c.source, c.id)
    ensures !SomeGives(upstream, normal, sources, limit, c.source, c.id)
  {
    var before := Found(upstream, normal, sources, limit, n - 1);
    if c in before {
      FoundFromSource(upstream, normal, sources, limit, n - 1, c);
    } else {
      var ids := PageOf(upstream, sources, limit, n - 1).value.ids;
      AddedFromSource(normal, before, ids, n - 1, c);
      FoundIffGiven(upstream, normal, sources, limit, n - 1, c.id);
    }
  }

  lemma {:induction false} AddedFromSource(
    normal: Normal, found: seq<Candidate>, ids: seq<string>, source: nat, c: Candidate)
    requires c in WithIds(normal, found, ids, source) && c !in found
    ensures c.source == source && Names(normal, ids, c.id) && !Has(found, c.id)
  {
    var less := ids[..|ids| - 1];
    NamesMore(normal, ids, c.id);
    if c in WithIds(normal, found, less, source) {
      AddedFromSource(normal, found, less, source, c);
    } else {
      WithIdsHas(normal, found, less, source, c.id);
    }
  }

  /** One source's listing: positions, some of which hold an identifier. */
  type Slots = seq<Option<string>>

  function Present(slots: Slots): seq<string> {
    if slots == [] then []
    else Present(slots[..|slots| - 1])
         + (match slots[|slots| - 1] case Some(id) => [id] case None => [])
  }

  predicate Covers(normal: Normal, slots: Slots, id: string) {
    Names(normal, Present(slots), id)
  }

  /** The upstream serves the source's listing from a token on: to the end, or up to a later position. */
  predicate ServesAt(upstream: Upstream, normal: Normal, slots: Slots, i: nat, token: nat, max: nat)
    requires token <= |slots|
  {
    match upstream(i, token, max)
    case Failed(_) => false
    case Answered(page) =>
      && |page.ids| <= max && AllNormal(normal, page.ids)
      && match page.next
         case None => page.ids == Present(slots[token..])
         case Some(next) => token < next <= |slots| && page.ids == Present(slots[token..next])
  }

  ghost predicate Serves(upstream: Upstream, normal: Normal, listing: seq<Slots>) {
    forall i: nat, token: nat, max: nat | i < |listing| && token <= |listing[i]| && 1 <= max <= MAX_RESULTS ::
      ServesAt(upstream, normal, listing[i], i, token, max)
  }

  predicate SourceOk(source: SourceCursor, slots: Slots) {
    0 <= source.nextToken <= |slots|
  }

  predicate SourcesOk(sources: seq<SourceCursor>, listing: seq<Slots>) {
    |sources| == |listing| && forall i :: 0 <= i < |sources| ==> SourceOk(sources[i], listing[i])
  }

  /** How far a source has been listed. */
  function Position(source: SourceCursor, slots: Slots): nat
    requires SourceOk(source, slots)
  {
    if source.done then |slots| else source.nextToken
  }

  lemma {:induction false} PresentSplit(a: Slots, b: Slots)
    ensures Present(a + b) == Present(a) + Present(b)
  {
    if b == [] {
      assert a + b == a;
    } else {
      assert (a + b)[..|a + b| - 1] == a + b[..|b| - 1];
      PresentSplit(a, b[..|b| - 1]);
    }
  }

  lemma {:induction false} NamesSplit(normal: Normal, a: seq<string>, b: seq<string>, id: string)
    ensures Names(normal, a + b, id) <==> Names(normal, a, id) || Names(normal, b, id)
  {
    if Names(normal, a, id) {
      var k :| 0 <= k < |a| && normal(a[k]) == Some(id);
      assert normal((a + b)[k]) == Some(id);
    }
    if Names(normal, b, id) {
      var k :| 0 <= k < |b| && normal(b[k]) == Some(id);
      assert normal((a + b)[|a| + k]) == Some(id);
    }
    if Names(normal, a + b, id) {
      var k :| 0 <= k < |a + b| && normal((a + b)[k]) == Some(id);
      if k < |a| { assert normal(a[k]) == Some(id); } else { assert normal(b[k - |a|]) == Some(id); }
    }
  }

  /** Listing on from one position to a later one. */
  lemma {:induction false} CoversOn(normal: Normal, slots: Slots, from: nat, until: nat, id: string)
    requires from <= until <= |slots|
    ensures Covers(normal, slots[..until], id)
       <==> Covers(normal, slots[..from], id) || Covers(normal, slots[from..until], id)
  {
    assert slots[..until] == slots[..from] + slots[from..until];
    PresentSplit(slots[..from], slots[from..until]);
    NamesSplit(normal, Present(slots[..from]), Present(slots[from..until]), id);
  }

  lemma {:induction false} QuotaWithin(limit: nat, active: nat, k: nat)
    requires k < active <= limit
    ensures 1 <= QuotaAt(limit, active, k) <= limit
  {
    QuotaPositiveIff(limit, active);
    QuotasAddUp(limit, active);
    QuotaSumGrows(limit, active, k + 1, active);
    assert QuotaSum(limit, active, k + 1) == QuotaSum(limit, active, k) + QuotaAt(limit, active, k);
  }

  /** With a limit of one per source, every quota is within what may be asked. */
  lemma {:induction false} QuotaInRange(sources: seq<SourceCursor>, limit: nat, i: nat)
    requires i < |sources| && !sources[i].done && |sources| <= limit <= MAX_RESULTS
    ensures 1 <= QuotaOf(sources, limit, i) <= MAX_RESULTS
  {
    ActiveMonotone(sources, i + 1, |sources|);
    assert ActiveBefore(sources, i + 1) == ActiveBefore(sources, i) + 1;
    QuotaWithin(limit, Active(sources), ActiveBefore(sources, i));
  }

  /** One source of one page: it answers, moves on, and gives what lies between its positions. */
  lemma {:induction false} SourceStep(
    upstream: Upstream, normal: Normal, listing: seq<Slots>, sources: seq<SourceCursor>, limit: nat, i: nat)
    requires Serves(upstream, normal, listing) && SourcesOk(sources, listing)
    requires |sources| <= limit <= MAX_RESULTS && i < |sources| && !sources[i].done
    ensures Answers(upstream, normal, sources, limit, i)
    ensures var next := NextSource(upstream, sources, limit, i);
            && SourceOk(next, listing[i])
            && (next.done || sources[i].nextToken < next.nextToken)
            && PageOf(upstream, sources, limit, i).value.ids
               == Present(listing[i][sources[i].nextToken..Position(next, listing[i])])
  {
    QuotaInRange(sources, limit, i);
    assert SourceOk(sources[i], listing[i]);
    assert ServesAt(upstream, normal, listing[i], i, sources[i].nextToken, QuotaOf(sources, limit, i));
    assert listing[i][sources[i].nextToken..|listing[i]|] == listing[i][sources[i].nextToken..];
  }

  lemma {:induction false} PageStep(
    upstream: Upstream, normal: Normal, listing: seq<Slots>, sources: seq<SourceCursor>, limit: nat)
    requires Serves(upstream, normal, listing) && SourcesOk(sources, listing) && |sources| <= limit <= MAX_RESULTS
    ensures AllAnswer(upstream, normal, sources, limit, |sources|)
    ensures SourcesOk(NextSources(upstream, sources, limit), listing)
  {
    forall i | 0 <= i < |sources|
      ensures sources[i].done || Answers(upstream, normal, sources, limit, i)
      ensures SourceOk(NextSource(upstream, sources, limit, i), listing[i])
    {
      if !sources[i].done {
        SourceStep(upstream, normal, listing, sources, limit, i);
      }
    }
  }

  /** The identifier lies before the current position of some source. */
  predicate Passed(normal: Normal, listing: seq<Slots>, sources: seq<SourceCursor>, id: string)
    requires SourcesOk(sources, listing)
  {
    exists i | 0 <= i < |listing| :: PassedIn(normal, listing, sources, i, id)
  }

  predicate PassedIn(normal: Normal, listing: seq<Slots>, sources: seq<SourceCursor>, i: nat, id: string)
    requires SourcesOk(sources, listing) && i < |listing|
  {
    Covers(normal, listing[i][..Position(sources[i], listing[i])], id)
  }

  lemma {:induction false} PassedInNext(
    upstream: Upstream, normal: Normal, listing: seq<Slots>, sources: seq<SourceCursor>, limit: nat, i: nat, id: string)
    requires Serves(upstream, normal, listing) && SourcesOk(sources, listing)
    requires |sources| <= limit <= MAX_RESULTS && i < |sources|
    requires SourcesOk(NextSources(upstream, sources, limit), listing)
    ensures PassedIn(normal, listing, NextSources(upstream, sources, limit), i, id)
       <==> PassedIn(normal, listing, sources, i, id) || Gives(upstream, normal, sources, limit, i, id)
  {
    if !sources[i].done {
      SourceStep(upstream, normal, listing, sources, limit, i);
      var next := NextSource(upstream, sources, limit, i);
      CoversOn(normal, listing[i], sources[i].nextToken, Position(next, listing[i]), id);
    }
  }

  /** A page finds exactly what its sources pass over. */
  lemma {:induction false} PassedNext(
    upstream: Upstream, normal: Normal, listing: seq<Slots>, sources: seq<SourceCursor>, limit: nat, id: string)
    requires Serves(upstream, normal, listing) && SourcesOk(sources, listing) && |sources| <= limit <= MAX_RESULTS
    requires SourcesOk(NextSources(upstream, sources, limit), listing)
    ensures Passed(normal, listing, NextSources(upstream, sources, limit), id)
       <==> Passed(normal, listing, sources, id) || Has(Found(upstream, normal, sources, limit, |sources|), id)
  {
    var next := NextSources(upstream, sources, limit);
    FoundIffGiven(upstream, normal, sources, limit, |sources|, id);
    forall i | 0 <= i < |sources|
      ensures PassedIn(normal, listing, next, i, id)
         <==> PassedIn(normal, listing, sources, i, id) || Gives(upstream, normal, sources, limit, i, id)
    {
      PassedInNext(upstream, normal, listing, sources, limit, i, id);
    }
    if Passed(normal, listing, sources, id) {
      var i :| 0 <= i < |listing| && PassedIn(normal, listing, sources, i, id);
      assert PassedIn(normal, listing, next, i, id);
    }
    if SomeGives(upstream, normal, sources, limit, |sources|, id) {
      var i :| 0 <= i < |sources| && Gives(upstream, normal, sources, limit, i, id);
      assert PassedIn(normal, listing, next, i, id);
    }
    if Passed(normal, listing, next, id) {
      var i :| 0 <= i < |listing| && PassedIn(normal, listing, next, i, id);
      assert PassedIn(normal, listing, sources, i, id) || Gives(upstream, normal, sources, limit, i, id);
    }
  }

  /** The state of the sources before the k-th page, each page with its own limit. */
  function SourcesAt(upstream: Upstream, count: nat, limits: nat -> nat, k: nat): seq<SourceCursor> {
    if k == 0 then seq(count, _ => SourceCursor(0, false))
    else NextSources(upstream, SourcesAt(upstream, count, limits, k - 1), limits(k - 1))
  }

  ghost predicate LimitsOk(count: nat, limits: nat -> nat) {
    forall k: nat :: count <= limits(k) <= 20
  }

  lemma {:induction false} WalkOk(
    upstream: Upstream, normal: Normal, listing: seq<Slots>, limits: nat -> nat, k: nat)
    requires Serves(upstream, normal, listing) && LimitsOk(|listing|, limits)
    ensures SourcesOk(SourcesAt(upstream, |listing|, limits, k), listing)
  {
    if k > 0 {
      WalkOk(upstream, normal, listing, limits, k - 1);
      PageStep(upstream, normal, listing, SourcesAt(upstream, |listing|, limits, k - 1), limits(k - 1));
    }
  }

  /** The identifier is on one of the first `k` pages. */
  predicate Listed(upstream: Upstream, normal: Normal, count: nat, limits: nat -> nat, k: nat, id: string) {
    k > 0 && (Listed(upstream, normal, count, limits, k - 1, id)
              || Has(PageAt(upstream, normal, count, limits, k - 1), id))
  }

  function PageAt(upstream: Upstream, normal: Normal, count: nat, limits: nat -> nat, k: nat): seq<Candidate> {
    var sources := SourcesAt(upstream, count, limits, k);
    Found(upstream, normal, sources, limits(k), |sources|)
  }

  /** The first `k` pages list exactly what lies before the positions the sources have reached. */
  lemma {:induction false} PagesListWhatIsPassed(
    upstream: Upstream, normal: Normal, listing: seq<Slots>, limits: nat -> nat, k: nat, id: string)
    requires Serves(upstream, normal, listing) && LimitsOk(|listing|, limits)
    ensures SourcesOk(SourcesAt(upstream, |listing|, limits, k), listing)
    ensures Listed(upstream, normal, |listing|, limits, k, id)
       <==> Passed(normal, listing, SourcesAt(upstream, |listing|, limits, k), id)
  {
    WalkOk(upstream, normal, listing, limits, k);
    if k > 0 {
      PagesListWhatIsPassed(upstream, normal, listing, limits, k - 1, id);
      PassedNext(upstream, normal, listing, SourcesAt(upstream, |listing|, limits, k - 1), limits(k - 1), id);
    } else {
      forall i | 0 <= i < |listing|
        ensures !PassedIn(normal, listing, SourcesAt(upstream, |listing|, limits, 0), i, id)
      {
        assert listing[i][..0] == [];
      }
    }
  }

  // Any walk ends, because the client refuses a token that did not advance.

  /** The upstream's tokens are at most `top`; the client parses them into 64 bits. */
  ghost predicate TokensUpTo(upstream: Upstream, top: nat) {
    forall i: nat, token: int, max: int :: TokenWithin(upstream(i, token, max), top)
  }

  predicate TokenWithin(page: Answer<IdPage>, top: nat) {
    page.Answered? && page.value.next.Some? ==> page.value.next.value <= top
  }

  /** The page at `j` of the walk succeeds. */
  predicate PageSucceeds(upstream: Upstream, normal: Normal, count: nat, limits: nat -> nat, j: nat) {
    var sources := SourcesAt(upstream, count, limits, j);
    AllAnswer(upstream, normal, sources, limits(j), |sources|)
  }

  /** Tokens a source can still be given, and one last page. */
  function ToGo(source: SourceCursor, top: nat): int {
    if source.done then 0 else top - source.nextToken + 1
  }

  function AllToGo(sources: seq<SourceCursor>, top: nat, n: nat): int
    requires n <= |sources|
  {
    if n == 0 then 0 else AllToGo(sources, top, n - 1) + ToGo(sources[n - 1], top)
  }

  predicate TokensOk(sources: seq<SourceCursor>, top: nat) {
    forall i :: 0 <= i < |sources| ==> sources[i].nextToken <= top
  }

  /** A source that answered is done, or its token has advanced. */
  lemma {:induction false} SourceAdvances(
    upstream: Upstream, normal: Normal, sources: seq<SourceCursor>, limit: nat, i: nat, top: nat)
    requires i < |sources| && TokensUpTo(upstream, top)
    requires sources[i].done || Answers(upstream, normal, sources, limit, i)
    ensures var next := NextSource(upstream, sources, limit, i);
            && (next.done || sources[i].nextToken < next.nextToken <= top)
            && (sources[i].nextToken <= top ==> next.nextToken <= top)
  {
    if !sources[i].done {
      assert TokenWithin(upstream(i, sources[i].nextToken, QuotaOf(sources, limit, i)), top);
    }
  }

  lemma {:induction false} TokensStayOk(
    upstream: Upstream, normal: Normal, sources: seq<SourceCursor>, limit: nat, top: nat)
    requires TokensUpTo(upstream, top) && TokensOk(sources, top)
    requires AllAnswer(upstream, normal, sources, limit, |sources|)
    ensures TokensOk(NextSources(upstream, sources, limit), top)
  {
    forall i | 0 <= i < |sources|
      ensures NextSource(upstream, sources, limit, i).nextToken <= top
    {
      SourceAdvances(upstream, normal, sources, limit, i, top);
    }
  }

  /** One source has at least one step less to go, unless it was done. */
  lemma {:induction false} ToGoLess(
    upstream: Upstream, normal: Normal, sources: seq<SourceCursor>, limit: nat, top: nat, i: nat)
    requires i < |sources| && TokensUpTo(upstream, top) && sources[i].nextToken <= top
    requires sources[i].done || Answers(upstream, normal, sources, limit, i)
    ensures ToGo(NextSource(upstream, sources, limit, i), top) + (if sources[i].done then 0 else 1)
         <= ToGo(sources[i], top)
  {
    SourceAdvances(upstream, normal, sources, limit, i, top);
  }

  lemma {:induction false} ToGoShrinks(
    upstream: Upstream, normal: Normal, sources: seq<SourceCursor>, limit: nat, top: nat, n: nat)
    requires n <= |sources| && TokensUpTo(upstream, top) && TokensOk(sources, top)
    requires AllAnswer(upstream, normal, sources, limit, |sources|)
    ensures AllToGo(NextSources(upstream, sources, limit), top, n) + ActiveBefore(sources, n) <= AllToGo(sources, top, n)
  {
    if n > 0 {
      ToGoShrinks(upstream, normal, sources, limit, top, n - 1);
      ToGoLess(upstream, normal, sources, limit, top, n - 1);
      assert NextSources(upstream, sources, limit)[n - 1] == NextSource(upstream, sources, limit, n - 1);
    }
  }

  lemma {:induction false} NoneActive(sources: seq<SourceCursor>, n: nat)
    requires n <= |sources|
    ensures ActiveBefore(sources, n) == 0 <==> forall i :: 0 <= i < n ==> sources[i].done
  {
    if n > 0 { NoneActive(sources, n - 1); }
  }

  lemma {:induction false} DoneStaysDone(upstream: Upstream, sources: seq<SourceCursor>, limit: nat)
    requires Active(sources) == 0
    ensures Active(NextSources(upstream, sources, limit)) == 0
  {
    NoneActive(sources, |sources|);
    NoneActive(NextSources(upstream, sources, limit), |sources|);
  }

  lemma {:induction false} FreshToGo(sources: seq<SourceCursor>, top: nat, n: nat)
    requires n <= |sources| && forall i :: 0 <= i < |sources| ==> sources[i] == SourceCursor(0, false)
    ensures AllToGo(sources, top, n) == n * (top + 1)
  {
    if n > 0 {
      FreshToGo(sources, top, n - 1);
      assert n * (top + 1) == (n - 1) * (top + 1) + (top + 1);
    }
  }

  /** The walk is over, or each of its pages has used up a step. */
  ghost predicate Down(sources: seq<SourceCursor>, count: nat, top: nat, pages: nat) {
    TokensOk(sources, top)
    && (Active(sources) == 0 || AllToGo(sources, top, |sources|) + pages <= count * (top + 1))
  }

  lemma {:induction false} DownNext(
    upstream: Upstream, normal: Normal, sources: seq<SourceCursor>, limit: nat, count: nat, top: nat, pages: nat)
    requires TokensUpTo(upstream, top) && AllAnswer(upstream, normal, sources, limit, |sources|)
    requires Down(sources, count, top, pages)
    ensures Down(NextSources(upstream, sources, limit), count, top, pages + 1)
  {
    TokensStayOk(upstream, normal, sources, limit, top);
    ToGoShrinks(upstream, normal, sources, limit, top, |sources|);
    if Active(sources) == 0 {
      DoneStaysDone(upstream, sources, limit);
    }
  }

  lemma {:induction false} DownAt(
    upstream: Upstream, normal: Normal, count: nat, limits: nat -> nat, top: nat, k: nat)
    requires TokensUpTo(upstream, top)
    requires forall j :: 0 <= j < k ==> PageSucceeds(upstream, normal, count, limits, j)
    ensures Down(SourcesAt(upstream, count, limits, k), count, top, k)
  {
    if k == 0 {
      FreshToGo(SourcesAt(upstream, count, limits, 0), top, count);
    } else {
      DownAt(upstream, normal, count, limits, top, k - 1);
      assert PageSucceeds(upstream, normal, count, limits, k - 1);
      DownNext(upstream, normal, SourcesAt(upstream, count, limits, k - 1), limits(k - 1), count, top, k - 1);
    }
  }

  lemma {:induction false} SomeToGo(sources: seq<SourceCursor>, top: nat, n: nat)
    requires n <= |sources| && TokensOk(sources, top)
    ensures ActiveBefore(sources, n) <= AllToGo(sources, top, n)
  {
    if n > 0 { SomeToGo(sources, top, n - 1); }
  }

  /**
   * Whatever the upstream answers, following the cursors ends: after as many successful pages as there are
   * tokens for all sources, no source remains.
   */
  lemma {:induction false} WalkEnds(
    upstream: Upstream, normal: Normal, count: nat, limits: nat -> nat, top: nat, k: nat)
    requires TokensUpTo(upstream, top) && count * (top + 1) <= k
    requires forall j :: 0 <= j < k ==> PageSucceeds(upstream, normal, count, limits, j)
    ensures Active(SourcesAt(upstream, count, limits, k)) == 0
  {
    DownAt(upstream, normal, count, limits, top, k);
    var sources := SourcesAt(upstream, count, limits, k);
    SomeToGo(sources, top, |sources|);
  }

  /** Once no source remains, the pages together list exactly the identifiers the upstream has. */
  lemma {:induction false} WalkListsEverything(
    upstream: Upstream, normal: Normal, listing: seq<Slots>, limits: nat -> nat, k: nat, id: string)
    requires Serves(upstream, normal, listing) && LimitsOk(|listing|, limits)
    requires Active(SourcesAt(upstream, |listing|, limits, k)) == 0
    ensures Listed(upstream, normal, |listing|, limits, k, id)
       <==> exists i :: 0 <= i < |listing| && Covers(normal, listing[i], id)
  {
    var sources := SourcesAt(upstream, |listing|, limits, k);
    PagesListWhatIsPassed(upstream, normal, listing, limits, k, id);
    NoneActive(sources, |sources|);
    forall i | 0 <= i < |listing|
      ensures PassedIn(normal, listing, sources, i, id) <==> Covers(normal, listing[i], id)
    {
      assert listing[i][..|listing[i]|] == listing[i];
    }
    if Passed(normal, listing, sources, id) {
      var i :| 0 <= i < |listing| && PassedIn(normal, listing, sources, i, id);
      assert Covers(normal, listing[i], id);
    }
    if exists i :: 0 <= i < |listing| && Covers(normal, listing[i], id) {
      var i :| 0 <= i < |listing| && Covers(normal, listing[i], id);
      assert PassedIn(normal, listing, sources, i, id);
    }
  }

  /**
   * An upstream that serves its listing is read to the end: every page succeeds, no source remains after finitely
   * many of them, and together they list exactly the upstream's identifiers.
   */
  lemma {:induction false} ServedWalkIsComplete(
    upstream: Upstream, normal: Normal, listing: seq<Slots>, limits: nat -> nat, top: nat, k: nat, id: string)
    requires Serves(upstream, normal, listing) && LimitsOk(|listing|, limits)
    requires TokensUpTo(upstream, top) && |listing| * (top + 1) <= k
    ensures forall j: nat :: j < k ==> PageSucceeds(upstream, normal, |listing|, limits, j)
    ensures Active(SourcesAt(upstream, |listing|, limits, k)) == 0
    ensures Listed(upstream, normal, |listing|, limits, k, id)
       <==> exists i :: 0 <= i < |listing| && Covers(normal, listing[i], id)
  {
    forall j: nat | j < k
      ensures PageSucceeds(upstream, normal, |listing|, limits, j)
    {
      WalkOk(upstream, normal, listing, limits, j);
      PageStep(upstream, normal, listing, SourcesAt(upstream, |listing|, limits, j), limits(j));
    }
    WalkEnds(upstream, normal, |listing|, limits, top, k);
    WalkListsEverything(upstream, normal, listing, limits, k, id);
  }
}
