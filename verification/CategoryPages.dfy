/**
 * Paging through a user's categories: the broker serves pages of 100 with a signed cursor, and the client
 * follows the cursors. Revision digests are represented by the categories they digest.
 */
module CategoryPages {
  import opened Domain
  import opened Catalog
  import opened Text
  import Cursor

  const PER_PAGE := 100
  const CURSOR_VERSION := 2
  const MAX_DISCOVERY_PAGES := 100

  datatype CursorState = CursorState(
    version: nat, subject: UserKey, keyword: string, revision: seq<Category>, offset: int, issuedAt: int)

  datatype PublicCategory = PublicCategory(id: string, displayName: string, directoryName: string)

  datatype Discovery = Discovery(
    categories: seq<PublicCategory>, next: Option<CursorState>, complete: bool,
    scannedPages: nat, scannedCandidates: nat, total: nat)

  // The broker.

  /** `fold` is the lower-case form of a string. */
  predicate Matches(fold: string -> string, category: Category, keyword: string) {
    || keyword == ""
    || Contains(fold(category.id), fold(keyword))
    || Contains(fold(category.displayName), fold(keyword))
    || Contains(fold(category.directoryName), fold(keyword))
  }

  function Matching(fold: string -> string, catalog: seq<Category>, keyword: string): seq<Category> {
    if catalog == [] then []
    else
      var rest, last := Matching(fold, catalog[..|catalog| - 1], keyword), catalog[|catalog| - 1];
      if Matches(fold, last, keyword) then rest + [last] else rest
  }

  /** In the identifier, the name or the directory of the category the keyword occurs, both in lower case. */
  ghost predicate Mentions(fold: string -> string, category: Category, keyword: string) {
    exists field, a, b :: field in {category.id, category.displayName, category.directoryName}
                          && fold(field) == a + fold(keyword) + b
  }

  lemma {:induction false} WhatMatches(fold: string -> string, category: Category, keyword: string)
    ensures Matches(fold, category, keyword) <==> keyword == "" || Mentions(fold, category, keyword)
  {
    ContainsIff(fold(category.id), fold(keyword));
    ContainsIff(fold(category.displayName), fold(keyword));
    ContainsIff(fold(category.directoryName), fold(keyword));
  }

  function Public(category: Category): PublicCategory {
    PublicCategory(category.id, category.displayName, category.directoryName)
  }

  function PublicOf(categories: seq<Category>): seq<PublicCategory> {
    seq(|categories|, i requires 0 <= i < |categories| => Public(categories[i]))
  }

  function NormalizeKeyword(keyword: string): Answer<string> {
    if !KeywordFits(Trim(keyword)) then Failed(InvalidInput) else Answered(Trim(keyword))
  }

  predicate DecodesNow(state: CursorState, now: Time) {
    state.version == CURSOR_VERSION && 0 <= state.offset && Cursor.Live(state.issuedAt, now)
  }

  /** One page of categories, from `offset` on. */
  function PageAt(user: UserKey, keyword: string, matching: seq<Category>, offset: nat, issuedAt: int, now: Time): Discovery
    requires offset <= |matching|
  {
    var end := if |matching| < offset + PER_PAGE then |matching| else offset + PER_PAGE;
    Discovery(PublicOf(matching[offset..end]),
              if end == |matching| then None
              else Some(CursorState(CURSOR_VERSION, user, keyword, matching, end, Cursor.Stamp(issuedAt, now))),
              end == |matching|, 1, end - offset, |matching|)
  }

  function VisibleCategories(
    fold: string -> string, catalog: Answer<seq<Category>>, user: UserKey, keyword: string,
    cursor: Option<CursorState>, now: Time)
    : Answer<Discovery>
  {
    if catalog.Failed? then Failed(catalog.error)
    else if cursor.Some? then
      var state := cursor.value;
      if Trim(keyword) != "" || !DecodesNow(state, now) || state.subject != user then Failed(InvalidInput)
      else
        var matching := Matching(fold, catalog.value, state.keyword);
        if state.revision != matching || |matching| < state.offset then Failed(InvalidInput)
        else Answered(PageAt(user, state.keyword, matching, state.offset, state.issuedAt, now))
    else
      var normalized := NormalizeKeyword(keyword);
      if normalized.Failed? then Failed(normalized.error)
      else Answered(PageAt(user, normalized.value, Matching(fold, catalog.value, normalized.value), 0, 0, now))
  }

  // The client.

  /** What the broker sees at one request of the client: the user's catalogue at that time. */
  datatype Visit = Visit(catalog: Answer<seq<Category>>, now: Time)

  datatype Report = Report(
    categories: seq<PublicCategory>, complete: bool, pagesFetched: nat, scannedPages: nat,
    scannedCandidates: nat, total: nat, next: Option<CursorState>)

  /** Where a walk starts: a fresh search, or a cursor left by an earlier one. */
  datatype Walk = Walk(keyword: string, matching: seq<Category>, offset: nat, issuedAt: int)

  function Start(fold: string -> string, visit: Visit, keyword: string, cursor: Option<CursorState>): Walk {
    if cursor.Some? then
      var s := cursor.value;
      Walk(s.keyword, s.revision, if s.offset < 0 then 0 else s.offset, s.issuedAt)
    else
      Walk(Trim(keyword),
           if visit.catalog.Answered? then Matching(fold, visit.catalog.value, Trim(keyword)) else [],
           0, Cursor.Seconds(visit.now))
  }

  /** The first request is accepted. */
  predicate Starts(fold: string -> string, visit: Visit, user: UserKey, keyword: string, cursor: Option<CursorState>) {
    && visit.catalog.Answered?
    && match cursor
       case None => KeywordFits(Trim(keyword))
       case Some(s) => && DecodesNow(s, visit.now) && s.subject == user
                       && Matching(fold, visit.catalog.value, s.keyword) == s.revision && s.offset <= |s.revision|
  }

  /** The user's matching categories are still those of the walk, and its cursors have not expired. */
  predicate Unchanged(fold: string -> string, walk: Walk, visit: Visit) {
    && visit.catalog.Answered? && Matching(fold, visit.catalog.value, walk.keyword) == walk.matching
    && Cursor.Live(walk.issuedAt, visit.now)
  }

  /** How many pages there are from the start of the walk. */
  function Pages(walk: Walk): nat
    requires walk.offset <= |walk.matching|
  {
    var left := |walk.matching| - walk.offset;
    if left == 0 then 1 else (left + PER_PAGE - 1) / PER_PAGE
  }

  /** The offset reached after `pages` pages. */
  function Reached(walk: Walk, pages: nat): nat
    requires walk.offset <= |walk.matching|
  {
    Min(|walk.matching|, walk.offset + PER_PAGE * pages)
  }

  function CursorAt(walk: Walk, user: UserKey, pages: nat): CursorState
    requires walk.offset <= |walk.matching|
  {
    CursorState(CURSOR_VERSION, user, walk.keyword, walk.matching, Reached(walk, pages), walk.issuedAt)
  }

  lemma {:induction false} PagesEnd(walk: Walk, pages: nat)
    requires walk.offset <= |walk.matching|
    ensures 1 <= pages && Reached(walk, pages) == |walk.matching| <==> Pages(walk) <= pages
    ensures pages < Pages(walk) ==> Reached(walk, pages) == walk.offset + PER_PAGE * pages
  {
  }

  /** The reply to the request after `pages` pages, when it is accepted. */
  lemma {:induction false} NextReply(
    fold: string -> string, walk: Walk, user: UserKey, visit: Visit, pages: nat)
    requires walk.offset <= |walk.matching| && 1 <= pages < Pages(walk) && walk.issuedAt != 0
    ensures var r := VisibleCategories(fold, visit.catalog, user, "", Some(CursorAt(walk, user, pages)), visit.now);
            && r.Answered? == Unchanged(fold, walk, visit)
            && (r.Answered? ==> r.value == PageAt(user, walk.keyword, walk.matching, Reached(walk, pages), walk.issuedAt, visit.now))
  {
    PagesEnd(walk, pages);
    assert Trim("") == "";
  }

  lemma {:induction false} FirstReply(
    fold: string -> string, user: UserKey, visit: Visit, keyword: string, cursor: Option<CursorState>)
    requires cursor.Some? ==> keyword == ""
    requires SECOND <= visit.now && (cursor.Some? ==> cursor.value.issuedAt != 0)
    ensures var r := VisibleCategories(fold, visit.catalog, user, keyword, cursor, visit.now);
            var walk := Start(fold, visit, keyword, cursor);
            && r.Answered? == Starts(fold, visit, user, keyword, cursor)
            && (r.Answered? ==> walk.offset <= |walk.matching| && walk.issuedAt != 0)
            && (r.Answered? ==> r.value == PageAt(user, walk.keyword, walk.matching, walk.offset, walk.issuedAt, visit.now))
  {
  }

  /** A cursor is good for its own user, alone, while the matching categories are those it was written for. */
  lemma {:induction false} CursorAcceptedIff(
    fold: string -> string, catalog: seq<Category>, user: UserKey, keyword: string, state: CursorState, now: Time)
    ensures VisibleCategories(fold, Answered(catalog), user, keyword, Some(state), now).Answered?
       <==> Trim(keyword) == "" && state.version == 2 && state.subject == user
            && state.revision == Matching(fold, catalog, state.keyword) && 0 <= state.offset <= |state.revision|
            && (state.issuedAt - 60) * SECOND <= now <= (state.issuedAt + 3600) * SECOND
    ensures var r := VisibleCategories(fold, Answered(catalog), user, keyword, Some(state), now);
            r.Answered? || r == Failed(InvalidInput)
  {
    Cursor.LiveIff(state.issuedAt, now);
  }

  /** A page starts at its cursor's offset and has a hundred categories, or as many as are left. */
  lemma {:induction false} PageIsSlice(
    fold: string -> string, catalog: seq<Category>, user: UserKey, state: CursorState, now: Time)
    requires VisibleCategories(fold, Answered(catalog), user, "", Some(state), now).Answered?
    ensures var page := VisibleCategories(fold, Answered(catalog), user, "", Some(state), now).value;
            var left := |state.revision| - state.offset;
            && |page.categories| == Min(100, left) && page.total == |state.revision|
            && (forall i :: 0 <= i < |page.categories| ==>
                  var c := state.revision[state.offset + i];
                  page.categories[i] == PublicCategory(c.id, c.displayName, c.directoryName))
            && (page.complete <==> left <= 100) && (page.next.None? <==> left <= 100)
            && (page.next.Some? && state.issuedAt != 0 ==>
                  page.next.value == state.(subject := user, offset := state.offset + 100))
  {
  }

  ghost predicate DistinctIds(categories: seq<PublicCategory>) {
    forall i, j :: 0 <= i < j < |categories| ==> categories[i].id != categories[j].id
  }

  lemma {:induction false} MatchingDisjoint(fold: string -> string, catalog: seq<Category>, keyword: string)
    requires Disjoint(catalog)
    ensures Disjoint(Matching(fold, catalog, keyword)) && |Matching(fold, catalog, keyword)| <= |catalog|
    ensures forall c :: c in Matching(fold, catalog, keyword) <==> c in catalog && Matches(fold, c, keyword)
  {
    if catalog != [] {
      var before, last := catalog[..|catalog| - 1], catalog[|catalog| - 1];
      MatchingDisjoint(fold, before, keyword);
      assert catalog == before + [last];
      forall c | c in Matching(fold, before, keyword)
        ensures c.id != last.id
      {
        assert c in before;
      }
    }
  }

  /** What the client can rely on about identifiers: they are keyed digests of distinct process codes. */
  predicate WellSealed(categories: seq<Category>) {
    Disjoint(categories) && forall i :: 0 <= i < |categories| ==> categories[i].id != ""
  }

  function Ids(categories: seq<PublicCategory>): set<string> {
    set c | c in categories :: c.id
  }

  /** A page appended without the categories that are already there. */
  function Merged(categories: seq<PublicCategory>, page: seq<PublicCategory>): seq<PublicCategory> {
    if page == [] then categories
    else
      var before, last := Merged(categories, page[..|page| - 1]), page[|page| - 1];
      if last.id in Ids(before) then before else before + [last]
  }

  predicate Named(page: seq<PublicCategory>) {
    forall i :: 0 <= i < |page| ==> page[i].id != ""
  }

  method AddPage(categories: seq<PublicCategory>, ids: set<string>, page: seq<PublicCategory>)
    returns (ok: bool, categories': seq<PublicCategory>, ids': set<string>)
    requires ids == Ids(categories)
    ensures ok == Named(page)
    ensures ok ==> categories' == Merged(categories, page) && ids' == Ids(categories')
  {
    categories', ids' := categories, ids;
    for k := 0 to |page|
      invariant Named(page[..k])
      invariant categories' == Merged(categories, page[..k]) && ids' == Ids(categories')
    {
      if page[k].id == "" {
        return false, categories', ids';
      }
      assert page[..k + 1][..k] == page[..k];
      if page[k].id !in ids' {
        IdsSnoc(categories', page[k]);
        categories', ids' := categories' + [page[k]], ids' + {page[k].id};
      }
    }
    assert page[..|page|] == page;
    ok := true;
  }

  lemma {:induction false} IdsSnoc(categories: seq<PublicCategory>, c: PublicCategory)
    ensures Ids(categories + [c]) == Ids(categories) + {c.id}
  {
  }

  /** Distinct categories are all kept. */
  lemma {:induction false} MergedDistinct(categories: seq<PublicCategory>, page: seq<PublicCategory>)
    requires DistinctIds(categories + page)
    ensures Merged(categories, page) == categories + page
  {
    if page != [] {
      var before, last := page[..|page| - 1], page[|page| - 1];
      assert categories + page == categories + before + [last];
      assert forall i :: 0 <= i < |categories + before| ==> (categories + before)[i] == (categories + page)[i];
      MergedDistinct(categories, before);
      assert (categories + page)[|categories + before|] == last;
      forall c | c in categories + before
        ensures c.id != last.id
      {
        var i :| 0 <= i < |categories + before| && (categories + before)[i] == c;
      }
    }
  }

  /** The walk's next page is named, new, and continues where the earlier pages ended. */
  lemma {:induction false} NextPage(walk: Walk, pages: nat, page: seq<PublicCategory>)
    requires walk.offset <= |walk.matching| && WellSealed(walk.matching)
    requires page == PublicOf(walk.matching[Reached(walk, pages)..Reached(walk, pages + 1)])
    ensures Named(page)
    ensures Merged(PublicOf(walk.matching[walk.offset..Reached(walk, pages)]), page)
         == PublicOf(walk.matching[walk.offset..Reached(walk, pages + 1)])
  {
    var before := PublicOf(walk.matching[walk.offset..Reached(walk, pages)]);
    assert before + page == PublicOf(walk.matching[walk.offset..Reached(walk, pages + 1)]);
    forall i, j | 0 <= i < j < |before + page|
      ensures (before + page)[i].id != (before + page)[j].id
    {
      assert (before + page)[i].id == walk.matching[walk.offset + i].id;
      assert (before + page)[j].id == walk.matching[walk.offset + j].id;
    }
    forall i | 0 <= i < |page|
      ensures page[i].id != ""
    {
      assert page[i].id == walk.matching[Reached(walk, pages) + i].id;
    }
    MergedDistinct(before, page);
  }

  /** The pages the client asks for: all there are, up to its limit. */
  function Needed(walk: Walk, maxPages: int, all: bool): nat
    requires walk.offset <= |walk.matching| && 1 <= maxPages
  {
    Min(Pages(walk), if all then MAX_DISCOVERY_PAGES else maxPages)
  }

  /** What the client reports after `pages` pages of a walk. */
  function ReportAfter(walk: Walk, user: UserKey, pages: nat): Report
    requires walk.offset <= |walk.matching|
  {
    var complete := Pages(walk) <= pages;
    Report(PublicOf(walk.matching[walk.offset..Reached(walk, pages)]), complete, pages, pages,
           Reached(walk, pages) - walk.offset, |walk.matching|, if complete then None else Some(CursorAt(walk, user, pages)))
  }

  ghost predicate Steady(fold: string -> string, walk: Walk, broker: nat -> Visit, until: nat) {
    forall i: nat | 1 <= i < until :: Unchanged(fold, walk, broker(i))
  }

  /** The client's variables between two requests. */
  datatype Progress = Progress(
    categories: seq<PublicCategory>, ids: set<string>, next: Option<CursorState>, seen: set<CursorState>,
    scannedPages: nat, scanned: nat, total: Option<nat>, complete: bool, pages: nat)
  {
    function Reported(): Report {
      Report(categories, complete, pages, scannedPages, scanned, if total.None? then 0 else total.value,
             if complete then None else next)
    }
  }

  ghost predicate WalkOk(walk: Walk) {
    walk.offset <= |walk.matching| && WellSealed(walk.matching) && walk.issuedAt != 0
  }

  /** The client has taken the first `pages` pages of the walk. */
  ghost predicate Taken(walk: Walk, user: UserKey, p: Progress)
    requires walk.offset <= |walk.matching|
  {
    && p.categories == PublicOf(walk.matching[walk.offset..Reached(walk, p.pages)]) && p.ids == Ids(p.categories)
    && p.scannedPages == p.pages && p.scanned == Reached(walk, p.pages) - walk.offset
    && p.total == (if p.pages == 0 then None else Some(|walk.matching|))
    && p.complete == (Pages(walk) <= p.pages)
    && (1 <= p.pages ==> p.next == if p.complete then None else Some(CursorAt(walk, user, p.pages)))
    && (forall c :: c in p.seen ==> c.offset <= Reached(walk, p.pages))
  }

  /** What the client does with one reply: refuse it, or take its categories and its cursor. */
  method TakeReply(p: Progress, data: Discovery, ghost walk: Walk, ghost user: UserKey, ghost now: Time)
    returns (ok: bool, p': Progress)
    requires WalkOk(walk) && Taken(walk, user, p) && !p.complete
    requires data == PageAt(user, walk.keyword, walk.matching, Reached(walk, p.pages), walk.issuedAt, now)
    ensures ok && p'.pages == p.pages + 1 && Taken(walk, user, p')
  {
    p' := p;
    PagesEnd(walk, p.pages);
    PagesEnd(walk, p.pages + 1);
    NextPage(walk, p.pages, data.categories);
    var categories, ids;
    ok, categories, ids := AddPage(p.categories, p.ids, data.categories);
    if !ok || (p.total.Some? && p.total.value != data.total) {
      return false, p;
    }
    p' := p.(categories := categories, ids := ids, scannedPages := p.scannedPages + data.scannedPages,
             scanned := p.scanned + data.scannedCandidates, total := Some(data.total), pages := p.pages + 1,
             complete := data.complete);
    if data.complete {
      p' := p'.(next := None);
    } else if data.next.None? || data.next.value in p.seen {
      ok := false;
    } else {
      p' := p'.(seen := p.seen + {data.next.value}, next := data.next);
    }
  }

  /** The requests after the first, each with the cursor of the one before. */
  method FollowCursors(
    fold: string -> string, broker: nat -> Visit, user: UserKey, pageLimit: nat, first: Progress, ghost walk: Walk)
    returns (r: Answer<Progress>)
    requires WalkOk(walk) && Taken(walk, user, first) && first.pages == 1 <= pageLimit
    ensures r.Answered? == Steady(fold, walk, broker, Min(Pages(walk), pageLimit))
    ensures r.Answered? ==> Taken(walk, user, r.value) && r.value.pages == Min(Pages(walk), pageLimit)
  {
    var p := first;
    while p.pages < pageLimit && !p.complete
      invariant 1 <= p.pages <= Min(Pages(walk), pageLimit) && Taken(walk, user, p)
      invariant Steady(fold, walk, broker, p.pages)
      decreases pageLimit - p.pages
    {
      NextReply(fold, walk, user, broker(p.pages), p.pages);
      var reply := VisibleCategories(fold, broker(p.pages).catalog, user, "", p.next, broker(p.pages).now);
      if reply.Failed? {
        return Failed(reply.error);
      }
      SteadyNext(fold, walk, broker, p.pages);
      var ok;
      ok, p := TakeReply(p, reply.value, walk, user, broker(p.pages).now);
    }
    r := Answered(p);
  }

  lemma {:induction false} SteadyNext(fold: string -> string, walk: Walk, broker: nat -> Visit, n: nat)
    requires Steady(fold, walk, broker, n) && Unchanged(fold, walk, broker(n))
    ensures Steady(fold, walk, broker, n + 1)
  {
  }

  /**
   * The client's loop. It succeeds exactly when every request still found the categories the walk started
   * with, and then reports them in order, without gap or repetition.
   */
  method MyCategories(
    fold: string -> string, broker: nat -> Visit, user: UserKey, keyword: Option<string>,
    cursor: Option<CursorState>, maxPages: int, all: bool)
    returns (r: Answer<Report>)
    requires forall i: nat :: SECOND <= broker(i).now
    requires forall i: nat :: broker(i).catalog.Answered? ==> WellSealed(broker(i).catalog.value)
    requires cursor.Some? ==> cursor.value.issuedAt != 0
    ensures
      var walk := Start(fold, broker(0), Given(keyword), cursor);
      && r.Answered?
         == (Permits(keyword, cursor, maxPages) && Starts(fold, broker(0), user, Given(keyword), cursor)
             && Steady(fold, walk, broker, Needed(walk, maxPages, all)))
      && (r.Answered? ==> r.value == ReportAfter(walk, user, Needed(walk, maxPages, all)))
  {
    if !Permits(keyword, cursor, maxPages) {
      return Failed(InvalidInput);
    }
    var pageLimit := if all then MAX_DISCOVERY_PAGES else maxPages;
    var p := Progress([], {}, cursor, {}, 0, 0, None, false, 0);
    FirstReply(fold, user, broker(0), Given(keyword), cursor);
    ghost var walk := Start(fold, broker(0), Given(keyword), cursor);
    var reply := VisibleCategories(fold, broker(0).catalog, user, Given(keyword), p.next, broker(0).now);
    if reply.Failed? {
      return Failed(reply.error);
    }
    StartOk(fold, user, broker(0), Given(keyword), cursor);
    NothingTaken(walk, user, p);
    var ok;
    ok, p := TakeReply(p, reply.value, walk, user, broker(0).now);
    var last := FollowCursors(fold, broker, user, pageLimit, p, walk);
    if last.Failed? {
      return Failed(last.error);
    }
    ReportedOk(walk, user, last.value);
    r := Answered(last.value.Reported());
  }

  lemma {:induction false} ReportedOk(walk: Walk, user: UserKey, p: Progress)
    requires WalkOk(walk) && Taken(walk, user, p) && 1 <= p.pages
    ensures p.Reported() == ReportAfter(walk, user, p.pages)
  {
  }

  /** The state before the first request. */
  lemma {:induction false} NothingTaken(walk: Walk, user: UserKey, p: Progress)
    requires WalkOk(walk) && p.categories == [] && p.ids == {} && p.seen == {} && !p.complete
    requires p.scannedPages == p.scanned == p.pages == 0 && p.total.None?
    ensures Taken(walk, user, p)
  {
  }

  function Given(keyword: Option<string>): string {
    if keyword.Some? then keyword.value else ""
  }

  predicate Permits(keyword: Option<string>, cursor: Option<CursorState>, maxPages: int) {
    1 <= maxPages <= MAX_DISCOVERY_PAGES && (cursor.None? || keyword.None?)
  }

  lemma {:induction false} StartOk(
    fold: string -> string, user: UserKey, visit: Visit, keyword: string, cursor: Option<CursorState>)
    requires Starts(fold, visit, user, keyword, cursor) && WellSealed(visit.catalog.value)
    requires SECOND <= visit.now && (cursor.Some? ==> cursor.value.issuedAt != 0)
    ensures WalkOk(Start(fold, visit, keyword, cursor))
  {
    var word := if cursor.Some? then cursor.value.keyword else Trim(keyword);
    MatchingDisjoint(fold, visit.catalog.value, word);
    var matching := Matching(fold, visit.catalog.value, word);
    forall i | 0 <= i < |matching|
      ensures matching[i].id != ""
    {
      assert matching[i] in visit.catalog.value;
    }
  }

  /** `--all` always ends complete: a catalogue of at most 5000 entries fits 50 pages. */
  lemma {:induction false} AllIsComplete(walk: Walk, user: UserKey, maxPages: int)
    requires walk.offset == 0 && |walk.matching| <= MAX_TEMPLATES && 1 <= maxPages
    ensures var n := |walk.matching|;
            && Needed(walk, maxPages, true) == (if n == 0 then 1 else (n + 99) / 100) <= 50
            && var report := ReportAfter(walk, user, Needed(walk, maxPages, true));
               report.complete && report.next.None? && report.categories == PublicOf(walk.matching)
               && report.scannedCandidates == report.total == n
  {
    PagesEnd(walk, Needed(walk, maxPages, true));
    assert walk.matching[0..|walk.matching|] == walk.matching;
  }

  /** A walk cut short by its page limit and resumed from its cursor reads what one walk would have read. */
  lemma {:induction false} ResumedWalk(
    fold: string -> string, walk: Walk, user: UserKey, visit: Visit, pages: nat, more: nat)
    requires walk.offset <= |walk.matching| && 1 <= pages < Pages(walk) && 1 <= more
    ensures var rest := Start(fold, visit, "", Some(CursorAt(walk, user, pages)));
            && rest.offset <= |rest.matching|
            && Pages(rest) == Pages(walk) - pages
            && ReportAfter(walk, user, pages).categories + ReportAfter(rest, user, more).categories
               == ReportAfter(walk, user, pages + more).categories
            && ReportAfter(rest, user, more).next == ReportAfter(walk, user, pages + more).next
  {
    PagesEnd(walk, pages);
    PagesEnd(walk, pages + more);
    var rest := Start(fold, visit, "", Some(CursorAt(walk, user, pages)));
    PagesEnd(rest, more);
    assert rest.offset + PER_PAGE * more == walk.offset + PER_PAGE * (pages + more);
    var a := walk.matching[walk.offset..Reached(walk, pages)];
    var b := walk.matching[Reached(walk, pages)..Reached(walk, pages + more)];
    assert a + b == walk.matching[walk.offset..Reached(walk, pages + more)];
    assert PublicOf(a) + PublicOf(b) == PublicOf(a + b);
  }

  /**
   * However the upstream lists them at each visit, the same visible templates keep the walk going: the
   * broker's answers depend on the set of templates only.
   */
  lemma {:induction false} ReloadIsUnchanged(
    fold: string -> string, seal: string -> string, walk: Walk, visit: Visit,
    first: seq<Template>, again: seq<Template>)
    requires Injective(seal) && Agreeing(first) && Agreeing(again)
    requires forall t :: Lists(first, t) <==> Lists(again, t)
    requires walk.matching == Matching(fold, CatalogueOf(seal, first), walk.keyword)
    requires visit.catalog == Answered(CatalogueOf(seal, again)) && Cursor.Live(walk.issuedAt, visit.now)
    ensures Unchanged(fold, walk, visit)
  {
    SameSetSameCatalogue(seal, first, again);
  }

  /** A complete listing of the upstream, as one load of the catalogue reads it. */
  datatype Load = Load(provider: Provider, pages: nat)

  function Templates(load: Load): seq<Template> {
    Listing(load.provider, load.pages)
  }

  /** At every visit the broker serves what a load of that visit gave. */
  ghost predicate Serves(seal: string -> string, visit: Visit, load: Load) {
    && Complete(load.provider, load.pages) && Agreeing(Templates(load))
    && visit.catalog == Answered(CatalogueOf(seal, Templates(load)))
  }

  ghost predicate SameTemplates(a: Load, b: Load) {
    forall t :: Lists(Templates(a), t) <==> Lists(Templates(b), t)
  }

  /** Identifiers are keyed digests: injective, and never empty. */
  ghost predicate Sealing(seal: string -> string) {
    Injective(seal) && forall code :: seal(code) != ""
  }

  /** Every visit reloads the same templates, however the upstream lists them, within the life of the walk's cursors. */
  ghost predicate Reloads(seal: string -> string, broker: nat -> Visit, loads: nat -> Load) {
    && Sealing(seal)
    && forall i: nat :: Serves(seal, broker(i), loads(i)) && SameTemplates(loads(0), loads(i))
                        && SECOND <= broker(i).now && Cursor.Live(Cursor.Seconds(broker(0).now), broker(i).now)
  }

  lemma {:induction false} SealedCatalogue(seal: string -> string, load: Load)
    requires Sealing(seal) && Complete(load.provider, load.pages)
    ensures WellSealed(CatalogueOf(seal, Templates(load))) && |CatalogueOf(seal, Templates(load))| <= MAX_TEMPLATES
  {
    CatalogueShape(seal, load.provider, load.pages);
    var x, all := CategoriesOf(seal, Distill(Templates(load))), CatalogueOf(seal, Templates(load));
    Ordering.SortElements(Less, x);
    Ordering.SameMembers(all, x);
    forall i | 0 <= i < |all|
      ensures all[i].id != ""
    {
      assert all[i] in x;
      var k :| 0 <= k < |x| && x[k] == all[i];
    }
  }

  /** Reloads of the same templates keep a fresh walk going to its complete end. */
  lemma {:induction false} ReloadedWalk(
    fold: string -> string, seal: string -> string, broker: nat -> Visit, loads: nat -> Load, user: UserKey,
    keyword: string, maxPages: int)
    requires Reloads(seal, broker, loads) && KeywordFits(Trim(keyword)) && 1 <= maxPages
    ensures Starts(fold, broker(0), user, keyword, None)
    ensures var walk := Start(fold, broker(0), keyword, None);
            && walk.matching == Matching(fold, CatalogueOf(seal, Templates(loads(0))), Trim(keyword))
            && |walk.matching| <= MAX_TEMPLATES && walk.offset == 0
            && Steady(fold, walk, broker, Needed(walk, maxPages, true))
  {
    var walk := Start(fold, broker(0), keyword, None);
    assert Serves(seal, broker(0), loads(0));
    SealedCatalogue(seal, loads(0));
    MatchingDisjoint(fold, broker(0).catalog.value, Trim(keyword));
    forall i: nat | 1 <= i < Needed(walk, maxPages, true)
      ensures Unchanged(fold, walk, broker(i))
    {
      assert Serves(seal, broker(i), loads(i));
      ReloadIsUnchanged(fold, seal, walk, broker(i), Templates(loads(0)), Templates(loads(i)));
    }
  }

  /** A listed category is one of the catalogue that matches, with its own name and directory. */
  ghost predicate ListsMatches(
    fold: string -> string, listed: seq<PublicCategory>, catalog: seq<Category>, keyword: string)
  {
    forall id, name, directory ::
      PublicCategory(id, name, directory) in listed <==>
        exists c :: c in catalog && (keyword == "" || Mentions(fold, c, keyword))
                    && c.id == id && c.displayName == name && c.directoryName == directory
  }

  lemma {:induction false} PublicHas(categories: seq<Category>, p: PublicCategory)
    ensures p in PublicOf(categories) <==> exists c :: c in categories && p == PublicCategory(c.id, c.displayName, c.directoryName)
  {
    if p in PublicOf(categories) {
      var i :| 0 <= i < |categories| && PublicOf(categories)[i] == p;
      assert categories[i] in categories;
    }
    if c :| c in categories && p == PublicCategory(c.id, c.displayName, c.directoryName) {
      var i :| 0 <= i < |categories| && categories[i] == c;
      assert PublicOf(categories)[i] == p;
    }
  }

  lemma {:induction false} MatchesAreListed(fold: string -> string, catalog: seq<Category>, keyword: string)
    requires Disjoint(catalog)
    ensures ListsMatches(fold, PublicOf(Matching(fold, catalog, keyword)), catalog, keyword)
  {
    var matching := Matching(fold, catalog, keyword);
    MatchingDisjoint(fold, catalog, keyword);
    forall id, name, directory
      ensures PublicCategory(id, name, directory) in PublicOf(matching) <==>
        exists c :: c in catalog && (keyword == "" || Mentions(fold, c, keyword))
                    && c.id == id && c.displayName == name && c.directoryName == directory
    {
      PublicHas(matching, PublicCategory(id, name, directory));
      forall c | c in catalog
        ensures c in matching <==> keyword == "" || Mentions(fold, c, keyword)
      {
        WhatMatches(fold, c, keyword);
      }
    }
  }

  /**
   * The client with `--all`, over a broker that reloads the same templates at every request: it always ends
   * complete, with the sorted categories that match the keyword, in at most 50 pages.
   */
  method AllMyCategories(
    fold: string -> string, ghost seal: string -> string, broker: nat -> Visit, ghost loads: nat -> Load,
    user: UserKey, keyword: Option<string>, maxPages: int)
    returns (r: Answer<Report>)
    requires Reloads(seal, broker, loads)
    requires |Trim(Given(keyword))| <= 100 && 1 <= maxPages <= 100
    ensures var all := Matching(fold, CatalogueOf(seal, Templates(loads(0))), Trim(Given(keyword)));
            && r.Answered? && r.value.complete && r.value.next.None? && r.value.categories == PublicOf(all)
            && r.value.total == r.value.scannedCandidates == |all|
            && r.value.pagesFetched == (if |all| == 0 then 1 else (|all| + 99) / 100) <= 50
    ensures ListsMatches(fold, r.value.categories, CatalogueOf(seal, Templates(loads(0))), Trim(Given(keyword)))
  {
    forall i: nat
      ensures SECOND <= broker(i).now && (broker(i).catalog.Answered? ==> WellSealed(broker(i).catalog.value))
    {
      assert Serves(seal, broker(i), loads(i));
      SealedCatalogue(seal, loads(i));
    }
    ReloadedWalk(fold, seal, broker, loads, user, Given(keyword), maxPages);
    AllIsComplete(Start(fold, broker(0), Given(keyword), None), user, maxPages);
    assert Serves(seal, broker(0), loads(0));
    SealedCatalogue(seal, loads(0));
    MatchesAreListed(fold, CatalogueOf(seal, Templates(loads(0))), Trim(Given(keyword)));
    r := MyCategories(fold, broker, user, keyword, None, maxPages, true);
  }
}
