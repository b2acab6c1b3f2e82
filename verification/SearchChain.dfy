/**
 * The state a search carries from page to page in its cursor, and the time arithmetic between a first page
 * and its continuations.
 */
module SearchChain {
  import opened Domain
  import opened Cursor
  import opened Text

  const VERSION := 3
  const SEARCH_SKEW: Time := MINUTE
  const MILLISECOND: Time := 1_000_000
  const DAY: Time := 24 * 60 * MINUTE
  const MAX_RANGE: Time := 120 * DAY
  const MAX_HISTORY: Time := 365 * DAY

  /** The zero instant of the library, January 1 of year 1; instants count from 1970. */
  const ZERO: Time := -62_135_596_800 * SECOND

  datatype SearchCategory = SearchCategory(id: string, displayName: string, directoryName: string, sources: seq<string>)

  datatype SourceCursor = SourceCursor(nextToken: int, done: bool)

  /** The revision digest is represented by the category it digests, the subject digest by the user. */
  datatype State = State(
    version: int, subject: UserKey, categoryId: string, revision: SearchCategory, keyword: string,
    startMs: int, endMs: int, issuedAt: int, sources: seq<SourceCursor>)

  datatype Query = Query(keyword: string, after: Option<Time>, before: Option<Time>, cursor: string)

  /** The serialisation of states and the signature are parameters. */
  datatype Codec = Codec(marshal: State -> seq<Byte>, unmarshal: seq<Byte> -> Option<State>, sign: seq<Byte> -> seq<Byte>)

  ghost predicate Sound(codec: Codec) {
    && (forall s :: codec.unmarshal(codec.marshal(s)) == Some(s) && codec.marshal(s) != [])
    && (forall p :: |codec.sign(p)| == 32)
  }

  function Millis(t: Time): int { t / MILLISECOND }

  function Stamped(state: State, now: Time): State {
    state.(version := VERSION, issuedAt := Stamp(state.issuedAt, now))
  }

  function EncodeState(codec: Codec, state: State, now: Time): Answer<string> {
    EncodePayload(codec.sign, codec.marshal(Stamped(state, now)))
  }

  predicate Wellformed(state: State) {
    && state.version == VERSION && state.categoryId != "" && 0 < state.startMs < state.endMs && state.sources != []
  }

  function DecodeState(codec: Codec, raw: string, now: Time): Answer<State> {
    var payload := DecodePayload(codec.sign, raw);
    if payload.Failed? then Failed(payload.error)
    else
      var state := codec.unmarshal(payload.value);
      if state.None? || !Wellformed(state.value) || !Live(state.value.issuedAt, now) then Failed(InvalidInput)
      else Answered(state.value)
  }

  predicate ValidRange(start: Time, end: Time, now: Time) {
    && start != ZERO && end != ZERO && start < end
    && end - start <= MAX_RANGE && now - MAX_HISTORY <= start && end <= now + SEARCH_SKEW
  }

  predicate CursorMatches(state: State, category: SearchCategory) {
    && state.revision == category && |state.sources| == |category.sources|
    && forall i :: 0 <= i < |state.sources| ==> 0 <= state.sources[i].nextToken
  }

  predicate RangeOk(state: State) {
    ValidRange(state.startMs * MILLISECOND, state.endMs * MILLISECOND, state.issuedAt * SECOND)
  }

  function Resume(codec: Codec, category: SearchCategory, user: UserKey, raw: string, now: Time): Answer<State> {
    var decoded := DecodeState(codec, raw, now);
    if decoded.Failed? then decoded
    else
      var state := decoded.value;
      if state.categoryId != category.id || !CursorMatches(state, category) || state.subject != user
      then Failed(InvalidInput)
      else if !RangeOk(state)
      then Failed(InvalidInput)
      else decoded
  }

  function EndOf(query: Query, now: Time): Time {
    if query.before.Some? then query.before.value else now
  }

  function StartOf(query: Query, now: Time): Time {
    if query.after.Some? then query.after.value else EndOf(query, now) - MAX_RANGE
  }

  function FirstState(category: SearchCategory, user: UserKey, query: Query, now: Time): Answer<State> {
    var keyword := Trim(query.keyword);
    var start, end := StartOf(query, now), EndOf(query, now);
    if !KeywordFits(keyword) || !ValidRange(start, end, now) then Failed(InvalidInput)
    else Answered(State(0, user, category.id, category, keyword, Millis(start), Millis(end), 0,
                        seq(|category.sources|, _ => SourceCursor(0, false))))
  }

  function SearchState(codec: Codec, category: SearchCategory, user: UserKey, query: Query, now: Time): Answer<State> {
    var raw := Trim(query.cursor);
    if raw == "" then FirstState(category, user, query, now)
    else if query.after.Some? || query.before.Some? || Trim(query.keyword) != "" then Failed(InvalidInput)
    else Resume(codec, category, user, raw, now)
  }

  /**
   * When a first page is accepted: a keyword of at most 100 characters and bounds in order, at most 120 days apart,
   * that start within 365 days before now and end at most a minute after it. Without a start the search goes back
   * 120 days from its end, and without an end it ends now.
   */
  lemma {:induction false} FirstPageAcceptedIff(category: SearchCategory, user: UserKey, query: Query, now: Time)
    ensures var end := if query.before.Some? then query.before.value else now;
            var start := if query.after.Some? then query.after.value else end - 120 * 24 * 60 * 60 * SECOND;
            var r := FirstState(category, user, query, now);
            && (r.Answered? <==>
                  && |Trim(query.keyword)| <= 100 && start != ZERO && end != ZERO
                  && 0 < end - start <= 120 * 24 * 60 * 60 * SECOND
                  && now - start <= 365 * 24 * 60 * 60 * SECOND && end - now <= 60 * SECOND)
            && (r.Failed? ==> r == Failed(InvalidInput))
            && (r.Answered? ==>
                  && r.value.subject == user && r.value.categoryId == category.id && r.value.revision == category
                  && r.value.keyword == Trim(query.keyword)
                  && r.value.startMs * MILLISECOND <= start < (r.value.startMs + 1) * MILLISECOND
                  && r.value.endMs * MILLISECOND <= end < (r.value.endMs + 1) * MILLISECOND
                  && |r.value.sources| == |category.sources|
                  && forall i :: 0 <= i < |r.value.sources| ==> r.value.sources[i] == SourceCursor(0, false))
  {
    MillisFloor(EndOf(query, now));
    MillisFloor(StartOf(query, now));
  }

  /** Whatever is refused is refused as invalid input. */
  lemma {:induction false} RefusedAsInvalid(
    codec: Codec, category: SearchCategory, user: UserKey, query: Query, now: Time)
    ensures var r := SearchState(codec, category, user, query, now); r.Answered? || r == Failed(InvalidInput)
  {
  }

  /**
   * Whom a cursor serves: the user and the category it was written for, as that category is now, alone in its
   * request, from a minute before its issue second until an hour after it.
   */
  lemma {:induction false} CursorServesItsSearch(
    codec: Codec, category: SearchCategory, user: UserKey, query: Query, now: Time)
    requires Trim(query.cursor) != "" && SearchState(codec, category, user, query, now).Answered?
    ensures var state := SearchState(codec, category, user, query, now).value;
            && state.version == 3 && state.subject == user && state.categoryId == category.id && state.revision == category
            && query.after.None? && query.before.None? && Trim(query.keyword) == ""
            && (state.issuedAt - 60) * SECOND <= now <= (state.issuedAt + 3600) * SECOND
            && (state.endMs - state.startMs) * MILLISECOND <= 120 * 24 * 60 * 60 * SECOND
  {
    ResumedServes(codec, category, user, Trim(query.cursor), now);
  }

  lemma {:induction false} ResumedServes(codec: Codec, category: SearchCategory, user: UserKey, raw: string, now: Time)
    requires Resume(codec, category, user, raw, now).Answered?
    ensures var state := Resume(codec, category, user, raw, now).value;
            && state.version == 3 && state.subject == user && state.categoryId == category.id && state.revision == category
            && (state.issuedAt - 60) * SECOND <= now <= (state.issuedAt + 3600) * SECOND
            && (state.endMs - state.startMs) * MILLISECOND <= 120 * 24 * 60 * 60 * SECOND
  {
    var state := Resume(codec, category, user, raw, now).value;
    ResumeIff(codec, category, user, raw, now, state);
    assert Live(state.issuedAt, now);
    LiveIff(state.issuedAt, now);
    assert RangeOk(state);
  }

  /** A continuation carries nothing but the cursor. */
  function Continuation(raw: string): Query {
    Query("", None, None, raw)
  }

  // The cursor of a page brings its state back.

  function OnlyIf(accepted: bool, state: State): Answer<State> {
    if accepted then Answered(state) else Failed(InvalidInput)
  }

  lemma {:induction false} RawIsTrimmed(sign: seq<Byte> -> seq<Byte>, payload: seq<Byte>)
    requires 0 < |payload| <= MAX_PAYLOAD && |sign(payload)| == SIGNATURE
    ensures var raw := EncodePayload(sign, payload).value; raw != "" && Trim(raw) == raw
  {
  }

  /** Decoding at `now` undoes encoding exactly for well-formed states that are not expired. */
  lemma {:induction false} StateRoundTrip(codec: Codec, state: State, encoded: Time, now: Time)
    requires Sound(codec) && |codec.marshal(Stamped(state, encoded))| <= MAX_PAYLOAD
    ensures EncodeState(codec, state, encoded).Answered?
    ensures var stamped, raw := Stamped(state, encoded), EncodeState(codec, state, encoded).value;
            DecodeState(codec, raw, now) == OnlyIf(Wellformed(stamped) && Live(stamped.issuedAt, now), stamped)
  {
    var payload := codec.marshal(Stamped(state, encoded));
    PayloadRoundTrip(codec.sign, payload);
    assert codec.unmarshal(payload) == Some(Stamped(state, encoded));
  }

  lemma {:induction false} ResumeFromCursor(
    codec: Codec, category: SearchCategory, user: UserKey, state: State, encoded: Time, now: Time)
    requires Sound(codec) && |codec.marshal(Stamped(state, encoded))| <= MAX_PAYLOAD
    requires state.categoryId == category.id && state.subject == user && CursorMatches(state, category)
    requires EncodeState(codec, state, encoded).Answered?
    ensures var next, raw := Stamped(state, encoded), EncodeState(codec, state, encoded).value;
            SearchState(codec, category, user, Continuation(raw), now)
            == OnlyIf(Wellformed(next) && Live(next.issuedAt, now) && RangeOk(next), next)
  {
    StateRoundTrip(codec, state, encoded, now);
    RawIsTrimmed(codec.sign, codec.marshal(Stamped(state, encoded)));
    assert Trim("") == "";
  }

  // Time bounds survive the truncation to milliseconds and seconds, or not.

  /** What a first page accepted at one time must satisfy for its cursor, encoded later, to be accepted. */
  predicate Survives(start: Time, end: Time, encoded: Time) {
    && MILLISECOND <= start && Millis(start) < Millis(end)
    && Seconds(encoded) * SECOND - MAX_HISTORY <= start
    && end < Seconds(encoded) * SECOND + SEARCH_SKEW + MILLISECOND
  }

  lemma {:induction false} TruncatedRange(start: Time, end: Time, now: Time, issuedAt: int)
    requires ValidRange(start, end, now)
    ensures (MILLISECOND <= start && Millis(start) < Millis(end)
             && ValidRange(Millis(start) * MILLISECOND, Millis(end) * MILLISECOND, issuedAt * SECOND))
       <==> (MILLISECOND <= start && Millis(start) < Millis(end)
             && issuedAt * SECOND - MAX_HISTORY <= start && end < issuedAt * SECOND + SEARCH_SKEW + MILLISECOND)
  {
    TruncateRange(start, end);
    TruncateStart(start, issuedAt);
    TruncateEnd(end, issuedAt);
  }

  /** Truncating both ends cannot stretch a range over a whole number of milliseconds. */
  lemma {:induction false} TruncateRange(start: Time, end: Time)
    requires end - start <= MAX_RANGE
    ensures Millis(end) * MILLISECOND - Millis(start) * MILLISECOND <= MAX_RANGE
  {
    assert MAX_RANGE == 10_368_000_000 * MILLISECOND;
    assert Millis(end) <= Millis(start) + 10_368_000_000;
  }

  lemma {:induction false} MillisFloor(t: Time)
    ensures Millis(t) * MILLISECOND <= t < Millis(t) * MILLISECOND + MILLISECOND
  {
    assert t == Millis(t) * MILLISECOND + t % MILLISECOND;
  }

  lemma {:induction false} TruncateStart(start: Time, issuedAt: int)
    ensures issuedAt * SECOND - MAX_HISTORY <= start
       <==> issuedAt * SECOND - MAX_HISTORY <= Millis(start) * MILLISECOND
  {
    var bound := issuedAt * 1000 - 31_536_000_000;
    assert issuedAt * SECOND - MAX_HISTORY == bound * MILLISECOND;
    MillisFloor(start);
    WholeMillis(Millis(start), start, bound);
  }

  lemma {:induction false} TruncateEnd(end: Time, issuedAt: int)
    ensures end < issuedAt * SECOND + SEARCH_SKEW + MILLISECOND
       <==> Millis(end) * MILLISECOND <= issuedAt * SECOND + SEARCH_SKEW
  {
    var bound := issuedAt * 1000 + 60_000;
    assert issuedAt * SECOND + SEARCH_SKEW == bound * MILLISECOND;
    MillisFloor(end);
    WholeMillis(Millis(end), end, bound);
  }

  /** Comparing an instant, or its millisecond, with a whole number of milliseconds. */
  lemma {:induction false} WholeMillis(q: int, t: Time, bound: int)
    requires q * MILLISECOND <= t < q * MILLISECOND + MILLISECOND
    ensures bound * MILLISECOND <= t <==> bound * MILLISECOND <= q * MILLISECOND
    ensures t < bound * MILLISECOND + MILLISECOND <==> q * MILLISECOND <= bound * MILLISECOND
  {
  }

  /** The sources move on, everything else stays. */
  predicate Moved(state: State, next: State) {
    next == state.(sources := next.sources) && |next.sources| == |state.sources|
  }

  predicate TokensOk(state: State) {
    forall i :: 0 <= i < |state.sources| ==> 0 <= state.sources[i].nextToken
  }

  /**
   * The second page, exactly: after a first page accepted at `now` and a cursor written at `encoded`, the
   * continuation at `later` is accepted if and only if the bounds survive truncation and the cursor is live.
   */
  lemma {:induction false} SecondPageAcceptedIff(
    codec: Codec, category: SearchCategory, user: UserKey, query: Query, now: Time, moved: State, encoded: Time, later: Time)
    requires Sound(codec) && category.id != "" && category.sources != []
    requires FirstState(category, user, query, now).Answered? && SECOND <= encoded
    requires Moved(FirstState(category, user, query, now).value, moved) && TokensOk(moved)
    requires |codec.marshal(Stamped(moved, encoded))| <= MAX_PAYLOAD
    ensures EncodeState(codec, moved, encoded).Answered?
    ensures SearchState(codec, category, user, Continuation(EncodeState(codec, moved, encoded).value), later)
         == OnlyIf(Survives(StartOf(query, now), EndOf(query, now), encoded) && Live(Seconds(encoded), later),
                   Stamped(moved, encoded))
  {
    StateRoundTrip(codec, moved, encoded, later);
    ResumeFromCursor(codec, category, user, moved, encoded, later);
    TruncatedRange(StartOf(query, now), EndOf(query, now), now, Seconds(encoded));
    assert Seconds(encoded) != 0;
  }

  /** What an accepted cursor carries, whenever it was accepted. */
  predicate Accepted(category: SearchCategory, user: UserKey, state: State) {
    && Wellformed(state) && state.categoryId == category.id && state.subject == user
    && CursorMatches(state, category) && RangeOk(state)
  }

  /** A cursor is accepted at a time iff it decodes at that time to such a state. */
  lemma {:induction false} ResumeIff(
    codec: Codec, category: SearchCategory, user: UserKey, raw: string, now: Time, state: State)
    ensures Resume(codec, category, user, raw, now) == Answered(state)
       <==> DecodeState(codec, raw, now) == Answered(state) && Accepted(category, user, state)
  {
  }

  /** Every later page: a cursor that was accepted is followed by one that is accepted exactly while it is live. */
  lemma {:induction false} LaterPageAcceptedIff(
    codec: Codec, category: SearchCategory, user: UserKey, state: State, moved: State, encoded: Time, later: Time)
    requires Sound(codec) && Accepted(category, user, state)
    requires Moved(state, moved) && TokensOk(moved) && moved.issuedAt != 0
    requires |codec.marshal(Stamped(moved, encoded))| <= MAX_PAYLOAD
    ensures EncodeState(codec, moved, encoded).Answered?
    ensures SearchState(codec, category, user, Continuation(EncodeState(codec, moved, encoded).value), later)
         == OnlyIf(Live(moved.issuedAt, later), moved)
  {
    StateRoundTrip(codec, moved, encoded, later);
    ResumeFromCursor(codec, category, user, moved, encoded, later);
  }

  /** Bounds that end a second before the clock skew allows, and start within the history, always survive. */
  lemma {:induction false} EarlyEndSurvives(start: Time, end: Time, now: Time, encoded: Time)
    requires now <= encoded && end <= now + 59 * SECOND && encoded - MAX_HISTORY <= start
    requires MILLISECOND <= start && Millis(start) < Millis(end)
    ensures Survives(start, end, encoded)
  {
  }

  /** Such a chain continues until exactly one hour after its issue second, and not longer. */
  lemma {:induction false} LiveForAnHour(encoded: Time, later: Time)
    requires encoded <= later
    ensures Live(Seconds(encoded), later) <==> later <= Seconds(encoded) * SECOND + TTL
  {
  }

  /** Without the spare second, a first page can be accepted whose continuation is refused. */
  lemma {:induction false} LateEndIsLost(now: Time)
    requires 2 * MAX_HISTORY <= now && now % SECOND == SECOND / 2
    ensures ValidRange(now, now + SEARCH_SKEW, now) && !Survives(now, now + SEARCH_SKEW, now)
  {
    assert now == Seconds(now) * SECOND + SECOND / 2;
  }

  // Whole chains.

  /** One page of a chain: the time it is asked for, its state, and the state and time its cursor is written. */
  datatype Page = Page(asked: Time, state: State, moved: State, encoded: Time)

  /** Each page listed from its own state, and the next one was asked for with the cursor it wrote. */
  ghost predicate Chain(codec: Codec, category: SearchCategory, user: UserKey, query: Query, pages: seq<Page>) {
    && |pages| > 0
    && FirstState(category, user, query, pages[0].asked) == Answered(pages[0].state)
    && (forall i :: 0 <= i < |pages| ==> Moved(pages[i].state, pages[i].moved) && SECOND <= pages[i].encoded)
    && (forall i :: 0 <= i < |pages| - 1 ==> Follows(codec, category, user, pages[i], pages[i + 1]))
  }

  predicate Follows(codec: Codec, category: SearchCategory, user: UserKey, page: Page, next: Page) {
    var raw := EncodeState(codec, page.moved, page.encoded);
    && raw.Answered?
    && SearchState(codec, category, user, Continuation(raw.value), next.asked) == Answered(next.state)
  }

  /** An accepted continuation runs on the very state its cursor was written from. */
  lemma {:induction false} AcceptedIsWritten(
    codec: Codec, category: SearchCategory, user: UserKey, state: State, encoded: Time, now: Time)
    requires Sound(codec)
    ensures var raw := EncodeState(codec, state, encoded);
            raw.Answered? && SearchState(codec, category, user, Continuation(raw.value), now).Answered? ==>
              SearchState(codec, category, user, Continuation(raw.value), now) == Answered(Stamped(state, encoded))
  {
    if EncodeState(codec, state, encoded).Answered? {
      StateRoundTrip(codec, state, encoded, now);
      RawIsTrimmed(codec.sign, codec.marshal(Stamped(state, encoded)));
    }
  }

  /** Subject, category, revision, keyword, window and issue time are those of the first page's cursor. */
  lemma {:induction false} ChainKeepsItsSearch(
    codec: Codec, category: SearchCategory, user: UserKey, query: Query, pages: seq<Page>, i: nat)
    requires Sound(codec) && Chain(codec, category, user, query, pages) && 0 < i < |pages|
    ensures pages[i].state == Stamped(pages[0].state, pages[0].encoded).(sources := pages[i].state.sources)
    ensures pages[i].state.sources == pages[i - 1].moved.sources
  {
    assert Follows(codec, category, user, pages[i - 1], pages[i]);
    AcceptedIsWritten(codec, category, user, pages[i - 1].moved, pages[i - 1].encoded, pages[i].asked);
    assert Moved(pages[i - 1].state, pages[i - 1].moved);
    assert Seconds(pages[0].encoded) != 0;
    if i > 1 {
      ChainKeepsItsSearch(codec, category, user, query, pages, i - 1);
    }
  }

  /** What the last page of a chain needs to write its cursor. */
  predicate Writable(codec: Codec, page: Page) {
    TokensOk(page.moved) && |codec.marshal(Stamped(page.moved, page.encoded))| <= MAX_PAYLOAD
  }

  /** A chain that got beyond its first page has bounds that survived, and was written on a state with its issue second. */
  lemma {:induction false} ChainSurvived(
    codec: Codec, category: SearchCategory, user: UserKey, query: Query, pages: seq<Page>)
    requires Sound(codec) && category.id != "" && category.sources != []
    requires Chain(codec, category, user, query, pages) && |pages| > 1 && Writable(codec, pages[0])
    ensures Survives(StartOf(query, pages[0].asked), EndOf(query, pages[0].asked), pages[0].encoded)
  {
    assert Follows(codec, category, user, pages[0], pages[1]);
    SecondPageAcceptedIff(codec, category, user, query, pages[0].asked, pages[0].moved, pages[0].encoded, pages[1].asked);
  }

  lemma {:induction false} ChainIssue(
    codec: Codec, category: SearchCategory, user: UserKey, query: Query, pages: seq<Page>, i: nat)
    requires Sound(codec) && Chain(codec, category, user, query, pages) && 0 < i < |pages|
    ensures pages[i].moved.issuedAt == Seconds(pages[0].encoded) != 0
    ensures Stamped(pages[i].moved, pages[i].encoded) == pages[i].moved
  {
    ChainKeepsItsSearch(codec, category, user, query, pages, i);
    assert Moved(pages[i].state, pages[i].moved) && Seconds(pages[0].encoded) >= 1;
  }

  /**
   * Every chain, however long: the next continuation is accepted, on the state its cursor was written from, if
   * and only if the first page's bounds survive truncation and its issue second is live.
   */
  lemma {:induction false} ChainContinuesIff(
    codec: Codec, category: SearchCategory, user: UserKey, query: Query, pages: seq<Page>, later: Time)
    requires Sound(codec) && category.id != "" && category.sources != []
    requires Chain(codec, category, user, query, pages)
    requires Writable(codec, pages[0]) && Writable(codec, pages[|pages| - 1])
    ensures var first, last := pages[0], pages[|pages| - 1];
            && EncodeState(codec, last.moved, last.encoded).Answered?
            && SearchState(codec, category, user, Continuation(EncodeState(codec, last.moved, last.encoded).value), later)
               == OnlyIf(Survives(StartOf(query, first.asked), EndOf(query, first.asked), first.encoded)
                         && Live(Seconds(first.encoded), later), Stamped(last.moved, last.encoded))
  {
    var n, last := |pages| - 1, pages[|pages| - 1];
    if n == 0 {
      SecondPageAcceptedIff(codec, category, user, query, last.asked, last.moved, last.encoded, later);
    } else {
      var before := pages[n - 1];
      assert Follows(codec, category, user, before, last);
      var raw := EncodeState(codec, before.moved, before.encoded).value;
      ChainSurvived(codec, category, user, query, pages);
      ChainIssue(codec, category, user, query, pages, n);
      AcceptedIsResumed(codec, category, user, before.moved, before.encoded, last.asked);
      ResumeIff(codec, category, user, raw, last.asked, last.state);
      LaterPageAcceptedIff(codec, category, user, last.state, last.moved, last.encoded, later);
    }
  }

  /** A continuation is answered by resuming from its cursor. */
  lemma {:induction false} AcceptedIsResumed(
    codec: Codec, category: SearchCategory, user: UserKey, state: State, encoded: Time, now: Time)
    requires Sound(codec) && EncodeState(codec, state, encoded).Answered?
    ensures var raw := EncodeState(codec, state, encoded).value;
            SearchState(codec, category, user, Continuation(raw), now) == Resume(codec, category, user, raw, now)
  {
    RawIsTrimmed(codec.sign, codec.marshal(Stamped(state, encoded)));
    assert Trim("") == "";
  }

  /**
   * With bounds that end 59 seconds after the first page at the latest, start within a year of its encoding, are
   * positive and in different milliseconds, a chain goes on at every page asked for within an hour of the issue.
   */
  lemma {:induction false} ChainLastsAnHour(
    codec: Codec, category: SearchCategory, user: UserKey, query: Query, pages: seq<Page>, later: Time)
    requires Sound(codec) && category.id != "" && category.sources != []
    requires Chain(codec, category, user, query, pages)
    requires Writable(codec, pages[0]) && Writable(codec, pages[|pages| - 1])
    requires var now, start, end := pages[0].asked, StartOf(query, pages[0].asked), EndOf(query, pages[0].asked);
             && now <= pages[0].encoded && end <= now + 59 * SECOND && pages[0].encoded - MAX_HISTORY <= start
             && MILLISECOND <= start && Millis(start) < Millis(end)
    requires pages[0].encoded <= later <= Seconds(pages[0].encoded) * SECOND + TTL
    ensures var last := pages[|pages| - 1];
            && EncodeState(codec, last.moved, last.encoded).Answered?
            && SearchState(codec, category, user, Continuation(EncodeState(codec, last.moved, last.encoded).value), later)
               == Answered(Stamped(last.moved, last.encoded))
  {
    ChainContinuesIff(codec, category, user, query, pages, later);
    EarlyEndSurvives(StartOf(query, pages[0].asked), EndOf(query, pages[0].asked), pages[0].asked, pages[0].encoded);
    LiveForAnHour(pages[0].encoded, later);
  }
}
