// Listing a queue's requests by acceptance time, newest first, over pages
// between which more requests may be accepted
// (stovepipe/controller/list.go, list_pagination.go).
module AcceptanceList {
  import opened Wrappers
  import opened Keyset
  import Bytewise

  /** The key of an acceptance mapping. */
  datatype Key = Key(acceptedAtMs: int, requestID: string)

  /** Descending acceptance time, then descending bytewise request id. */
  predicate Newer(a: Key, b: Key) {
    a.acceptedAtMs > b.acceptedAtMs ||
    (a.acceptedAtMs == b.acceptedAtMs && Bytewise.Less(b.requestID, a.requestID))
  }

  lemma NewerIsOrder()
    ensures IsOrder(Newer)
  {
    forall a ensures !Newer(a, a) { Bytewise.Irreflexive(a.requestID); }
    forall a, b, c | Newer(a, b) && Newer(b, c) ensures Newer(a, c) {
      if a.acceptedAtMs == b.acceptedAtMs == c.acceptedAtMs {
        Bytewise.Transitive(c.requestID, b.requestID, a.requestID);
      }
    }
    forall a, b ensures Newer(a, b) || a == b || Newer(b, a) { Bytewise.Total(a.requestID, b.requestID); }
  }

  // ---- The request and its range ----

  datatype Token = Token(version: int, queue: string, acceptedAtOrAfterMs: int, acceptedBeforeMs: int, last: Key)

  /** A page_token: none, one that does not decode, or one that was encoded from these fields. */
  datatype PageToken = NoToken | Garbled | Carries(token: Token)

  datatype Request = Request(queue: string, atOrAfterMs: Option<int>, beforeMs: Option<int>, pageSize: int, pageToken: PageToken)

  datatype Range = Range(acceptedAtOrAfterMs: int, acceptedBeforeMs: int, before: Option<Key>, limit: nat)

  datatype Failure = InvalidRequest | Inconsistent(requestID: string) | StorageFailed

  const TOKEN_VERSION := 1
  const DEFAULT_PAGE_SIZE := 50
  const MAX_PAGE_SIZE := 200

  predicate ValidToken(t: Token) {
    && t.version == TOKEN_VERSION && t.queue != "" && t.last.requestID != ""
    && 0 <= t.acceptedAtOrAfterMs < t.acceptedBeforeMs
    && t.last.acceptedAtMs > 0 && t.acceptedAtOrAfterMs <= t.last.acceptedAtMs < t.acceptedBeforeMs
  }

  /** The bounds a request names; omitted ones are the beginning of time and now. */
  function Lower(req: Request): (lo: int)
    ensures req.atOrAfterMs == Some(lo) || (req.atOrAfterMs.None? && lo == 0)
  {
    if req.atOrAfterMs.Some? then req.atOrAfterMs.value else 0
  }

  function Upper(req: Request, now: int): (hi: int)
    ensures req.beforeMs == Some(hi) || (req.beforeMs.None? && hi == now)
  {
    if req.beforeMs.Some? then req.beforeMs.value else now
  }

  function PageSize(req: Request): int { if req.pageSize == 0 then DEFAULT_PAGE_SIZE else req.pageSize }

  function ResolveRange(req: Request, now: int): (r: Result<Range, Failure>)
    // A first call is accepted exactly when page size and bounds are in order, and then reads those bounds.
    ensures req.pageToken.NoToken? ==> (r.Ok? <==>
      && 0 <= req.pageSize <= 200
      && (req.atOrAfterMs.Some? ==> req.atOrAfterMs.value >= 0)
      && Lower(req) < Upper(req, now))
    ensures req.pageToken.NoToken? && r.Ok? ==>
      r.value.acceptedAtOrAfterMs == Lower(req) && r.value.acceptedBeforeMs == Upper(req, now) && r.value.before.None?
    // A token is accepted exactly when it is in order and says nothing else than the request.
    ensures req.pageToken.Carries? ==> (r.Ok? <==>
      var t := req.pageToken.token;
      && 0 <= req.pageSize <= 200
      && t.version == 1 && t.queue == req.queue && req.queue != "" && t.last.requestID != ""
      && 0 <= t.acceptedAtOrAfterMs <= t.last.acceptedAtMs < t.acceptedBeforeMs && t.last.acceptedAtMs > 0
      && (req.atOrAfterMs.Some? ==> req.atOrAfterMs.value == t.acceptedAtOrAfterMs)
      && (req.beforeMs.Some? ==> req.beforeMs.value == t.acceptedBeforeMs))
    ensures req.pageToken.Carries? && r.Ok? ==>
      var t := req.pageToken.token;
      r.value.acceptedAtOrAfterMs == t.acceptedAtOrAfterMs && r.value.acceptedBeforeMs == t.acceptedBeforeMs && r.value.before == Some(t.last)
    ensures req.pageToken.Garbled? ==> r.Err?
    ensures r.Err? ==> r.error == InvalidRequest
    ensures r.Ok? ==> 0 <= r.value.acceptedAtOrAfterMs < r.value.acceptedBeforeMs
    ensures r.Ok? ==> r.value.limit == (if req.pageSize == 0 then 50 else req.pageSize) + 1
    ensures r.Ok? ==> 1 <= PageSize(req) <= MAX_PAGE_SIZE
  {
    if req.pageSize < 0 || req.pageSize > MAX_PAGE_SIZE then Err(InvalidRequest)
    else
      match req.pageToken
      case Garbled => Err(InvalidRequest)
      case Carries(t) =>
        if !ValidToken(t) then Err(InvalidRequest)
        else if t.queue != req.queue
             || (req.atOrAfterMs.Some? && req.atOrAfterMs.value != t.acceptedAtOrAfterMs)
             || (req.beforeMs.Some? && req.beforeMs.value != t.acceptedBeforeMs) then Err(InvalidRequest)
        else Ok(Range(t.acceptedAtOrAfterMs, t.acceptedBeforeMs, Some(t.last), PageSize(req) + 1))
      case NoToken =>
        var lo := Lower(req);
        var hi := Upper(req, now);
        if lo < 0 || hi <= lo then Err(InvalidRequest) else Ok(Range(lo, hi, None, PageSize(req) + 1))
  }

  // ---- The stores ----

  datatype Summary = Summary(queue: string, requestID: string, acceptedAtMs: int, contents: nat)

  datatype SummaryRead = Found(summary: Summary) | NotFound | ReadFailed

  /** The mappings in key order, the queue each row names, and the summaries. */
  datatype Stores = Stores(keys: seq<Key>, queueOf: Key -> string, summaries: string -> SummaryRead)

  function Windowed(keys: seq<Key>, lo: int, hi: int): (r: seq<Key>)
    ensures forall k :: k in r <==> k in keys && lo <= k.acceptedAtMs < hi
  {
    if |keys| == 0 then []
    else (if lo <= keys[0].acceptedAtMs < hi then [keys[0]] else []) + Windowed(keys[1..], lo, hi)
  }

  lemma {:induction false} WindowedIsSorted(keys: seq<Key>, lo: int, hi: int)
    requires Sorted(Newer, keys)
    ensures Sorted(Newer, Windowed(keys, lo, hi))
  {
    hide Newer;
    if |keys| > 0 {
      TailSorted(Newer, keys);
      WindowedIsSorted(keys[1..], lo, hi);
      var rest := Windowed(keys[1..], lo, hi);
      forall j | 0 <= j < |rest| ensures Newer(keys[0], rest[j]) {
        assert rest[j] in keys[1..];
      }
    }
  }

  /** The scan of the store: the range's window beyond its cursor, up to its limit. */
  function Scan(stores: Stores, range: Range): seq<Key> {
    Listing(Newer, Windowed(stores.keys, range.acceptedAtOrAfterMs, range.acceptedBeforeMs), range.before, range.limit)
  }

  predicate Agrees(queue: string, k: Key, read: SummaryRead) {
    && read.Found?
    && read.summary.queue == queue && read.summary.requestID == k.requestID && read.summary.acceptedAtMs == k.acceptedAtMs
  }

  predicate Consistent(stores: Stores, queue: string, k: Key) {
    && stores.queueOf(k) == queue && k.acceptedAtMs > 0 && k.requestID != ""
    && Agrees(queue, k, stores.summaries(k.requestID))
  }

  method ReadListSummary(stores: Stores, queue: string, k: Key) returns (r: Result<Summary, Failure>)
    ensures r.Ok? <==> Consistent(stores, queue, k)
    ensures r.Ok? <==> (
      && stores.queueOf(k) == queue && k.acceptedAtMs > 0 && k.requestID != ""
      && exists s :: stores.summaries(k.requestID) == Found(s) && s.queue == queue && Key(s.acceptedAtMs, s.requestID) == k)
    ensures r.Ok? ==> stores.summaries(k.requestID) == Found(r.value) && KeyOf(r.value) == k
    ensures r.Err? ==> r.error == StorageFailed || r.error == Inconsistent(k.requestID)
    ensures r == Err(StorageFailed) <==> (
      stores.queueOf(k) == queue && k.acceptedAtMs > 0 && k.requestID != "" && stores.summaries(k.requestID).ReadFailed?)
  {
    if stores.queueOf(k) != queue || k.acceptedAtMs <= 0 || k.requestID == "" {
      return Err(Inconsistent(k.requestID));
    }
    var read := stores.summaries(k.requestID);
    match read
    case ReadFailed => return Err(StorageFailed);
    case NotFound => return Err(Inconsistent(k.requestID));
    case Found(summary) =>
      if summary.queue != queue || summary.requestID != k.requestID || summary.acceptedAtMs != k.acceptedAtMs {
        return Err(Inconsistent(k.requestID));
      }
      return Ok(summary);
  }

  // ---- One call ----

  datatype ListResult = ListResult(requests: seq<Summary>, nextPageToken: PageToken)

  function KeyOf(s: Summary): Key { Key(s.acceptedAtMs, s.requestID) }

  function KeysOf(ss: seq<Summary>): (keys: seq<Key>)
    ensures |keys| == |ss| && forall i :: 0 <= i < |ss| ==> keys[i] == KeyOf(ss[i])
  {
    if |ss| == 0 then [] else KeysOf(ss[..|ss| - 1]) + [KeyOf(ss[|ss| - 1])]
  }

  function PageOf(r: ListResult): Page<Key> { Page(KeysOf(r.requests), r.nextPageToken.Carries?) }

  /** What a call that succeeded has listed: a page of its window, and a token for the next. */
  predicate Lists(stores: Stores, req: Request, now: int, r: ListResult) {
    var resolved := ResolveRange(req, now);
    && req.queue != "" && resolved.Ok?
    && var range := resolved.value;
       && IsPage(Newer, Windowed(stores.keys, range.acceptedAtOrAfterMs, range.acceptedBeforeMs),
                 range.before, PageSize(req), PageOf(r))
       && !r.nextPageToken.Garbled?
       && (forall s :: s in r.requests ==> Consistent(stores, req.queue, KeyOf(s)) && stores.summaries(s.requestID) == Found(s))
       && (r.nextPageToken.Carries? ==>
             |r.requests| > 0 && r.nextPageToken.token ==
               Token(TOKEN_VERSION, req.queue, range.acceptedAtOrAfterMs, range.acceptedBeforeMs,
                     KeyOf(r.requests[|r.requests| - 1])))
  }

  function Visible(stores: Stores, range: Range): seq<Key>
    requires range.limit > 0
  {
    var mappings := Scan(stores, range);
    mappings[..if |mappings| < range.limit - 1 then |mappings| else range.limit - 1]
  }

  /** The summaries of the visible mappings, with a token exactly when a mapping was left over. */
  lemma PageOfVisible(stores: Stores, req: Request, now: int, query: Range, requests: seq<Summary>)
    requires ResolveRange(req, now) == Ok(query) && |requests| == |Visible(stores, query)|
    requires forall j :: 0 <= j < |requests| ==> KeyOf(requests[j]) == Visible(stores, query)[j]
    ensures KeysOf(requests) == Visible(stores, query)
    ensures |Scan(stores, query)| > PageSize(req) ==> |requests| == PageSize(req) > 0
    ensures IsPage(Newer, Windowed(stores.keys, query.acceptedAtOrAfterMs, query.acceptedBeforeMs), query.before, PageSize(req),
                   Page(KeysOf(requests), |Scan(stores, query)| > PageSize(req)))
  {
    hide Newer, Windowed, Listing;
  }

  method List(configured: set<string>, stores: Stores, req: Request, now: int) returns (r: Result<ListResult, Failure>)
    ensures r.Ok? ==> Lists(stores, req, now, r.value)
    ensures r.Ok? <==> (
      && req.queue != "" && req.queue in configured && ResolveRange(req, now).Ok?
      && forall k :: k in Visible(stores, ResolveRange(req, now).value) ==> Consistent(stores, req.queue, k))
    ensures r == Err(InvalidRequest) <==> req.queue == "" || req.queue !in configured || ResolveRange(req, now).Err?
    ensures r.Err? && r.error.Inconsistent? ==> exists k ::
      && k in Visible(stores, ResolveRange(req, now).value) && k.requestID == r.error.requestID
      && !Consistent(stores, req.queue, k)
  {
    hide Listing, Windowed, Newer, ResolveRange, Consistent;
    if req.queue == "" || req.queue !in configured {
      return Err(InvalidRequest);
    }
    var resolved := ResolveRange(req, now);
    if resolved.Err? {
      return Err(resolved.error);
    }
    var query := resolved.value;
    var mappings := Scan(stores, query);
    var pageSize := query.limit - 1;
    var visible := mappings[..if |mappings| < pageSize then |mappings| else pageSize];
    var requests: seq<Summary> := [];
    for i := 0 to |visible|
      invariant |requests| == i
      invariant forall j :: 0 <= j < i ==> Consistent(stores, req.queue, visible[j])
      invariant forall j :: 0 <= j < i ==>
        stores.summaries(visible[j].requestID) == Found(requests[j]) && KeyOf(requests[j]) == visible[j]
    {
      var summary := ReadListSummary(stores, req.queue, visible[i]);
      if summary.Err? {
        assert visible[i] in visible && !Consistent(stores, req.queue, visible[i]);
        return Err(summary.error);
      }
      requests := requests + [summary.value];
    }
    PageOfVisible(stores, req, now, query, requests);
    var next := NoToken;
    if |mappings| > pageSize {
      var last := visible[|visible| - 1];
      next := Carries(Token(TOKEN_VERSION, req.queue, query.acceptedAtOrAfterMs, query.acceptedBeforeMs, last));
    }
    return Ok(ListResult(requests, next));
  }

  // ---- Following the tokens ----

  /** A request that sends a token back on the same queue, with any bounds it repeats unchanged. */
  predicate Continues(req: Request, token: Token) {
    && req.pageToken == Carries(token) && req.queue == token.queue
    && 0 <= req.pageSize <= MAX_PAGE_SIZE
    && (req.atOrAfterMs.Some? ==> req.atOrAfterMs.value == token.acceptedAtOrAfterMs)
    && (req.beforeMs.Some? ==> req.beforeMs.value == token.acceptedBeforeMs)
  }

  /** Every token List gives passes its own checks, and carries the frozen window and the last key on. */
  lemma EmittedTokenIsAccepted(stores: Stores, req: Request, now: int, r: ListResult, next: Request, later: int)
    requires Lists(stores, req, now, r) && r.nextPageToken.Carries? && Continues(next, r.nextPageToken.token)
    ensures ValidToken(r.nextPageToken.token)
    ensures var (first, last) := (ResolveRange(req, now).value, r.requests[|r.requests| - 1]);
      ResolveRange(next, later) ==
        Ok(Range(first.acceptedAtOrAfterMs, first.acceptedBeforeMs, Some(KeyOf(last)), PageSize(next) + 1))
  {
    var range, last := ResolveRange(req, now).value, r.requests[|r.requests| - 1];
    var window := Windowed(stores.keys, range.acceptedAtOrAfterMs, range.acceptedBeforeMs);
    MorePagesAreFull(Newer, window, range.before, PageSize(req), PageOf(r));
    assert PageOf(r).keys[|r.requests| - 1] == KeyOf(last);
    assert last in r.requests && KeyOf(last) in window;
  }

  /** A call, the stores it read, and what it returned. */
  datatype Call = Call(stores: Stores, req: Request, now: int, result: ListResult)

  predicate FollowsAt(calls: seq<Call>, i: nat)
    requires i < |calls|
  {
    && Lists(calls[i].stores, calls[i].req, calls[i].now, calls[i].result)
    && (if i == 0 then calls[0].req.pageToken.NoToken?
        else
          && calls[i - 1].result.nextPageToken.Carries?
          && Continues(calls[i].req, calls[i - 1].result.nextPageToken.token))
  }

  /** A first call without a token, and calls that each send the token of the one before. */
  ghost predicate Followed(calls: seq<Call>) {
    |calls| > 0 && forall i: nat :: i < |calls| ==> FollowsAt(calls, i)
  }

  lemma FollowedFront(calls: seq<Call>)
    requires Followed(calls) && |calls| > 1
    ensures Followed(calls[..|calls| - 1])
  {
    hide Lists, Continues;
    var front := calls[..|calls| - 1];
    forall i: nat | i < |front| ensures FollowsAt(front, i) { assert FollowsAt(calls, i); }
  }

  /** Acceptance mappings are only ever added. */
  ghost predicate OnlyAdded(calls: seq<Call>) {
    && (forall i :: 0 <= i < |calls| ==> Sorted(Newer, calls[i].stores.keys))
    && (forall i, j, k :: 0 <= i <= j < |calls| && k in calls[i].stores.keys ==> k in calls[j].stores.keys)
  }

  function Windows(calls: seq<Call>, lo: int, hi: int): (r: seq<seq<Key>>)
    ensures |r| == |calls| && forall i :: 0 <= i < |calls| ==> r[i] == Windowed(calls[i].stores.keys, lo, hi)
  {
    if |calls| == 0 then []
    else Windows(calls[..|calls| - 1], lo, hi) + [Windowed(calls[|calls| - 1].stores.keys, lo, hi)]
  }

  function Sizes(calls: seq<Call>): (r: seq<nat>)
    ensures |r| == |calls|
  {
    if |calls| == 0 then []
    else
      var size := PageSize(calls[|calls| - 1].req);
      Sizes(calls[..|calls| - 1]) + [if size < 0 then 0 else size]
  }

  function Pages(calls: seq<Call>): (r: seq<Page<Key>>)
    ensures |r| == |calls| && forall i :: 0 <= i < |calls| ==> r[i] == PageOf(calls[i].result)
  {
    if |calls| == 0 then [] else Pages(calls[..|calls| - 1]) + [PageOf(calls[|calls| - 1].result)]
  }

  function WindowOf(c: Call): (int, int) {
    var r := ResolveRange(c.req, c.now);
    if r.Ok? then (r.value.acceptedAtOrAfterMs, r.value.acceptedBeforeMs) else (0, 0)
  }

  /** The calls walk the window the first of them froze. */
  lemma {:induction false} FollowedIsWalk(calls: seq<Call>)
    requires Followed(calls)
    ensures var (lo, hi) := WindowOf(calls[0]);
      && WindowOf(calls[|calls| - 1]) == (lo, hi)
      && IsWalk(Newer, Windows(calls, lo, hi), Sizes(calls), Pages(calls))
    decreases |calls|
  {
    hide Newer, IsPage, Windowed, PageOf;
    var (lo, hi) := WindowOf(calls[0]);
    var n := |calls| - 1;
    var (front, last) := (calls[..n], calls[n]);
    assert FollowsAt(calls, n);
    OneCallIsPage(last);
    if n == 0 {
      assert Windows(calls, lo, hi) == [Windowed(last.stores.keys, lo, hi)];
    } else {
      FollowedFront(calls);
      FollowedIsWalk(front);
      assert FollowsAt(calls, n - 1);
      NextCallIsPage(calls[n - 1], last);
      assert front[n - 1] == calls[n - 1];
      WalkExtends(Newer, Windows(front, lo, hi), Sizes(front), Pages(front),
                  Windowed(last.stores.keys, lo, hi), PageSize(last.req), PageOf(last.result));
    }
  }

  lemma OneCallIsPage(c: Call)
    requires Lists(c.stores, c.req, c.now, c.result)
    ensures PageSize(c.req) > 0
    ensures var ((lo, hi), range) := (WindowOf(c), ResolveRange(c.req, c.now).value);
      IsPage(Newer, Windowed(c.stores.keys, lo, hi), range.before, PageSize(c.req), PageOf(c.result))
    ensures c.req.pageToken.NoToken? ==> ResolveRange(c.req, c.now).value.before.None?
  {
    hide IsPage, Newer, Windowed, PageOf;
  }

  /** The call that sends a token reads on from the last key of the page the token came with. */
  lemma NextCallIsPage(c: Call, d: Call)
    requires Lists(c.stores, c.req, c.now, c.result) && Lists(d.stores, d.req, d.now, d.result)
    requires c.result.nextPageToken.Carries? && Continues(d.req, c.result.nextPageToken.token)
    ensures WindowOf(d) == WindowOf(c) && PageOf(c.result).more
    ensures ResolveRange(d.req, d.now).value.before == LastOf(PageOf(c.result))
  {
    hide IsPage, Newer, Windowed;
    EmittedTokenIsAccepted(c.stores, c.req, c.now, c.result, d.req, d.now);
    LastShown(c.result);
  }

  lemma LastShown(r: ListResult)
    requires r.nextPageToken.Carries? && |r.requests| > 0
    ensures LastOf(PageOf(r)) == Some(KeyOf(r.requests[|r.requests| - 1]))
  {
  }

  /** A call shows at most as many as were asked for, and exactly so many if it gives a token. */
  lemma PageIsAsAsked(stores: Stores, req: Request, now: int, r: ListResult)
    requires Lists(stores, req, now, r)
    ensures |r.requests| <= if req.pageSize > 0 then req.pageSize else 50
    ensures r.nextPageToken.Carries? ==> |r.requests| == if req.pageSize > 0 then req.pageSize else 50
    ensures forall s :: s in r.requests ==>
      && s.queue == req.queue && s.requestID != "" && s.acceptedAtMs > 0
      && Key(s.acceptedAtMs, s.requestID) in stores.keys && stores.summaries(s.requestID) == Found(s)
      && stores.queueOf(Key(s.acceptedAtMs, s.requestID)) == req.queue
    ensures req.pageToken.NoToken? ==>
      forall s :: s in r.requests ==> Lower(req) <= s.acceptedAtMs < Upper(req, now)
  {
    hide Newer;
    var range := ResolveRange(req, now).value;
    var window := Windowed(stores.keys, range.acceptedAtOrAfterMs, range.acceptedBeforeMs);
    MorePagesAreFull(Newer, window, range.before, PageSize(req), PageOf(r));
    forall s | s in r.requests ensures KeyOf(s) in window && Consistent(stores, req.queue, KeyOf(s)) {
      var i :| 0 <= i < |r.requests| && r.requests[i] == s;
      assert PageOf(r).keys[i] == KeyOf(s) && PageOf(r).keys[i] in PageOf(r).keys;
    }
  }

  /** The window of the first call is the one its request names, from the time it was made. */
  lemma FirstWindow(calls: seq<Call>)
    requires |calls| > 0 && Followed(calls)
    ensures WindowOf(calls[0]) == (Lower(calls[0].req), Upper(calls[0].req, calls[0].now))
  {
    hide Lists;
    assert FollowsAt(calls, 0);
    ListedIsResolved(calls[0]);
  }

  lemma ListedIsResolved(c: Call)
    requires Lists(c.stores, c.req, c.now, c.result)
    ensures ResolveRange(c.req, c.now).Ok?
  {
  }

  lemma NewestFirst(keys: seq<Key>)
    requires Sorted(Newer, keys)
    ensures forall i, j :: 0 <= i < j < |keys| ==>
      || keys[i].acceptedAtMs > keys[j].acceptedAtMs
      || (keys[i].acceptedAtMs == keys[j].acceptedAtMs && Bytewise.Less(keys[j].requestID, keys[i].requestID))
  {
  }

  /**
   * Following List's own tokens: over all pages the keys descend strictly by
   * acceptance time and then id, so nothing is shown twice; all of them lie
   * within the bounds of the first request, as of the time it was made; and
   * once no token is given, every mapping within them which was there at the
   * first call has been shown, whatever was accepted in between.
   */
  lemma FollowingTokensVisitsTheWindow(calls: seq<Call>, k: Key)
    requires |calls| > 0 && Followed(calls) && OnlyAdded(calls)
    ensures var (req, now, shown) := (calls[0].req, calls[0].now, Concat(Pages(calls)));
      && (forall i, j :: 0 <= i < j < |shown| ==>
            || shown[i].acceptedAtMs > shown[j].acceptedAtMs
            || (shown[i].acceptedAtMs == shown[j].acceptedAtMs && Bytewise.Less(shown[j].requestID, shown[i].requestID)))
      && (k in shown ==>
            && (req.atOrAfterMs.Some? ==> req.atOrAfterMs.value <= k.acceptedAtMs)
            && k.acceptedAtMs < (if req.beforeMs.Some? then req.beforeMs.value else now)
            && k in calls[|calls| - 1].stores.keys)
      && (k in calls[0].stores.keys && calls[|calls| - 1].result.nextPageToken.NoToken?
          && (if req.atOrAfterMs.Some? then req.atOrAfterMs.value else 0) <= k.acceptedAtMs
          && k.acceptedAtMs < (if req.beforeMs.Some? then req.beforeMs.value else now) ==>
            k in shown)
  {
    hide *;
    FollowedIsNotEmpty(calls);
    FollowedIsWalk(calls);
    FirstWindow(calls);
    var (lo, hi) := WindowOf(calls[0]);
    WindowsGrow(calls, lo, hi);
    WindowIsVisited(Windows(calls, lo, hi), Sizes(calls), Pages(calls), k);
    NewestFirst(Concat(Pages(calls)));
  }

  lemma WindowIsVisited(windows: seq<seq<Key>>, sizes: seq<nat>, pages: seq<Page<Key>>, k: Key)
    requires Growing(Newer, windows) && IsWalk(Newer, windows, sizes, pages)
    ensures Sorted(Newer, Concat(pages))
    ensures k in Concat(pages) ==> k in windows[|windows| - 1]
    ensures k in windows[0] && !pages[|pages| - 1].more ==> k in Concat(pages)
  {
    hide Newer, IsPage, IsOrder, Sorted, Concat;
    NewerIsOrder();
    WalkAscends(Newer, windows, sizes, pages);
    if k in windows[0] {
      WalkMissesNothing(Newer, windows, sizes, pages, k);
    }
  }

  lemma FollowedIsNotEmpty(calls: seq<Call>)
    requires Followed(calls)
    ensures |calls| > 0 && !calls[|calls| - 1].result.nextPageToken.Garbled?
    ensures Pages(calls)[|calls| - 1].more <==> calls[|calls| - 1].result.nextPageToken.Carries?
  {
    assert FollowsAt(calls, |calls| - 1);
  }

  lemma WindowsGrow(calls: seq<Call>, lo: int, hi: int)
    requires OnlyAdded(calls)
    ensures Growing(Newer, Windows(calls, lo, hi))
  {
    hide Newer, Sorted;
    var windows := Windows(calls, lo, hi);
    forall i | 0 <= i < |calls| ensures Sorted(Newer, windows[i]) {
      WindowedIsSorted(calls[i].stores.keys, lo, hi);
    }
    forall i, j, x | 0 <= i <= j < |calls| && x in windows[i] ensures x in windows[j] {
      assert x in calls[i].stores.keys;
    }
  }
}
