// Listing a queue's open issues: batches of index entries are inspected until
// the page is full, five hundred entries were looked at, or none is left
// (stovepipe/controller/list_open_issues.go).
module OpenIssues {
  import opened Wrappers
  import opened Keyset
  import opened Selection
  import Bytewise

  /** The key of an index entry. */
  datatype Key = Key(taskID: string, unitID: string)

  /** Ascending task, then ascending unit, bytewise. */
  predicate Before(a: Key, b: Key) {
    Bytewise.Less(a.taskID, b.taskID) || (a.taskID == b.taskID && Bytewise.Less(a.unitID, b.unitID))
  }

  lemma BeforeIsOrder()
    ensures IsOrder(Before)
  {
    forall a ensures !Before(a, a) {
      Bytewise.Irreflexive(a.taskID);
      Bytewise.Irreflexive(a.unitID);
    }
    forall a, b, c | Before(a, b) && Before(b, c) ensures Before(a, c) { BeforeTransitive(a, b, c); }
    forall a, b ensures Before(a, b) || a == b || Before(b, a) {
      Bytewise.Total(a.taskID, b.taskID);
      Bytewise.Total(a.unitID, b.unitID);
    }
  }

  lemma BeforeTransitive(a: Key, b: Key, c: Key)
    requires Before(a, b) && Before(b, c)
    ensures Before(a, c)
  {
    Bytewise.Irreflexive(a.taskID);
    if a.taskID == b.taskID == c.taskID {
      Bytewise.Transitive(a.unitID, b.unitID, c.unitID);
    } else if a.taskID != b.taskID && b.taskID != c.taskID {
      Bytewise.Transitive(a.taskID, b.taskID, c.taskID);
    }
  }

  // ---- The stores ----

  datatype Status = Open | Closed

  datatype IssueSummary = IssueSummary(key: Key, status: Status, firstSeenBuildID: string, contents: nat)

  datatype SummaryRead = Found(summary: IssueSummary) | Failed

  /** The index in key order, the first build each entry names, and the summaries. */
  datatype Stores = Stores(keys: seq<Key>, firstSeen: Key -> string, summaries: Key -> SummaryRead)

  datatype Failure = InvalidRequest | ReadFailed | Disagrees(key: Key)

  predicate Readable(stores: Stores, k: Key) {
    stores.summaries(k).Found? && stores.summaries(k).summary.key == k
  }

  /** The entry still stands for the issue that is open now. */
  predicate IsCurrent(stores: Stores, k: Key) {
    && Readable(stores, k)
    && stores.summaries(k).summary.status == Open
    && stores.summaries(k).summary.firstSeenBuildID == stores.firstSeen(k)
  }

  /** The summaries of the entries that are current, in order. */
  function Issues(stores: Stores, keys: seq<Key>): (r: seq<IssueSummary>)
    ensures |r| <= |keys|
  {
    if |keys| == 0 then []
    else
      var k := keys[|keys| - 1];
      Issues(stores, keys[..|keys| - 1]) + (if IsCurrent(stores, k) then [stores.summaries(k).summary] else [])
  }

  lemma IssuesSnoc(stores: Stores, keys: seq<Key>, i: nat)
    requires i < |keys|
    ensures Issues(stores, keys[..i + 1]) == Issues(stores, keys[..i]) +
      (if IsCurrent(stores, keys[i]) then [stores.summaries(keys[i]).summary] else [])
  {
    assert keys[..i + 1][..i] == keys[..i];
  }

  /** What an index entry stands for: the issue that is open and was first seen in the build the entry names. */
  function StandsFor(stores: Stores): (Key, IssueSummary) -> bool {
    (k, issue) =>
      && stores.summaries(k) == Found(issue) && issue.key == k
      && issue.status == Open && issue.firstSeenBuildID == stores.firstSeen(k)
  }

  /** The issues that entries still stand for and no others, once each, in the entries' order. */
  lemma {:induction false} IssuesAreSelected(stores: Stores, keys: seq<Key>) returns (at: seq<nat>)
    ensures Selects(keys, Issues(stores, keys), StandsFor(stores), at)
  {
    at := [];
    if |keys| > 0 {
      hide Selects;
      var front, last := keys[..|keys| - 1], keys[|keys| - 1];
      at := IssuesAreSelected(stores, front);
      assert keys == front + [last];
      if IsCurrent(stores, last) {
        SelectsOneMore(front, Issues(stores, front), StandsFor(stores), at, last, stores.summaries(last).summary);
        at := at + [|front|];
      } else {
        SelectsNoMore(front, Issues(stores, front), StandsFor(stores), at, last);
      }
    }
  }

  // ---- The scan ----

  const MAX_CANDIDATES := 500

  /** How many entries a scan one at a time would inspect. */
  function Stop(stores: Stores, keys: seq<Key>, room: nat, budget: nat): (n: nat)
    ensures n <= |keys| && n <= budget
  {
    if |keys| == 0 || room == 0 || budget == 0 then 0
    else 1 + Stop(stores, keys[1..], if IsCurrent(stores, keys[0]) then room - 1 else room, budget - 1)
  }

  datatype Scan = Scan(issues: seq<IssueSummary>, last: Option<Key>, hasMore: bool)

  function Min(a: nat, b: nat): nat { if a < b then a else b }

  /** What the i entries inspected so far leave to do. */
  predicate Inspected(stores: Stores, beyond: seq<Key>, pageSize: nat, i: nat, issues: seq<IssueSummary>) {
    && i <= |beyond| && i <= MAX_CANDIDATES
    && issues == Issues(stores, beyond[..i]) && |issues| <= pageSize
    && (forall k :: k in beyond[..i] ==> Readable(stores, k))
    && Stop(stores, beyond, pageSize, MAX_CANDIDATES) ==
         i + Stop(stores, beyond[i..], pageSize - |issues|, MAX_CANDIDATES - i)
  }

  lemma InspectOne(stores: Stores, beyond: seq<Key>, pageSize: nat, i: nat, issues: seq<IssueSummary>)
    requires Inspected(stores, beyond, pageSize, i, issues) && i < |beyond| && |issues| < pageSize && i < MAX_CANDIDATES
    requires Readable(stores, beyond[i])
    ensures Inspected(stores, beyond, pageSize, i + 1,
      if IsCurrent(stores, beyond[i]) then issues + [stores.summaries(beyond[i]).summary] else issues)
  {
    IssuesSnoc(stores, beyond, i);
    assert beyond[i..][1..] == beyond[i + 1..];
    assert beyond[..i + 1] == beyond[..i] + [beyond[i]];
  }

  /** The entry the scan fails on is one that a scan one at a time would come to as well. */
  lemma FailsInReach(stores: Stores, beyond: seq<Key>, pageSize: nat, i: nat, issues: seq<IssueSummary>)
    requires Inspected(stores, beyond, pageSize, i, issues) && i < |beyond| && |issues| < pageSize && i < MAX_CANDIDATES
    ensures i < Stop(stores, beyond, pageSize, MAX_CANDIDATES)
  {
  }

  /**
   * scanOpenIssuesPage. However the batches fall, it inspects exactly the
   * entries a scan one at a time would, and returns the current ones of them;
   * hasMore says whether entries are left beyond the last one inspected.
   */
  method ScanOpenIssuesPage(stores: Stores, after: Option<Key>, pageSize: nat) returns (r: Result<Scan, Failure>)
    requires Sorted(Before, stores.keys) && pageSize > 0
    ensures var beyond := Beyond(Before, stores.keys, after);
      var n := Stop(stores, beyond, pageSize, MAX_CANDIDATES);
      && (r.Ok? <==> forall i :: 0 <= i < n ==> Readable(stores, beyond[i]))
      && (r.Ok? ==> r.value == Scan(Issues(stores, beyond[..n]), if n > 0 then Some(beyond[n - 1]) else None, n < |beyond|))
  {
    BeforeIsOrder();
    hide IsOrder, Sorted, Before, Beyond, Issues, Inspected, IsCurrent;
    ghost var beyond := Beyond(Before, stores.keys, after);
    var issues: seq<IssueSummary> := [];
    var last: Option<Key> := None;
    var cursor := after;
    var inspected: nat := 0;
    NothingInspected(stores, beyond, pageSize);
    while true
      invariant |issues| < pageSize && inspected < MAX_CANDIDATES && inspected <= |beyond|
      invariant Inspected(stores, beyond, pageSize, inspected, issues)
      invariant last == if inspected > 0 then Some(beyond[inspected - 1]) else None
      invariant Beyond(Before, stores.keys, cursor) == beyond[inspected..]
      decreases MAX_CANDIDATES - inspected
    {
      var want := Min(pageSize - |issues|, MAX_CANDIDATES - inspected);
      var batch := Listing(Before, stores.keys, cursor, want + 1);
      ghost var (start, room) := (inspected, |issues|);
      for j := 0 to Min(|batch|, want)
        invariant inspected == start + j && |issues| <= room + j && inspected <= |beyond|
        invariant Inspected(stores, beyond, pageSize, inspected, issues)
        invariant last == if inspected > 0 then Some(beyond[inspected - 1]) else None
      {
        assert batch[j] == beyond[inspected];
        FailsInReach(stores, beyond, pageSize, inspected, issues);
        var read := stores.summaries(batch[j]);
        if read.Failed? {
          return Err(ReadFailed);
        }
        if read.summary.key != batch[j] {
          return Err(Disagrees(batch[j]));
        }
        InspectOne(stores, beyond, pageSize, inspected, issues);
        CurrentMeans(stores, batch[j]);
        if read.summary.status == Open && read.summary.firstSeenBuildID == stores.firstSeen(batch[j]) {
          issues := issues + [read.summary];
        }
        last := Some(batch[j]);
        inspected := inspected + 1;
      }
      if |batch| <= want {
        ScanEnds(stores, beyond, pageSize, inspected, issues);
        return Ok(Scan(issues, last, false));
      }
      if |issues| == pageSize || inspected == MAX_CANDIDATES {
        ScanEnds(stores, beyond, pageSize, inspected, issues);
        return Ok(Scan(issues, last, true));
      }
      cursor := last;
      BeyondContinues(Before, stores.keys, after, inspected - 1);
    }
  }

  lemma NothingInspected(stores: Stores, beyond: seq<Key>, pageSize: nat)
    ensures Inspected(stores, beyond, pageSize, 0, []) && beyond[0..] == beyond
  {
    assert beyond[0..] == beyond && beyond[..0] == [];
  }

  lemma CurrentMeans(stores: Stores, k: Key)
    requires Readable(stores, k)
    ensures IsCurrent(stores, k) <==>
      stores.summaries(k).summary.status == Open && stores.summaries(k).summary.firstSeenBuildID == stores.firstSeen(k)
  {
  }

  /** Out of entries, room or budget, the scan is where one at a time would stop. */
  lemma ScanEnds(stores: Stores, beyond: seq<Key>, pageSize: nat, i: nat, issues: seq<IssueSummary>)
    requires Inspected(stores, beyond, pageSize, i, issues)
    requires i == |beyond| || |issues| == pageSize || i == MAX_CANDIDATES
    ensures i == Stop(stores, beyond, pageSize, MAX_CANDIDATES) && issues == Issues(stores, beyond[..i])
    ensures forall j :: 0 <= j < i ==> Readable(stores, beyond[j])
  {
    forall j | 0 <= j < i ensures Readable(stores, beyond[j]) { assert beyond[j] in beyond[..i]; }
  }

  /** A page inspects at most 500 entries, shows at most pageSize issues, and stops early only when it is full. */
  lemma {:induction false} StopIsTight(stores: Stores, keys: seq<Key>, room: nat, budget: nat)
    ensures var n := Stop(stores, keys, room, budget);
      && |Issues(stores, keys[..n])| <= room
      && (n < |keys| ==> n == budget || |Issues(stores, keys[..n])| == room)
      && (n > 0 ==> |Issues(stores, keys[..n - 1])| < room)
  {
    hide IsCurrent, Issues;
    var n := Stop(stores, keys, room, budget);
    NoIssues(stores, keys);
    if n > 0 {
      var tail, left := keys[1..], if IsCurrent(stores, keys[0]) then room - 1 else room;
      StopIsTight(stores, tail, left, budget - 1);
      IssuesCons(stores, keys, n);
      IssuesCons(stores, keys, n - 1);
    }
  }

  lemma NoIssues(stores: Stores, keys: seq<Key>)
    ensures Issues(stores, keys[..0]) == []
  {
  }

  lemma {:induction false} IssuesCons(stores: Stores, keys: seq<Key>, n: nat)
    requires n <= |keys| && |keys| > 0
    ensures n > 0 ==> (
      |Issues(stores, keys[..n])| == (if IsCurrent(stores, keys[0]) then 1 else 0) + |Issues(stores, keys[1..][..n - 1])|)
  {
    hide IsCurrent;
    if n > 1 {
      IssuesCons(stores, keys, n - 1);
      IssuesSnoc(stores, keys, n - 1);
      IssuesSnoc(stores, keys[1..], n - 2);
    } else if n == 1 {
      IssuesSnoc(stores, keys, 0);
    }
  }

  // ---- One call ----

  datatype Token = Token(version: int, queue: string, last: Key)

  datatype PageToken = NoToken | Garbled | Carries(token: Token)

  datatype Request = Request(queue: string, pageSize: int, pageToken: PageToken)

  datatype ListResult = ListResult(issues: seq<IssueSummary>, nextPageToken: PageToken)

  const TOKEN_VERSION := 1
  const DEFAULT_PAGE_SIZE := 50
  const MAX_PAGE_SIZE := 200
  const MAX_TASK_ID_BYTES := 255
  const MAX_UNIT_ID_BYTES := 1024

  predicate ValidKey(k: Key) {
    k.taskID != "" && |k.taskID| <= MAX_TASK_ID_BYTES && |k.unitID| <= MAX_UNIT_ID_BYTES
  }

  predicate ValidToken(t: Token) { t.version == TOKEN_VERSION && t.queue != "" && ValidKey(t.last) }

  function PageSize(req: Request): int { if req.pageSize == 0 then DEFAULT_PAGE_SIZE else req.pageSize }

  /** The cursor and the page size a request asks for. */
  function ResolveRange(req: Request): (r: Result<(Option<Key>, nat), Failure>)
    ensures r.Ok? ==> 1 <= r.value.1 <= MAX_PAGE_SIZE && r.value.1 == if req.pageSize == 0 then 50 else req.pageSize
    ensures req.pageToken.NoToken? ==> (r.Ok? <==> 0 <= req.pageSize <= 200) && (r.Ok? ==> r.value.0.None?)
    ensures req.pageToken.Garbled? ==> r.Err?
    // A token is taken exactly if it is in order and was given for the same queue.
    ensures req.pageToken.Carries? ==> (r.Ok? <==>
      var t := req.pageToken.token;
      && 0 <= req.pageSize <= 200 && t.version == 1 && t.queue == req.queue && req.queue != ""
      && 0 < |t.last.taskID| <= 255 && |t.last.unitID| <= 1024)
    ensures req.pageToken.Carries? && r.Ok? ==> r.value.0 == Some(req.pageToken.token.last)
  {
    if req.pageSize < 0 || req.pageSize > MAX_PAGE_SIZE then Err(InvalidRequest)
    else
      match req.pageToken
      case NoToken => Ok((None, PageSize(req)))
      case Garbled => Err(InvalidRequest)
      case Carries(t) =>
        if !ValidToken(t) || t.queue != req.queue then Err(InvalidRequest) else Ok((Some(t.last), PageSize(req)))
  }

  /** The entries a call inspects, as a page of the index. */
  function InspectedPage(stores: Stores, req: Request): Page<Key>
    requires ResolveRange(req).Ok?
  {
    var (after, size) := ResolveRange(req).value;
    var beyond := Beyond(Before, stores.keys, after);
    var n := Stop(stores, beyond, size, MAX_CANDIDATES);
    Page(beyond[..n], n < |beyond|)
  }

  /** What a call that succeeded returns. */
  predicate Lists(stores: Stores, req: Request, r: ListResult) {
    && req.queue != "" && ResolveRange(req).Ok?
    && var p := InspectedPage(stores, req);
       && r.issues == Issues(stores, p.keys)
       && r.nextPageToken ==
            (if p.more && |p.keys| > 0 then Carries(Token(TOKEN_VERSION, req.queue, p.keys[|p.keys| - 1])) else NoToken)
  }

  method ListOpenIssues(configured: set<string>, stores: Stores, req: Request) returns (r: Result<ListResult, Failure>)
    requires Sorted(Before, stores.keys)
    ensures r.Ok? ==> Lists(stores, req, r.value)
    ensures r.Ok? <==> (
      && req.queue != "" && req.queue in configured && ResolveRange(req).Ok?
      && forall k :: k in InspectedPage(stores, req).keys ==>
           stores.summaries(k).Found? && stores.summaries(k).summary.key == k)
  {
    if req.queue == "" || req.queue !in configured {
      return Err(InvalidRequest);
    }
    var bounds := ResolveRange(req);
    if bounds.Err? {
      return Err(bounds.error);
    }
    var (after, size) := bounds.value;
    var scan := ScanOpenIssuesPage(stores, after, size);
    hide Sorted, Beyond, Before, Issues, Stop;
    ghost var keys := InspectedPage(stores, req).keys;
    if scan.Err? {
      return Err(scan.error);
    }
    assert forall k :: k in keys ==> exists i :: 0 <= i < |keys| && keys[i] == k;
    var next := NoToken;
    if scan.value.hasMore {
      MoreMeansInspected(stores, Beyond(Before, stores.keys, after), size);
      next := Carries(Token(TOKEN_VERSION, req.queue, scan.value.last.value));
    }
    return Ok(ListResult(scan.value.issues, next));
  }

  lemma MoreMeansInspected(stores: Stores, keys: seq<Key>, size: nat)
    ensures size > 0 && |keys| > 0 ==> Stop(stores, keys, size, MAX_CANDIDATES) > 0
  {
  }

  /** A call shows at most as many issues as were asked for, and inspects at most 500 entries for them. */
  lemma PageIsAsAsked(stores: Stores, req: Request, r: ListResult)
    requires Lists(stores, req, r)
    ensures |r.issues| <= if req.pageSize > 0 then req.pageSize else 50
    ensures |InspectedPage(stores, req).keys| <= 500
    ensures r.nextPageToken.Carries? ==>
      |r.issues| == (if req.pageSize > 0 then req.pageSize else 50) || |InspectedPage(stores, req).keys| == 500
  {
    var (after, size) := ResolveRange(req).value;
    StopIsTight(stores, Beyond(Before, stores.keys, after), size, MAX_CANDIDATES);
  }

  // ---- Following the tokens ----

  /** A token sent back on its queue is accepted exactly when the key it carries is within the identifier limits. */
  lemma EmittedTokenAcceptedExactly(stores: Stores, req: Request, r: ListResult, next: Request)
    requires Lists(stores, req, r) && r.nextPageToken.Carries?
    requires next.pageToken == r.nextPageToken && next.queue == req.queue && 0 <= next.pageSize <= MAX_PAGE_SIZE
    ensures ResolveRange(next).Ok? <==> ValidKey(r.nextPageToken.token.last)
    ensures ResolveRange(next).Ok? ==> ResolveRange(next).value == (LastOf(InspectedPage(stores, req)), PageSize(next))
  {
  }

  /** Calls on one index, the first without a token and each other one with the token before it. */
  ghost predicate Followed(stores: Stores, reqs: seq<Request>, results: seq<ListResult>)
    decreases |reqs|
  {
    && |reqs| == |results| > 0
    && var n := |reqs| - 1;
       && Lists(stores, reqs[n], results[n])
       && (if n == 0 then reqs[0].pageToken.NoToken?
           else
             && Followed(stores, reqs[..n], results[..n])
             && results[n - 1].nextPageToken.Carries?
             && reqs[n].pageToken == results[n - 1].nextPageToken)
  }

  function AllIssues(results: seq<ListResult>): seq<IssueSummary> {
    if |results| == 0 then [] else AllIssues(results[..|results| - 1]) + results[|results| - 1].issues
  }

  lemma {:induction false} IssuesConcat(stores: Stores, a: seq<Key>, b: seq<Key>)
    ensures Issues(stores, a + b) == Issues(stores, a) + Issues(stores, b)
    decreases |b|
  {
    if |b| == 0 {
      assert a + b == a;
    } else {
      var front := b[..|b| - 1];
      IssuesConcat(stores, a, front);
      assert (a + b)[..|a + b| - 1] == a + front;
    }
  }

  /** The calls have inspected the first m keys of the index, and their token says so. */
  ghost predicate Covered(stores: Stores, results: seq<ListResult>, m: nat)
    requires |results| > 0
  {
    var next := results[|results| - 1].nextPageToken;
    && m <= |stores.keys|
    && AllIssues(results) == Issues(stores, stores.keys[..m])
    && (if next.Carries? then 0 < m < |stores.keys| && next.token.last == stores.keys[m - 1] else m == |stores.keys|)
  }

  /** One more call inspects the keys from m on. */
  lemma CoverMore(stores: Stores, req: Request, r: ListResult, front: seq<ListResult>, m: nat) returns (m': nat)
    requires Sorted(Before, stores.keys) && Lists(stores, req, r) && m <= |stores.keys|
    requires Beyond(Before, stores.keys, ResolveRange(req).value.0) == stores.keys[m..]
    requires AllIssues(front) == Issues(stores, stores.keys[..m])
    ensures Covered(stores, front + [r], m')
    ensures r.nextPageToken.Carries? ==> m < m'
  {
    hide Sorted, Beyond, Before, Issues, Stop, AllIssues;
    var keys, size := stores.keys, ResolveRange(req).value.1;
    var n := Stop(stores, keys[m..], size, MAX_CANDIDATES);
    MoreMeansInspected(stores, keys[m..], size);
    m' := m + n;
    IssuesConcat(stores, keys[..m], keys[m..][..n]);
    assert keys[..m] + keys[m..][..n] == keys[..m'];
    AllIssuesSnoc(front, r);
  }

  lemma AllIssuesSnoc(front: seq<ListResult>, r: ListResult)
    ensures AllIssues(front + [r]) == AllIssues(front) + r.issues
  {
    assert (front + [r])[..|front|] == front;
  }

  /** Each further page starts where the last one ended and moves on, even when it shows nothing. */
  lemma {:induction false} FollowedCovers(stores: Stores, reqs: seq<Request>, results: seq<ListResult>) returns (m: nat)
    requires Sorted(Before, stores.keys) && Followed(stores, reqs, results)
    ensures Covered(stores, results, m)
    ensures results[|results| - 1].nextPageToken.Carries? ==> m >= |results|
    decreases |reqs|
  {
    hide Lists, Sorted, Before, Beyond, Issues;
    var n := |reqs| - 1;
    var front := results[..n];
    assert results == front + [results[n]];
    if n == 0 {
      FirstCursor(stores, reqs[0], results[0]);
      m := CoverMore(stores, reqs[0], results[0], front, 0);
    } else {
      var before := FollowedCovers(stores, reqs[..n], front);
      assert front[n - 1] == results[n - 1];
      NextCursor(stores, reqs[n], results[n], before);
      m := CoverMore(stores, reqs[n], results[n], front, before);
    }
  }

  lemma FirstCursor(stores: Stores, req: Request, r: ListResult)
    requires Lists(stores, req, r) && req.pageToken.NoToken?
    ensures Beyond(Before, stores.keys, ResolveRange(req).value.0) == stores.keys[0..]
    ensures AllIssues([]) == Issues(stores, stores.keys[..0])
  {
    BeyondNothing(Before, stores.keys);
  }

  lemma NextCursor(stores: Stores, req: Request, r: ListResult, m: nat)
    requires Sorted(Before, stores.keys) && Lists(stores, req, r) && 0 < m <= |stores.keys|
    requires req.pageToken.Carries? && req.pageToken.token.last == stores.keys[m - 1]
    ensures Beyond(Before, stores.keys, ResolveRange(req).value.0) == stores.keys[m..]
  {
    hide Sorted, Before, Issues;
    BeforeIsOrder();
    SuffixBeyond(Before, stores.keys, m - 1);
  }

  /**
   * Once no token is given, the pages together are the whole index filtered by
   * what is current, in order; and there were no more pages than index entries.
   */
  lemma PagesAreTheFilteredList(stores: Stores, reqs: seq<Request>, results: seq<ListResult>)
    requires Sorted(Before, stores.keys) && Followed(stores, reqs, results)
    ensures results[|results| - 1].nextPageToken.NoToken? ==> AllIssues(results) == Issues(stores, stores.keys)
    ensures results[|results| - 1].nextPageToken.NoToken? ==> exists at: seq<nat> ::
      Selects(stores.keys, AllIssues(results), StandsFor(stores), at)
    ensures results[|results| - 1].nextPageToken.Carries? ==> |results| < |stores.keys|
  {
    hide Sorted, Before, Issues, Lists, Selects;
    var at := IssuesAreSelected(stores, stores.keys);
    var m := FollowedCovers(stores, reqs, results);
    assert stores.keys[..|stores.keys|] == stores.keys;
  }
}
