// The project results of one validation request, page by page: either of the
// projects asked for, or of all projects from the most broken one down
// (stovepipe/controller/project_status.go, stovepipe/entity/project_fact_by_degree.go).
module ProjectStatus {
  import opened Wrappers
  import opened Keyset
  import opened Selection
  import Bytewise

  // ---- Order ----

  /** An entry of the degree index of one commit. */
  datatype Entry = Entry(degree: real, project: string)

  /** Descending degree, then ascending project, bytewise. */
  predicate Worse(a: Entry, b: Entry) {
    a.degree > b.degree || (a.degree == b.degree && Bytewise.Less(a.project, b.project))
  }

  lemma WorseIsOrder()
    ensures IsOrder(Worse)
  {
    forall a ensures !Worse(a, a) { Bytewise.Irreflexive(a.project); }
    forall a, b, c | Worse(a, b) && Worse(b, c) ensures Worse(a, c) {
      if a.degree == b.degree == c.degree {
        Bytewise.Transitive(a.project, b.project, c.project);
      }
    }
    forall a, b ensures Worse(a, b) || a == b || Worse(b, a) { Bytewise.Total(a.project, b.project); }
  }

  // ---- Requests and stores ----

  datatype Summary = Summary(queue: string, requestID: string, uri: string)

  datatype Fact = Fact(uri: string, project: string, requestID: string, degree: real, contents: nat)

  datatype FactRead = Found(fact: Fact) | NotFound | ReadFailed

  /** The facts of one commit by project, and their index in order. */
  datatype Stores = Stores(facts: string -> FactRead, index: seq<Entry>)

  datatype Token = Token(queue: string, requestID: string, projects: seq<string>, nextIndex: int, afterProject: string)

  datatype PageToken = NoToken | Garbled | Carries(token: Token)

  datatype Request = Request(projects: seq<string>, pageSize: int, pageToken: PageToken)

  datatype Failure = InvalidRequest | Inconsistent | StorageFailed

  const DEFAULT_PAGE_SIZE := 50
  const MAX_PAGE_SIZE := 200
  const MAX_IDENTIFIER_BYTES := 255

  predicate Identifier(s: string) { 0 < |s| <= MAX_IDENTIFIER_BYTES }

  predicate Distinct(ps: seq<string>) { forall i, j :: 0 <= i < j < |ps| ==> ps[i] != ps[j] }

  predicate ValidRequest(req: Request) {
    (forall p :: p in req.projects ==> Identifier(p)) && Distinct(req.projects) && 0 <= req.pageSize <= MAX_PAGE_SIZE
  }

  /** The part of validateProjectStatusRequest about projects and page size. */
  method ValidateRequest(req: Request) returns (r: Option<Failure>)
    ensures r.None? <==> ValidRequest(req)
  {
    var seen: set<string> := {};
    for i := 0 to |req.projects|
      invariant forall j :: 0 <= j < i ==> Identifier(req.projects[j])
      invariant Distinct(req.projects[..i])
      invariant seen == set p | p in req.projects[..i]
    {
      var project := req.projects[i];
      if !Identifier(project) || project in seen {
        return Some(InvalidRequest);
      }
      assert req.projects[..i + 1] == req.projects[..i] + [project];
      seen := seen + {project};
    }
    assert req.projects[..|req.projects|] == req.projects;
    return if req.pageSize < 0 || req.pageSize > MAX_PAGE_SIZE then Some(InvalidRequest) else None;
  }

  function PageSize(req: Request): int { if req.pageSize == 0 then DEFAULT_PAGE_SIZE else req.pageSize }

  /** parseProjectStatusPageToken: where the page starts. */
  function ParseToken(req: Request, summary: Summary): (r: Result<Token, Failure>)
    ensures r.Err? ==> r.error == InvalidRequest
    ensures r.Ok? ==> r.value.projects == req.projects && (req.projects != [] ==> 0 <= r.value.nextIndex <= |req.projects|)
    // Without a token a page starts at the beginning.
    ensures req.pageToken.NoToken? ==> r == Ok(Token(summary.queue, summary.requestID, req.projects, 0, ""))
    ensures req.pageToken.Garbled? ==> r.Err?
    // A token is taken exactly for the same request and projects, at a place inside them.
    ensures req.pageToken.Carries? ==> (r.Ok? <==>
      var t := req.pageToken.token;
      && t.queue == summary.queue && t.requestID == summary.requestID && t.projects == req.projects
      && (req.projects == [] ==> t.nextIndex == 0 && 0 < |t.afterProject| <= 255)
      && (req.projects != [] ==> t.afterProject == "" && 0 < t.nextIndex < |req.projects|))
    ensures req.pageToken.Carries? && r.Ok? ==> r.value == req.pageToken.token
  {
    match req.pageToken
    case NoToken => Ok(Token(summary.queue, summary.requestID, req.projects, 0, ""))
    case Garbled => Err(InvalidRequest)
    case Carries(t) =>
      if t.queue != summary.queue || t.requestID != summary.requestID || t.projects != req.projects then Err(InvalidRequest)
      else if |req.projects| == 0 then
        if t.nextIndex != 0 || !Identifier(t.afterProject) then Err(InvalidRequest) else Ok(t)
      else if t.afterProject != "" || t.nextIndex <= 0 || t.nextIndex >= |req.projects| then Err(InvalidRequest)
      else Ok(t)
  }

  predicate ValidFact(f: Fact, summary: Summary, project: string) {
    f.uri == summary.uri && f.project == project && f.requestID == summary.requestID && 0.0 <= f.degree <= 1.0
  }

  datatype StatusPage = StatusPage(facts: seq<Fact>, next: PageToken)

  // ---- Projects that were asked for ----

  /** The facts there are, in the order asked for. */
  function Present(stores: Stores, projects: seq<string>): seq<Fact> {
    if |projects| == 0 then []
    else
      var read := stores.facts(projects[|projects| - 1]);
      Present(stores, projects[..|projects| - 1]) + (if read.Found? then [read.fact] else [])
  }

  lemma PresentSnoc(stores: Stores, projects: seq<string>, i: nat)
    requires i < |projects|
    ensures projects[..i + 1] == projects[..i] + [projects[i]]
    ensures Present(stores, projects[..i + 1]) == Present(stores, projects[..i]) +
      (if stores.facts(projects[i]).Found? then [stores.facts(projects[i]).fact] else [])
  {
    assert projects[..i + 1][..i] == projects[..i];
  }

  /** What a project contributes to an answer: the fact found for it, if one is. */
  function FactOf(stores: Stores): (string, Fact) -> bool {
    (project, fact) => stores.facts(project) == Found(fact)
  }

  /** The facts found and no others, once for each project, in the projects' order. */
  lemma {:induction false} PresentIsSelected(stores: Stores, projects: seq<string>) returns (at: seq<nat>)
    ensures Selects(projects, Present(stores, projects), FactOf(stores), at)
  {
    at := [];
    if |projects| > 0 {
      hide Selects;
      var front, last := projects[..|projects| - 1], projects[|projects| - 1];
      at := PresentIsSelected(stores, front);
      assert projects == front + [last];
      var read := stores.facts(last);
      if read.Found? {
        SelectsOneMore(front, Present(stores, front), FactOf(stores), at, last, read.fact);
        at := at + [|front|];
      } else {
        SelectsNoMore(front, Present(stores, front), FactOf(stores), at, last);
      }
    }
  }

  predicate Answerable(stores: Stores, summary: Summary, project: string) {
    var read := stores.facts(project);
    read.NotFound? || (read.Found? && ValidFact(read.fact, summary, project))
  }

  function Min(a: int, b: int): int { if a < b then a else b }

  /** What a page of requested projects holds, and where the next one starts. */
  predicate IsRequestedPage(stores: Stores, summary: Summary, token: Token, size: nat, p: StatusPage) {
    && 0 <= token.nextIndex <= |token.projects|
    && var end := Min(token.nextIndex + size, |token.projects|);
       && p.facts == Present(stores, token.projects[token.nextIndex..end])
       && (forall project :: project in token.projects[token.nextIndex..end] ==> Answerable(stores, summary, project))
       && p.next == (if end < |token.projects| then Carries(token.(nextIndex := end)) else NoToken)
  }

  method GetRequestedPage(stores: Stores, summary: Summary, token: Token, size: nat) returns (r: Result<StatusPage, Failure>)
    requires 0 <= token.nextIndex <= |token.projects|
    ensures r.Ok? ==> IsRequestedPage(stores, summary, token, size, r.value)
    ensures r.Ok? <==> forall i :: token.nextIndex <= i < token.nextIndex + size && i < |token.projects| ==>
      Answerable(stores, summary, token.projects[i])
    ensures r.Err? ==> r.error == StorageFailed || r.error == Inconsistent
  {
    hide Collected, Answerable, ValidFact, IsRequestedPage;
    var end := Min(token.nextIndex + size, |token.projects|);
    var asked := token.projects[token.nextIndex..end];
    var facts: seq<Fact> := [];
    NothingCollected(stores, summary, asked);
    for i := 0 to |asked|
      invariant Collected(stores, summary, asked, i, facts)
    {
      CollectOne(stores, summary, asked, i, facts);
      RefuseOne(stores, summary, asked[i]);
      assert asked[i] == token.projects[token.nextIndex + i];
      var read := stores.facts(asked[i]);
      if read.NotFound? {
        continue;
      }
      if read.ReadFailed? {
        return Err(StorageFailed);
      }
      if !ValidFact(read.fact, summary, asked[i]) {
        return Err(Inconsistent);
      }
      facts := facts + [read.fact];
    }
    AllCollected(stores, summary, token, size, facts);
    return Ok(StatusPage(facts, if end < |token.projects| then Carries(token.(nextIndex := end)) else NoToken));
  }

  /** The facts of the first i of the projects asked for, all of which can be answered for. */
  predicate Collected(stores: Stores, summary: Summary, asked: seq<string>, i: nat, facts: seq<Fact>) {
    && i <= |asked| && facts == Present(stores, asked[..i])
    && forall j :: 0 <= j < i ==> Answerable(stores, summary, asked[j])
  }

  lemma NothingCollected(stores: Stores, summary: Summary, asked: seq<string>)
    ensures Collected(stores, summary, asked, 0, [])
  {
  }

  lemma CollectOne(stores: Stores, summary: Summary, asked: seq<string>, i: nat, facts: seq<Fact>)
    requires Collected(stores, summary, asked, i, facts) && i < |asked|
    ensures var read := stores.facts(asked[i]);
      && (read.NotFound? ==> Collected(stores, summary, asked, i + 1, facts))
      && (read.Found? && ValidFact(read.fact, summary, asked[i]) ==> Collected(stores, summary, asked, i + 1, facts + [read.fact]))
  {
    hide Present, ValidFact;
    PresentSnoc(stores, asked, i);
  }

  lemma RefuseOne(stores: Stores, summary: Summary, project: string)
    ensures var read := stores.facts(project);
      Answerable(stores, summary, project) ==> read.NotFound? || (read.Found? && ValidFact(read.fact, summary, project))
  {
  }

  lemma AllCollected(stores: Stores, summary: Summary, token: Token, size: nat, facts: seq<Fact>)
    requires 0 <= token.nextIndex <= |token.projects|
    requires var end := Min(token.nextIndex + size, |token.projects|);
      Collected(stores, summary, token.projects[token.nextIndex..end], end - token.nextIndex, facts)
    ensures var end := Min(token.nextIndex + size, |token.projects|);
      IsRequestedPage(stores, summary, token, size,
        StatusPage(facts, if end < |token.projects| then Carries(token.(nextIndex := end)) else NoToken))
    ensures forall i :: token.nextIndex <= i < token.nextIndex + size && i < |token.projects| ==>
      Answerable(stores, summary, token.projects[i])
  {
    hide Present, Answerable;
    var end := Min(token.nextIndex + size, |token.projects|);
    var asked := token.projects[token.nextIndex..end];
    assert asked[..|asked|] == asked;
    forall i | token.nextIndex <= i < end ensures Answerable(stores, summary, token.projects[i]) {
      assert asked[i - token.nextIndex] == token.projects[i];
    }
  }

  // ---- All projects, by degree ----

  /** The fact an index entry stands for agrees with it. */
  predicate Backed(stores: Stores, summary: Summary, e: Entry) {
    var read := stores.facts(e.project);
    && read.Found? && ValidFact(read.fact, summary, e.project)
    && summary.uri != "" && e.project != "" && read.fact.degree == e.degree
  }

  /** Where the listing goes on: rebuilt from the fact of the project in the token. */
  function Cursor(stores: Stores, summary: Summary, afterProject: string): (r: Result<Option<Entry>, Failure>)
    ensures r == Ok(None) <==> afterProject == ""
    ensures r.Ok? && r.value.Some? ==>
      r.value.value.project == afterProject &&
      exists f :: stores.facts(afterProject) == Found(f) && f.degree == r.value.value.degree
    ensures r == Err(StorageFailed) <==> afterProject != "" && !stores.facts(afterProject).Found?
    ensures r.Err? ==> r.error == StorageFailed || r.error == Inconsistent
  {
    if afterProject == "" then Ok(None)
    else
      match stores.facts(afterProject)
      case NotFound => Err(StorageFailed)
      case ReadFailed => Err(StorageFailed)
      case Found(f) =>
        if !ValidFact(f, summary, afterProject) || summary.uri == "" then Err(Inconsistent)
        else Ok(Some(Entry(f.degree, afterProject)))
  }

  function EntriesOf(facts: seq<Fact>): (es: seq<Entry>)
    ensures |es| == |facts| && forall i :: 0 <= i < |facts| ==> es[i] == Entry(facts[i].degree, facts[i].project)
  {
    if |facts| == 0 then []
    else EntriesOf(facts[..|facts| - 1]) + [Entry(facts[|facts| - 1].degree, facts[|facts| - 1].project)]
  }

  function PageOf(p: StatusPage): Page<Entry> { Page(EntriesOf(p.facts), p.next.Carries?) }

  predicate IsListedPage(stores: Stores, summary: Summary, token: Token, size: nat, p: StatusPage) {
    var cursor := Cursor(stores, summary, token.afterProject);
    && cursor.Ok?
    && IsPage(Worse, stores.index, cursor.value, size, PageOf(p))
    && (forall f :: f in p.facts ==> stores.facts(f.project) == Found(f) && Backed(stores, summary, Entry(f.degree, f.project)))
    && p.next == (if p.next.Carries? && |p.facts| > 0 then Carries(token.(afterProject := p.facts[|p.facts| - 1].project)) else NoToken)
  }

  function Visible(stores: Stores, after: Option<Entry>, size: nat): seq<Entry> {
    var batch := Listing(Worse, stores.index, after, size + 1);
    batch[..if |batch| < size then |batch| else size]
  }

  method ListPage(stores: Stores, summary: Summary, token: Token, size: nat) returns (r: Result<StatusPage, Failure>)
    requires size > 0
    ensures r.Ok? ==> IsListedPage(stores, summary, token, size, r.value)
    ensures r.Ok? <==> (
      var cursor := Cursor(stores, summary, token.afterProject);
      cursor.Ok? && forall e :: e in Visible(stores, cursor.value, size) ==> Backed(stores, summary, e))
    ensures r.Err? ==> r.error == StorageFailed || r.error == Inconsistent
  {
    hide Worse, Listing;
    var cursor := Cursor(stores, summary, token.afterProject);
    if cursor.Err? {
      return Err(cursor.error);
    }
    var entries := Listing(Worse, stores.index, cursor.value, size + 1);
    var next := NoToken;
    if |entries| > size {
      entries := entries[..size];
      next := Carries(token.(afterProject := entries[size - 1].project));
    }
    assert entries == Visible(stores, cursor.value, size);
    var facts: seq<Fact> := [];
    for i := 0 to |entries|
      invariant |facts| == i
      invariant forall j :: 0 <= j < i ==> stores.facts(facts[j].project) == Found(facts[j])
      invariant forall j :: 0 <= j < i ==> Entry(facts[j].degree, facts[j].project) == entries[j] && Backed(stores, summary, entries[j])
    {
      var read := stores.facts(entries[i].project);
      assert entries[i] in entries && (Backed(stores, summary, entries[i]) ==> read.Found?);
      if !read.Found? {
        return Err(StorageFailed);
      }
      if !ValidFact(read.fact, summary, entries[i].project) {
        return Err(Inconsistent);
      }
      if summary.uri == "" || entries[i].project == "" || read.fact.degree != entries[i].degree {
        return Err(Inconsistent);
      }
      facts := facts + [read.fact];
    }
    assert EntriesOf(facts) == entries;
    return Ok(StatusPage(facts, next));
  }

  // ---- One call, and following its tokens ----

  /** What a call that succeeded returns, in either mode. */
  predicate Loads(stores: Stores, summary: Summary, req: Request, p: StatusPage) {
    && ValidRequest(req) && ParseToken(req, summary).Ok?
    && var token := ParseToken(req, summary).value;
       if |req.projects| == 0 then IsListedPage(stores, summary, token, PageSize(req), p)
       else IsRequestedPage(stores, summary, token, PageSize(req), p)
  }

  lemma AnswerableMeans(stores: Stores, summary: Summary, projects: seq<string>)
    ensures forall i :: 0 <= i < |projects| ==> (Answerable(stores, summary, projects[i]) <==>
      || stores.facts(projects[i]).NotFound?
      || exists f :: (
           && stores.facts(projects[i]) == Found(f) && f.project == projects[i]
           && f.uri == summary.uri && f.requestID == summary.requestID && 0.0 <= f.degree <= 1.0))
  {
  }

  lemma LoadedByMode(stores: Stores, summary: Summary, req: Request, token: Token)
    requires ValidRequest(req) && ParseToken(req, summary) == Ok(token)
    ensures forall p ::
      (if |req.projects| == 0 then IsListedPage(stores, summary, token, PageSize(req), p)
       else IsRequestedPage(stores, summary, token, PageSize(req), p)) ==> Loads(stores, summary, req, p)
  {
    hide IsListedPage, IsRequestedPage;
  }

  method LoadPage(stores: Stores, summary: Summary, req: Request) returns (r: Result<StatusPage, Failure>)
    requires ValidRequest(req)
    ensures r.Ok? ==> Loads(stores, summary, req, r.value)
    ensures r == Err(InvalidRequest) <==> ParseToken(req, summary).Err?
    // Of the projects asked for, each on this page must be without a fact or have one of this request and commit.
    ensures ParseToken(req, summary).Ok? && req.projects != [] ==> (r.Ok? <==>
      var start := ParseToken(req, summary).value.nextIndex;
      forall i :: start <= i < start + (if req.pageSize > 0 then req.pageSize else 50) && i < |req.projects| ==>
        || stores.facts(req.projects[i]).NotFound?
        || exists f :: (
             && stores.facts(req.projects[i]) == Found(f) && f.project == req.projects[i]
             && f.uri == summary.uri && f.requestID == summary.requestID && 0.0 <= f.degree <= 1.0))
    // Of all projects, the one the token names must have its fact, and so must every entry on this page.
    ensures ParseToken(req, summary).Ok? && req.projects == [] ==> (r.Ok? <==>
      var after := ParseToken(req, summary).value.afterProject;
      && (after != "" ==>
            summary.uri != "" && exists f :: stores.facts(after) == Found(f) && ValidFact(f, summary, after))
      && forall e :: e in Visible(stores, Cursor(stores, summary, after).value, PageSize(req)) ==>
           && summary.uri != "" && e.project != ""
           && exists f :: stores.facts(e.project) == Found(f) && ValidFact(f, summary, e.project) && f.degree == e.degree)
  {
    hide Listing, Visible, Answerable, IsListedPage, IsRequestedPage, Loads;
    var token := ParseToken(req, summary);
    if token.Err? {
      return Err(token.error);
    }
    LoadedByMode(stores, summary, req, token.value);
    if |req.projects| == 0 {
      r := ListPage(stores, summary, token.value, PageSize(req));
    } else {
      AnswerableMeans(stores, summary, req.projects);
      r := GetRequestedPage(stores, summary, token.value, PageSize(req));
    }
  }

  /** A page shows at most as many facts as were asked for, each of them a valid one of this request and commit. */
  lemma PageIsAsAsked(stores: Stores, summary: Summary, req: Request, p: StatusPage)
    requires Loads(stores, summary, req, p)
    ensures |p.facts| <= if req.pageSize > 0 then req.pageSize else 50
    ensures forall f :: f in p.facts ==>
      && f.uri == summary.uri && f.requestID == summary.requestID && 0.0 <= f.degree <= 1.0
      && stores.facts(f.project) == Found(f)
      && (req.projects != [] ==> f.project in req.projects)
  {
    var token := ParseToken(req, summary).value;
    hide Worse, IsPage, Listing, Present;
    if |req.projects| == 0 {
      MorePagesAreFull(Worse, stores.index, Cursor(stores, summary, token.afterProject).value, PageSize(req), PageOf(p));
    } else {
      RequestedAreValid(stores, summary, token, PageSize(req), p);
    }
  }

  lemma RequestedAreValid(stores: Stores, summary: Summary, token: Token, size: nat, p: StatusPage)
    requires IsRequestedPage(stores, summary, token, size, p)
    ensures |p.facts| <= size
    ensures forall f :: f in p.facts ==> f.project in token.projects && stores.facts(f.project) == Found(f) && ValidFact(f, summary, f.project)
  {
    hide Present;
    var asked := token.projects[token.nextIndex..Min(token.nextIndex + size, |token.projects|)];
    var at := PresentIsSelected(stores, asked);
    SelectsAtMost(asked, p.facts, FactOf(stores), at);
    forall f | f in p.facts
      ensures f.project in asked && stores.facts(f.project) == Found(f) && ValidFact(f, summary, f.project)
    {
      var i :| 0 <= i < |p.facts| && p.facts[i] == f;
      assert asked[at[i]] in asked && Answerable(stores, summary, asked[at[i]]);
    }
  }

  /** A request that sends a token back with the same selector and projects. */
  predicate Continues(req: Request, previous: Request, p: StatusPage) {
    p.next.Carries? && req.pageToken == p.next && req.projects == previous.projects && ValidRequest(req)
  }

  /** A token is accepted back exactly when, in a listing of all projects, the name it carries is a valid one. */
  lemma EmittedTokenAcceptedExactly(stores: Stores, summary: Summary, req: Request, p: StatusPage, next: Request)
    requires Loads(stores, summary, req, p) && Continues(next, req, p)
    ensures ParseToken(next, summary).Ok? <==> (|req.projects| == 0 ==> |p.facts| > 0 && Identifier(p.facts[|p.facts| - 1].project))
    ensures ParseToken(next, summary).Ok? ==> ParseToken(next, summary).value == p.next.token
  {
    hide Worse;
    if |req.projects| == 0 {
      var token := ParseToken(req, summary).value;
      MorePagesAreFull(Worse, stores.index, Cursor(stores, summary, token.afterProject).value, PageSize(req), PageOf(p));
    }
  }

  datatype Call = Call(stores: Stores, req: Request, page: StatusPage)

  predicate FollowsAt(summary: Summary, calls: seq<Call>, i: nat)
    requires i < |calls|
  {
    && Loads(calls[i].stores, summary, calls[i].req, calls[i].page)
    && (if i == 0 then calls[0].req.pageToken.NoToken?
        else Continues(calls[i].req, calls[i - 1].req, calls[i - 1].page))
  }

  /** A first call without a token, and calls that each send the token of the one before. */
  ghost predicate Followed(summary: Summary, calls: seq<Call>) {
    |calls| > 0 && forall i: nat :: i < |calls| ==> FollowsAt(summary, calls, i)
  }

  lemma FollowedFront(summary: Summary, calls: seq<Call>)
    requires Followed(summary, calls) && |calls| > 1
    ensures Followed(summary, calls[..|calls| - 1])
    ensures FollowsAt(summary, calls, |calls| - 1) && FollowsAt(summary, calls, |calls| - 2)
  {
    hide Loads, Continues;
    var front := calls[..|calls| - 1];
    forall i: nat | i < |front| ensures FollowsAt(summary, front, i) { assert FollowsAt(summary, calls, i); }
  }

  function AllFacts(calls: seq<Call>): seq<Fact> {
    if |calls| == 0 then [] else AllFacts(calls[..|calls| - 1]) + calls[|calls| - 1].page.facts
  }

  // ---- The requested projects come back once each, in the order asked for ----

  lemma {:induction false} PresentConcat(stores: Stores, a: seq<string>, b: seq<string>)
    ensures Present(stores, a + b) == Present(stores, a) + Present(stores, b)
    decreases |b|
  {
    if |b| == 0 {
      assert a + b == a;
    } else {
      PresentConcat(stores, a, b[..|b| - 1]);
      assert (a + b)[..|a + b| - 1] == a + b[..|b| - 1];
    }
  }

  /** The calls so far have answered for the first m projects, and their token says so. */
  predicate Answered(stores: Stores, projects: seq<string>, calls: seq<Call>, m: nat)
    requires |calls| > 0
  {
    var next := calls[|calls| - 1].page.next;
    && m <= |projects| && AllFacts(calls) == Present(stores, projects[..m])
    && !next.Garbled?
    && (if next.Carries? then next.token.nextIndex == m < |projects| else m == |projects|)
  }

  lemma AnswerMore(stores: Stores, summary: Summary, c: Call, front: seq<Call>, m: nat) returns (m': nat)
    requires c.stores == stores && Loads(stores, summary, c.req, c.page) && c.req.projects != []
    requires ParseToken(c.req, summary).value.nextIndex == m <= |c.req.projects|
    requires AllFacts(front) == Present(stores, c.req.projects[..m])
    ensures Answered(stores, c.req.projects, front + [c], m')
  {
    hide Present, Loads, ParseToken;
    var projects := c.req.projects;
    m' := PageAnswers(stores, summary, c.req, c.page, m);
    PresentSlices(stores, projects, m, m');
    FactsSnoc(front, c);
  }

  /** A page of requested projects answers for those from m on, up to where its token says. */
  lemma PageAnswers(stores: Stores, summary: Summary, req: Request, p: StatusPage, m: nat) returns (m': nat)
    requires Loads(stores, summary, req, p) && req.projects != []
    requires ParseToken(req, summary).value.nextIndex == m <= |req.projects|
    ensures m <= m' <= |req.projects| && p.facts == Present(stores, req.projects[m..m'])
    ensures p.next == if m' < |req.projects| then Carries(ParseToken(req, summary).value.(nextIndex := m')) else NoToken
  {
    hide Present, Answerable;
    m' := Min(m + PageSize(req), |req.projects|);
  }

  lemma PresentSlices(stores: Stores, projects: seq<string>, m: nat, m': nat)
    requires m <= m' <= |projects|
    ensures Present(stores, projects[..m']) == Present(stores, projects[..m]) + Present(stores, projects[m..m'])
  {
    hide Present;
    PresentConcat(stores, projects[..m], projects[m..m']);
    assert projects[..m] + projects[m..m'] == projects[..m'];
  }

  lemma FactsSnoc(front: seq<Call>, c: Call)
    ensures AllFacts(front + [c]) == AllFacts(front) + c.page.facts
  {
    assert (front + [c])[..|front|] == front;
  }

  lemma {:induction false} FollowedAnswers(stores: Stores, summary: Summary, calls: seq<Call>) returns (m: nat)
    requires Followed(summary, calls) && calls[0].req.projects != []
    requires forall c :: c in calls ==> c.stores == stores
    ensures calls[|calls| - 1].req.projects == calls[0].req.projects
    ensures Answered(stores, calls[0].req.projects, calls, m)
    decreases |calls|
  {
    hide Present, Answered;
    var n := |calls| - 1;
    var (front, last) := (calls[..n], calls[n]);
    assert calls == front + [last];
    assert FollowsAt(summary, calls, n);
    if n == 0 {
      NothingAsked(stores, last.req.projects);
      m := AnswerMore(stores, summary, last, front, 0);
    } else {
      FollowedFront(summary, calls);
      var before := FollowedAnswers(stores, summary, front);
      assert front[n - 1] == calls[n - 1];
      NextIndexIs(stores, calls[0].req.projects, front, before);
      m := AnswerMore(stores, summary, last, front, before);
    }
  }

  lemma NothingAsked(stores: Stores, projects: seq<string>)
    ensures Present(stores, projects[..0]) == []
  {
  }

  lemma NextIndexIs(stores: Stores, projects: seq<string>, calls: seq<Call>, m: nat)
    requires |calls| > 0 && Answered(stores, projects, calls, m) && calls[|calls| - 1].page.next.Carries?
    ensures calls[|calls| - 1].page.next.token.nextIndex == m <= |projects|
    ensures AllFacts(calls) == Present(stores, projects[..m])
  {
  }

  /** Once no token is given, the pages are the facts there are of the projects asked for, once each, in order. */
  lemma RequestedPagesPartitionTheAnswer(stores: Stores, summary: Summary, calls: seq<Call>)
    requires Followed(summary, calls) && calls[0].req.projects != []
    requires forall c :: c in calls ==> c.stores == stores
    ensures !calls[|calls| - 1].page.next.Carries? ==> AllFacts(calls) == Present(stores, calls[0].req.projects)
    ensures !calls[|calls| - 1].page.next.Carries? ==> exists at: seq<nat> ::
      Selects(calls[0].req.projects, AllFacts(calls), FactOf(stores), at)
  {
    var at := PresentIsSelected(stores, calls[0].req.projects);
    hide Present, Selects;
    var m := FollowedAnswers(stores, summary, calls);
    assert calls[0].req.projects[..|calls[0].req.projects|] == calls[0].req.projects;
  }

  // ---- All projects come once each, from the most broken one down ----

  /** Facts are immutable, and index entries are only ever added. */
  ghost predicate OnlyAdded(calls: seq<Call>) {
    && (forall i :: 0 <= i < |calls| ==> Sorted(Worse, calls[i].stores.index))
    && (forall i, j, e :: 0 <= i <= j < |calls| && e in calls[i].stores.index ==> e in calls[j].stores.index)
    && (forall i :: 0 < i < |calls| ==> KeepsFacts(calls[i - 1].stores, calls[i].stores))
  }

  ghost predicate KeepsFacts(before: Stores, after: Stores) {
    forall project :: before.facts(project).Found? ==> after.facts(project) == before.facts(project)
  }

  function Indexes(calls: seq<Call>): (r: seq<seq<Entry>>)
    ensures |r| == |calls| && forall i :: 0 <= i < |calls| ==> r[i] == calls[i].stores.index
  {
    if |calls| == 0 then [] else Indexes(calls[..|calls| - 1]) + [calls[|calls| - 1].stores.index]
  }

  function Sizes(calls: seq<Call>): (r: seq<nat>)
    ensures |r| == |calls|
  {
    if |calls| == 0 then []
    else
      var size := PageSize(calls[|calls| - 1].req);
      Sizes(calls[..|calls| - 1]) + [if size < 0 then 0 else size]
  }

  function Pages(calls: seq<Call>): (r: seq<Page<Entry>>)
    ensures |r| == |calls| && forall i :: 0 <= i < |calls| ==> r[i] == PageOf(calls[i].page)
  {
    if |calls| == 0 then [] else Pages(calls[..|calls| - 1]) + [PageOf(calls[|calls| - 1].page)]
  }

  lemma OneCallIsPage(summary: Summary, c: Call)
    requires Loads(c.stores, summary, c.req, c.page) && c.req.projects == []
    ensures var cursor := Cursor(c.stores, summary, ParseToken(c.req, summary).value.afterProject);
      cursor.Ok? && PageSize(c.req) > 0 && IsPage(Worse, c.stores.index, cursor.value, PageSize(c.req), PageOf(c.page))
    ensures c.req.pageToken.NoToken? ==> Cursor(c.stores, summary, ParseToken(c.req, summary).value.afterProject) == Ok(None)
  {
    hide IsPage, PageOf;
  }

  /** The cursor rebuilt from the fact of the last project is the last entry of the page before. */
  lemma CursorIsRebuilt(summary: Summary, c: Call, d: Call)
    requires Loads(c.stores, summary, c.req, c.page) && Loads(d.stores, summary, d.req, d.page) && c.req.projects == []
    requires Continues(d.req, c.req, c.page) && KeepsFacts(c.stores, d.stores)
    ensures PageOf(c.page).more && d.req.projects == []
    ensures Cursor(d.stores, summary, ParseToken(d.req, summary).value.afterProject) == Ok(LastOf(PageOf(c.page)))
  {
    hide IsPage, Worse;
    EmittedTokenAcceptedExactly(c.stores, summary, c.req, c.page, d.req);
    var last := c.page.facts[|c.page.facts| - 1];
    assert last in c.page.facts && Backed(c.stores, summary, Entry(last.degree, last.project));
    assert d.stores.facts(last.project) == Found(last);
  }

  lemma {:induction false} FollowedIsWalk(summary: Summary, calls: seq<Call>)
    requires Followed(summary, calls) && calls[0].req.projects == []
    requires forall i :: 0 < i < |calls| ==> KeepsFacts(calls[i - 1].stores, calls[i].stores)
    ensures IsWalk(Worse, Indexes(calls), Sizes(calls), Pages(calls))
    ensures calls[|calls| - 1].req.projects == []
    decreases |calls|
  {
    hide Worse, IsPage, PageOf, Loads, KeepsFacts;
    var n := |calls| - 1;
    var (front, last) := (calls[..n], calls[n]);
    assert FollowsAt(summary, calls, n);
    if n == 0 {
      OneCallIsPage(summary, last);
      assert Indexes(calls) == [last.stores.index] && Sizes(calls) == [PageSize(last.req)] && Pages(calls) == [PageOf(last.page)];
    } else {
      FollowedFront(summary, calls);
      FollowedIsWalk(summary, front);
      assert front[n - 1] == calls[n - 1] && KeepsFacts(calls[n - 1].stores, calls[n].stores);
      CursorIsRebuilt(summary, calls[n - 1], last);
      OneCallIsPage(summary, last);
      WalkExtends(Worse, Indexes(front), Sizes(front), Pages(front), last.stores.index, PageSize(last.req), PageOf(last.page));
    }
  }

  /**
   * Listing all projects: over all pages the entries come in strictly
   * descending degree, then ascending project; once no token is given, every
   * entry there was at the first call has come; and if nothing was added
   * meanwhile, the pages are the index, cut up.
   */
  lemma ListedPagesPartitionTheIndex(summary: Summary, calls: seq<Call>, e: Entry)
    requires |calls| > 0 && Followed(summary, calls) && calls[0].req.projects == [] && OnlyAdded(calls)
    ensures var shown := EntriesOf(AllFacts(calls));
      && (forall i, j :: 0 <= i < j < |shown| ==>
            || shown[i].degree > shown[j].degree
            || (shown[i].degree == shown[j].degree && Bytewise.Less(shown[i].project, shown[j].project)))
      && (e in shown ==> e in calls[|calls| - 1].stores.index)
      && (!calls[|calls| - 1].page.next.Carries? && e in calls[0].stores.index ==> e in shown)
      && (!calls[|calls| - 1].page.next.Carries? && (forall c :: c in calls ==> c.stores.index == calls[0].stores.index) ==>
            shown == calls[0].stores.index)
  {
    hide *;
    IndexesGrow(calls);
    FollowedIsWalk(summary, calls);
    LastPageSays(calls);
    ShownAreTheFacts(calls);
    IndexIsVisited(Indexes(calls), Sizes(calls), Pages(calls), e);
    WorstFirst(Concat(Pages(calls)));
  }

  lemma WorstFirst(es: seq<Entry>)
    requires Sorted(Worse, es)
    ensures forall i, j :: 0 <= i < j < |es| ==>
      || es[i].degree > es[j].degree
      || (es[i].degree == es[j].degree && Bytewise.Less(es[i].project, es[j].project))
  {
  }

  lemma IndexesGrow(calls: seq<Call>)
    requires OnlyAdded(calls)
    ensures Growing(Worse, Indexes(calls))
    ensures forall i :: 0 < i < |calls| ==> KeepsFacts(calls[i - 1].stores, calls[i].stores)
  {
    hide Worse, Sorted, KeepsFacts;
    var r := Indexes(calls);
    forall i, j, x | 0 <= i <= j < |calls| && x in r[i] ensures x in r[j] {
      assert x in calls[i].stores.index;
    }
  }

  lemma EntriesConcat(a: seq<Fact>, b: seq<Fact>)
    ensures EntriesOf(a + b) == EntriesOf(a) + EntriesOf(b)
  {
    hide EntriesOf;
  }

  /** The entries of the pages are those of the facts returned. */
  lemma {:induction false} ShownAreTheFacts(calls: seq<Call>)
    ensures Concat(Pages(calls)) == EntriesOf(AllFacts(calls))
  {
    hide EntriesOf;
    if |calls| > 0 {
      var front, last := calls[..|calls| - 1], calls[|calls| - 1];
      ShownAreTheFacts(front);
      EntriesConcat(AllFacts(front), last.page.facts);
      assert Pages(calls)[..|calls| - 1] == Pages(front);
    }
  }

  lemma LastPageSays(calls: seq<Call>)
    requires |calls| > 0
    ensures Pages(calls)[|calls| - 1].more <==> calls[|calls| - 1].page.next.Carries?
    ensures (forall c :: c in calls ==> c.stores.index == calls[0].stores.index) ==>
      forall i :: 0 <= i < |Indexes(calls)| ==> Indexes(calls)[i] == Indexes(calls)[0]
  {
    hide EntriesOf, Indexes, Pages;
    assert forall i :: 0 <= i < |calls| ==> calls[i] in calls;
  }

  lemma IndexIsVisited(indexes: seq<seq<Entry>>, sizes: seq<nat>, pages: seq<Page<Entry>>, e: Entry)
    requires Growing(Worse, indexes) && IsWalk(Worse, indexes, sizes, pages)
    ensures Sorted(Worse, Concat(pages))
    ensures e in Concat(pages) ==> e in indexes[|indexes| - 1]
    ensures e in indexes[0] && !pages[|pages| - 1].more ==> e in Concat(pages)
    ensures (forall i :: 0 <= i < |indexes| ==> indexes[i] == indexes[0]) && !pages[|pages| - 1].more ==> Concat(pages) == indexes[0]
  {
    hide Worse, IsPage, IsOrder, Sorted, Concat;
    WorseIsOrder();
    WalkAscends(Worse, indexes, sizes, pages);
    if e in indexes[0] {
      WalkMissesNothing(Worse, indexes, sizes, pages, e);
    }
    if forall i :: 0 <= i < |indexes| ==> indexes[i] == indexes[0] {
      WalkIsTheStore(Worse, indexes[0], indexes, sizes, pages);
      Regroup([], Concat(pages), []);
    }
  }
}
