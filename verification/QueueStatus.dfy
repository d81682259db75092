// Which enablement version of a queue covers a commit: the walk backwards over
// the versioned log (stovepipe/controller/get_queue_status.go,
// stovepipe/core/queuelog/queue_summary.go, stovepipe/entity/queue_state.go).
module QueueStatus {
  import opened Wrappers

  datatype Enablement = Unknown | Enabled | Disabled

  datatype QueueState = QueueState(queue: string, state: Enablement, boundary: string, changedAtMs: int, version: int)

  /** A row of the queue log; its id is the one given to version `id`. */
  datatype QueueLog = QueueLog(id: int, snapshot: QueueState)

  /** What reading a row, or asking the source control, comes back with. */
  datatype Read = Row(log: QueueLog) | NoRow | ReadFailed
  datatype Answer = Yes | No | Missing | Broken
  datatype Tip = Latest(uri: string) | NoTip | TipFailed

  /** Everything the walk consults. */
  datatype World = World(logs: int -> Read, isAncestor: (string, string) -> Answer, tip: Tip)

  datatype Failure = NotFound | Unresolved | InconsistentHistory | SourceControlFailed | StorageFailed

  const MAX_IDENTIFIER_BYTES := 255

  predicate Valid(s: QueueState) {
    && 0 < |s.queue| <= MAX_IDENTIFIER_BYTES && s.version > 0 && s.changedAtMs > 0
    && s.state != Unknown
    && (if s.version == 1 then s.state == Disabled && s.boundary == ""
        else 0 < |s.boundary| <= MAX_IDENTIFIER_BYTES)
  }

  /** The row of this version is a good one: its own, the queue's, and complete. */
  predicate GoodRow(w: World, queue: string, version: int) {
    w.logs(version).Row? &&
    var (id, s) := (w.logs(version).log.id, w.logs(version).log.snapshot);
    && id == version && s.version == version && s.queue == queue
    && 0 < |queue| <= MAX_IDENTIFIER_BYTES && version > 0 && s.changedAtMs > 0
    && (s.state == Enabled || s.state == Disabled)
    && (version == 1 ==> s.state == Disabled && s.boundary == "")
    && (version > 1 ==> 0 < |s.boundary| <= MAX_IDENTIFIER_BYTES)
  }

  /** The state a row holds. */
  function RowAt(w: World, version: int): QueueState {
    if w.logs(version).Row? then w.logs(version).log.snapshot else QueueState("", Unknown, "", 0, 0)
  }

  function LoadVersion(w: World, queue: string, version: int): (r: Result<QueueState, Failure>)
    ensures r.Ok? <==> GoodRow(w, queue, version)
    ensures r.Ok? ==> r.value == RowAt(w, version) && Valid(r.value)
    ensures r.Err? ==> r.error == if w.logs(version).ReadFailed? then StorageFailed else InconsistentHistory
  {
    match w.logs(version)
    case NoRow => Err(InconsistentHistory)
    case ReadFailed => Err(StorageFailed)
    case Row(log) =>
      if log.snapshot.queue != queue || log.snapshot.version != version then Err(InconsistentHistory)
      else if log.id != log.snapshot.version || !Valid(log.snapshot) then Err(InconsistentHistory)
      else Ok(log.snapshot)
  }

  /** The current read model: its enablement and the version of the projection itself. */
  datatype QueueSummary = QueueSummary(snapshot: QueueState, version: int)

  datatype SummaryRead = Summary(summary: QueueSummary) | NoSummary | SummaryFailed

  /** The summary is believed only if the retained log says the same. */
  function LoadSummary(w: World, queue: string, read: SummaryRead): (r: Result<QueueState, Failure>)
    ensures r.Ok? <==> (
      && read.Summary? && read.summary.version > 0 && read.summary.snapshot.queue == queue
      && GoodRow(w, queue, read.summary.snapshot.version)
      && RowAt(w, read.summary.snapshot.version) == read.summary.snapshot)
    ensures r.Ok? ==> r.value == read.summary.snapshot && Valid(r.value)
    ensures r == Err(NotFound) <==> read.NoSummary?
  {
    match read
    case NoSummary => Err(NotFound)
    case SummaryFailed => Err(StorageFailed)
    case Summary(s) =>
      if s.snapshot.queue != queue || s.version <= 0 || !Valid(s.snapshot) then Err(InconsistentHistory)
      else
        var retained := LoadVersion(w, queue, s.snapshot.version);
        if retained.Err? then retained
        else if retained.value != s.snapshot then Err(InconsistentHistory)
        else retained
  }

  /** A commit the source control does not know, or denies, is the user's; a failure is not. */
  function Refusal(a: Answer): (f: Failure)
    requires a != Yes
    ensures f == SourceControlFailed <==> a.Broken?
    ensures f == Unresolved <==> a.No? || a.Missing?
  {
    if a == Broken then SourceControlFailed else Unresolved
  }

  /** The commit, and the current boundary, must belong to the tip. */
  function OnTip(w: World, commit: string, current: QueueState): (r: Option<Failure>)
    ensures r.None? <==> (
      && w.tip.Latest? && w.isAncestor(commit, w.tip.uri) == Yes
      && (current.boundary != "" ==> w.isAncestor(current.boundary, w.tip.uri) == Yes))
  {
    match w.tip
    case NoTip => Some(Unresolved)
    case TipFailed => Some(SourceControlFailed)
    case Latest(tip) =>
      if w.isAncestor(commit, tip) != Yes then Some(Refusal(w.isAncestor(commit, tip)))
      else if current.boundary != "" && w.isAncestor(current.boundary, tip) != Yes
      then Some(Refusal(w.isAncestor(current.boundary, tip)))
      else None
  }

  // ---- Which version covers a commit ----

  /** The log as the walk may find it: version v, when it can be loaded. */
  predicate Loads(w: World, queue: string, v: int) { LoadVersion(w, queue, v).Ok? }

  function At(w: World, current: QueueState, v: int): QueueState
    requires v == current.version || Loads(w, current.queue, v)
  {
    if v == current.version then current else LoadVersion(w, current.queue, v).value
  }

  /** Version v is in force at the commit: it has no boundary, or one at or before the commit. */
  predicate Covers(w: World, commit: string, s: QueueState) {
    s.version == 1 || w.isAncestor(s.boundary, commit) == Yes
  }

  /** The walk may step from s to the version before it. */
  predicate StepsBack(w: World, commit: string, s: QueueState) {
    && s.version != 1
    && w.isAncestor(s.boundary, commit) == No
    && w.isAncestor(commit, s.boundary) == Yes
    && Loads(w, s.queue, s.version - 1)
    && var previous := LoadVersion(w, s.queue, s.version - 1).value;
       && previous.state != s.state
       && (previous.boundary != "" ==> w.isAncestor(previous.boundary, s.boundary) == Yes)
  }

  /** From current the walk can reach version v, refusing every version above it. */
  ghost predicate Reaches(w: World, commit: string, current: QueueState, v: int) {
    && 1 <= v <= current.version
    && (forall u :: v <= u < current.version ==> Loads(w, current.queue, u))
    && (forall u :: v < u <= current.version ==> StepsBack(w, commit, At(w, current, u)))
  }

  /** The walk ends well exactly at v: it is reached, and it covers the commit. */
  ghost predicate Resolves(w: World, commit: string, current: QueueState, v: int) {
    && OnTip(w, commit, current).None?
    && Reaches(w, commit, current, v)
    && Covers(w, commit, At(w, current, v))
  }

  /** Why the walk ends at a version that does not cover the commit. */
  function StopReason(w: World, commit: string, s: QueueState): (r: Failure)
    requires !Covers(w, commit, s) && !StepsBack(w, commit, s)
    ensures r == StorageFailed <==> (
      && w.isAncestor(s.boundary, commit) == No && w.isAncestor(commit, s.boundary) == Yes
      && w.logs(s.version - 1).ReadFailed?)
    ensures r == InconsistentHistory <==> (
      && w.isAncestor(s.boundary, commit) == No && w.isAncestor(commit, s.boundary) == Yes
      && !w.logs(s.version - 1).ReadFailed?
      && var previous := RowAt(w, s.version - 1);
         || !GoodRow(w, s.queue, s.version - 1) || previous.state == s.state
         || w.isAncestor(previous.boundary, s.boundary) == No)
  {
    var (covered, before) := (w.isAncestor(s.boundary, commit), w.isAncestor(commit, s.boundary));
    if covered != No then Refusal(covered)
    else if before != Yes then Refusal(before)
    else if !Loads(w, s.queue, s.version - 1) then LoadVersion(w, s.queue, s.version - 1).error
    else
      var previous := LoadVersion(w, s.queue, s.version - 1).value;
      if previous.state == s.state then InconsistentHistory
      else
        var forward := w.isAncestor(previous.boundary, s.boundary);
        if forward == No then InconsistentHistory else Refusal(forward)
  }

  /** The walk is at this version and can neither end there nor go on. */
  ghost predicate Stuck(w: World, commit: string, summary: QueueState, s: QueueState) {
    && Reaches(w, commit, summary, s.version) && s == At(w, summary, s.version)
    && !Covers(w, commit, s) && !StepsBack(w, commit, s)
  }

  ghost predicate Ends(w: World, commit: string, summary: QueueState, reason: Failure) {
    exists s :: Stuck(w, commit, summary, s) && reason == StopReason(w, commit, s)
  }

  /**
   * resolveCommitEnablement. It succeeds exactly when some version resolves,
   * and then returns the largest version in force at the commit.
   */
  method ResolveCommitEnablement(w: World, commit: string, summary: QueueState) returns (r: Result<QueueState, Failure>)
    requires Valid(summary)
    ensures r.Ok? ==> Resolves(w, commit, summary, r.value.version) && r.value == At(w, summary, r.value.version)
    ensures r.Err? ==> forall v :: !Resolves(w, commit, summary, v)
    ensures r.Err? ==>
      || OnTip(w, commit, summary) == Some(r.error)
      || Ends(w, commit, summary, r.error)
  {
    var refused := OnTip(w, commit, summary);
    if refused.Some? {
      return Err(refused.value);
    }
    var current := summary;
    while true
      invariant Valid(current) && current.queue == summary.queue
      invariant Reaches(w, commit, summary, current.version) && current == At(w, summary, current.version)
      decreases current.version
    {
      if current.version == 1 {
        return Ok(current);
      }
      var covered := w.isAncestor(current.boundary, commit);
      if covered == Missing || covered == Broken {
        NowhereElse(w, commit, summary, current, Refusal(covered));
        return Err(Refusal(covered));
      }
      if covered == Yes {
        return Ok(current);
      }
      var beforeBoundary := w.isAncestor(commit, current.boundary);
      if beforeBoundary != Yes {
        NowhereElse(w, commit, summary, current, Refusal(beforeBoundary));
        return Err(Refusal(beforeBoundary));
      }
      var loaded := LoadVersion(w, summary.queue, current.version - 1);
      if loaded.Err? {
        NowhereElse(w, commit, summary, current, loaded.error);
        return Err(loaded.error);
      }
      var previous := loaded.value;
      if previous.state == current.state {
        NowhereElse(w, commit, summary, current, InconsistentHistory);
        return Err(InconsistentHistory);
      }
      if previous.boundary != "" {
        var forward := w.isAncestor(previous.boundary, current.boundary);
        if forward != Yes {
          var reason := if forward == No then InconsistentHistory else Refusal(forward);
          NowhereElse(w, commit, summary, current, reason);
          return Err(reason);
        }
      }
      current := previous;
    }
  }

  /** A version that neither covers the commit nor lets the walk go on ends it for good. */
  lemma NowhereElse(w: World, commit: string, summary: QueueState, current: QueueState, reason: Failure)
    requires Valid(summary) && Stuck(w, commit, summary, current) && reason == StopReason(w, commit, current)
    ensures Ends(w, commit, summary, reason)
    ensures forall v :: !Resolves(w, commit, summary, v)
  {
    forall v ensures !Resolves(w, commit, summary, v) {
      if v > current.version { StuckBelow(w, commit, summary, current, v); }
    }
  }

  lemma StuckBelow(w: World, commit: string, summary: QueueState, current: QueueState, v: int)
    requires Stuck(w, commit, summary, current) && v > current.version
    ensures !Resolves(w, commit, summary, v)
  {
    assert v <= summary.version ==> StepsBack(w, commit, At(w, summary, v));
  }

  // ---- What that means ----

  lemma AtIsValid(w: World, summary: QueueState, v: int)
    requires Valid(summary) && (v == summary.version || Loads(w, summary.queue, v))
    ensures var s := At(w, summary, v); Valid(s) && s.version == v && s.queue == summary.queue
  {
  }

  /** The answer is the largest version in force at the commit, and it is the only answer. */
  lemma ResolvedIsLargestCovering(w: World, commit: string, summary: QueueState, v: int)
    requires Valid(summary) && Resolves(w, commit, summary, v)
    ensures Covers(w, commit, At(w, summary, v))
    ensures v > 1 ==> w.isAncestor(At(w, summary, v).boundary, commit) == Yes
    ensures forall u :: v < u <= summary.version ==> !Covers(w, commit, At(w, summary, u))
    ensures forall u :: Resolves(w, commit, summary, u) ==> u == v
  {
    AtIsValid(w, summary, v);
    forall u | v < u <= summary.version ensures !Covers(w, commit, At(w, summary, u)) {
      RefusedAbove(w, commit, summary, v, u);
    }
    forall u | Resolves(w, commit, summary, u) ensures u == v {
      if u < v {
        RefusedAbove(w, commit, summary, u, v);
      }
    }
  }

  lemma RefusedAbove(w: World, commit: string, summary: QueueState, v: int, u: int)
    requires Reaches(w, commit, summary, v) && v < u <= summary.version
    ensures !Covers(w, commit, At(w, summary, u))
  {
    assert StepsBack(w, commit, At(w, summary, u));
  }

  lemma RowIsValid(w: World, queue: string, u: int)
    requires GoodRow(w, queue, u)
    ensures var s := RowAt(w, u); Valid(s) && s.version == u && s.queue == queue && (u > 1 ==> s.boundary != "")
    ensures LoadVersion(w, queue, u) == Ok(RowAt(w, u))
  {
  }

  /** The summary is the newest of the rows, as it is when it was loaded. */
  predicate IsCurrent(w: World, summary: QueueState) {
    GoodRow(w, summary.queue, summary.version) && RowAt(w, summary.version) == summary
  }

  /** The commit lies before the boundary of next; previous is a proper predecessor. */
  predicate Precedes(w: World, commit: string, previous: QueueState, next: QueueState) {
    && w.isAncestor(next.boundary, commit) == No && w.isAncestor(commit, next.boundary) == Yes
    && previous.state != next.state
    && (previous.boundary != "" ==> w.isAncestor(previous.boundary, next.boundary) == Yes)
  }

  /** Versions v to the newest are there, and each but v lets the walk step back. */
  ghost predicate Walkable(w: World, commit: string, summary: QueueState, v: int) {
    && 1 <= v <= summary.version
    && (forall u :: v <= u <= summary.version ==> GoodRow(w, summary.queue, u))
    && (forall u :: v < u <= summary.version ==> Precedes(w, commit, RowAt(w, u - 1), RowAt(w, u)))
  }

  lemma WalkableIsReached(w: World, commit: string, summary: QueueState, v: int)
    requires IsCurrent(w, summary) && Walkable(w, commit, summary, v)
    ensures Reaches(w, commit, summary, v) && At(w, summary, v) == RowAt(w, v)
  {
    hide GoodRow, LoadVersion, RowAt;
    RowIsValid(w, summary.queue, v);
    forall u | v <= u <= summary.version ensures Loads(w, summary.queue, u) && At(w, summary, u) == RowAt(w, u) {
      RowIsValid(w, summary.queue, u);
    }
    forall u | v < u <= summary.version ensures StepsBack(w, commit, At(w, summary, u)) {
      RowIsValid(w, summary.queue, u);
      RowIsValid(w, summary.queue, u - 1);
      assert Precedes(w, commit, RowAt(w, u - 1), RowAt(w, u));
    }
  }

  lemma ReachedIsWalkable(w: World, commit: string, summary: QueueState, v: int)
    requires IsCurrent(w, summary) && Reaches(w, commit, summary, v)
    ensures Walkable(w, commit, summary, v) && At(w, summary, v) == RowAt(w, v)
  {
    hide GoodRow, LoadVersion, RowAt;
    forall u | v <= u <= summary.version ensures GoodRow(w, summary.queue, u) && At(w, summary, u) == RowAt(w, u) {
      assert u < summary.version ==> Loads(w, summary.queue, u);
      RowIsValid(w, summary.queue, u);
    }
    forall u | v < u <= summary.version ensures Precedes(w, commit, RowAt(w, u - 1), RowAt(w, u)) {
      RowIsValid(w, summary.queue, u);
      RowIsValid(w, summary.queue, u - 1);
      assert StepsBack(w, commit, At(w, summary, u));
    }
  }

  /**
   * What it takes for version v to be the answer, in terms of the rows: commit
   * and newest boundary on the tip's line; every row from v on good; each newer
   * boundary strictly after the commit, in the opposite state of the one before
   * it and not behind its boundary; and v itself without a boundary or with one
   * at or before the commit.
   */
  lemma ResolvesExactly(w: World, commit: string, summary: QueueState, v: int)
    requires IsCurrent(w, summary)
    ensures Resolves(w, commit, summary, v) <==> (
      && w.tip.Latest? && w.isAncestor(commit, w.tip.uri) == Yes
      && (summary.boundary != "" ==> w.isAncestor(summary.boundary, w.tip.uri) == Yes)
      && 1 <= v <= summary.version
      && (forall u :: v <= u <= summary.version ==> GoodRow(w, summary.queue, u))
      && (forall u :: v < u <= summary.version ==> Precedes(w, commit, RowAt(w, u - 1), RowAt(w, u)))
      && (v == 1 || w.isAncestor(RowAt(w, v).boundary, commit) == Yes))
    ensures Resolves(w, commit, summary, v) ==> At(w, summary, v) == RowAt(w, v)
  {
    hide GoodRow, LoadVersion, RowAt, OnTip, Reaches, Precedes, StepsBack, Loads, At;
    assert Walkable(w, commit, summary, v) ==> GoodRow(w, summary.queue, v);
    if Reaches(w, commit, summary, v) {
      ReachedIsWalkable(w, commit, summary, v);
      RowIsValid(w, summary.queue, v);
    } else if Walkable(w, commit, summary, v) {
      WalkableIsReached(w, commit, summary, v);
    }
  }

  /** Ancestry as a partial order that can always be answered. */
  ghost predicate IsOrder(w: World) {
    && (forall a, b :: w.isAncestor(a, b) == Yes || w.isAncestor(a, b) == No)
    && (forall a :: w.isAncestor(a, a) == Yes)
    && (forall a, b, c :: w.isAncestor(a, b) == Yes && w.isAncestor(b, c) == Yes ==> w.isAncestor(a, c) == Yes)
    && (forall a, b :: w.isAncestor(a, b) == Yes && w.isAncestor(b, a) == Yes ==> a == b)
  }

  /** The retained log: every version has its good row, states alternate, boundaries move forward. */
  ghost predicate IsHistory(w: World, summary: QueueState) {
    && IsCurrent(w, summary)
    && (forall u :: 1 <= u <= summary.version ==> GoodRow(w, summary.queue, u))
    && (forall u :: 1 < u <= summary.version ==> Follows(w, RowAt(w, u - 1), RowAt(w, u)))
  }

  predicate Follows(w: World, previous: QueueState, next: QueueState) {
    previous.state != next.state && (previous.version > 1 ==> w.isAncestor(previous.boundary, next.boundary) == Yes)
  }

  /** The commit lies before or after every boundary. */
  ghost predicate Comparable(w: World, commit: string, summary: QueueState) {
    && (forall u :: 1 <= u <= summary.version ==> GoodRow(w, summary.queue, u))
    && forall u :: 1 < u <= summary.version ==>
         w.isAncestor(RowAt(w, u).boundary, commit) == Yes || w.isAncestor(commit, RowAt(w, u).boundary) == Yes
  }

  /** On a proper history there is always an answer: no commit on the tip's line is refused. */
  lemma ProperHistoryResolves(w: World, commit: string, summary: QueueState)
    requires IsHistory(w, summary) && OnTip(w, commit, summary).None?
    requires IsOrder(w) && Comparable(w, commit, summary)
    ensures exists v :: Resolves(w, commit, summary, v)
  {
    ReachesAnswer(w, commit, summary, summary.version);
  }

  lemma {:induction false} ReachesAnswer(w: World, commit: string, summary: QueueState, v: int)
    requires IsHistory(w, summary) && OnTip(w, commit, summary).None?
    requires IsOrder(w) && Comparable(w, commit, summary)
    requires Reaches(w, commit, summary, v)
    ensures exists u :: Resolves(w, commit, summary, u)
    decreases v
  {
    hide GoodRow, LoadVersion, Valid, RowAt;
    RowIsValid(w, summary.queue, v);
    var next := RowAt(w, v);
    if Covers(w, commit, next) {
      assert Resolves(w, commit, summary, v);
    } else {
      RowIsValid(w, summary.queue, v - 1);
      assert Follows(w, RowAt(w, v - 1), next);
      assert w.isAncestor(next.boundary, commit) == No && w.isAncestor(commit, next.boundary) == Yes;
      assert StepsBack(w, commit, next);
      ReachesAnswer(w, commit, summary, v - 1);
    }
  }

  /** There, what is in force once stays in force until the next boundary: coverage has no gaps. */
  lemma {:induction false} CoverageHasNoGaps(w: World, commit: string, summary: QueueState, u: int, v: int)
    requires IsOrder(w) && IsHistory(w, summary) && 1 <= u <= v <= summary.version
    requires v == 1 || w.isAncestor(RowAt(w, v).boundary, commit) == Yes
    ensures u == 1 || w.isAncestor(RowAt(w, u).boundary, commit) == Yes
    decreases v - u
  {
    hide GoodRow, RowAt;
    if u < v {
      RowIsValid(w, summary.queue, v - 1);
      assert Follows(w, RowAt(w, v - 1), RowAt(w, v));
      CoverageHasNoGaps(w, commit, summary, u, v - 1);
    }
  }

  /** A boundary is inclusive: asked for a boundary commit, the answer is a version with that boundary. */
  lemma BoundaryIsInclusive(w: World, summary: QueueState, v: int, r: int)
    requires IsOrder(w) && IsHistory(w, summary) && 1 < v <= summary.version
    requires Resolves(w, RowAt(w, v).boundary, summary, r)
    ensures r >= v && RowAt(w, r).boundary == RowAt(w, v).boundary
  {
    hide GoodRow, RowAt, Resolves, Covers;
    var commit := RowAt(w, v).boundary;
    ResolvesExactly(w, commit, summary, r);
    assert r < v ==> Precedes(w, commit, RowAt(w, v - 1), RowAt(w, v));
    BoundariesAscend(w, summary, v, if r < v then v else r);
  }

  lemma {:induction false} BoundariesAscend(w: World, summary: QueueState, u: int, v: int)
    requires IsOrder(w) && IsHistory(w, summary) && 1 < u <= v <= summary.version
    ensures w.isAncestor(RowAt(w, u).boundary, RowAt(w, v).boundary) == Yes
    decreases v - u
  {
    hide GoodRow, RowAt;
    if u < v {
      RowIsValid(w, summary.queue, v - 1);
      var (previous, next) := (RowAt(w, v - 1), RowAt(w, v));
      assert Follows(w, previous, next);
      BoundariesAscend(w, summary, u, v - 1);
      assert w.isAncestor(previous.boundary, next.boundary) == Yes;
    }
  }

  /** No commit off the tip's line, and no queue whose boundary left it, is ever given an enablement. */
  lemma RewrittenTipResolvesNothing(w: World, commit: string, summary: QueueState, tip: string, v: int)
    requires w.tip == Latest(tip) && Resolves(w, commit, summary, v)
    ensures w.isAncestor(commit, tip) == Yes
    ensures summary.boundary != "" ==> w.isAncestor(summary.boundary, tip) == Yes
  {
  }
}
