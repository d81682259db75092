// Ingest over whole runs: what holds between any two moments of any
// interleaving, and that a call left alone finishes what others left undone.
module IngestRuns {
  import opened Wrappers
  import opened ResourceIds
  import opened IngestProtocol
  import opened IngestInvariant
  import opened IngestBookmark

  ghost predicate IsRun(tr: seq<State>, acts: seq<Action>) {
    && |tr| == |acts| + 1
    && tr[0] == Start
    && forall i :: 0 <= i < |acts| ==> Enabled(tr[i], acts[i]) && tr[i + 1] == Next(tr[i], acts[i])
  }

  lemma GrowsTransitive(a: Store, b: Store, c: Store)
    requires Grows(a, b) && Grows(b, c)
    ensures Grows(a, c)
  {
    forall id | id in a.requests ensures id in c.requests && Kept(a.requests[id], c.requests[id]) {
      assert Kept(a.requests[id], b.requests[id]) && Kept(b.requests[id], c.requests[id]);
    }
    forall u | u in a.uris ensures u in c.uris && c.uris[u] == a.uris[u] {
      assert b.uris[u] == a.uris[u];
    }
  }

  lemma GrowsReflexive(a: Store)
    ensures Grows(a, a)
  {
  }

  lemma StartIsSound()
    ensures Inv(Start) && BookmarkInv(Start)
  {
  }

  /** The invariant holds in every reachable state. */
  lemma {:induction false} RunKeepsInv(tr: seq<State>, acts: seq<Action>, i: nat)
    requires IsRun(tr, acts) && i < |tr|
    ensures Inv(tr[i])
  {
    hide Inv, Next, Enabled, Grows;
    StartIsSound();
    if i > 0 {
      RunKeepsInv(tr, acts, i - 1);
      InvStep(tr[i - 1], acts[i - 1]);
    }
  }

  lemma {:induction false} RunGrows(tr: seq<State>, acts: seq<Action>, i: nat, j: nat)
    requires IsRun(tr, acts) && i <= j < |tr|
    ensures Grows(tr[i].store, tr[j].store)
  {
    hide Inv, Next, Enabled, Grows;
    GrowsReflexive(tr[i].store);
    if i < j {
      RunGrows(tr, acts, i, j - 1);
      RunKeepsInv(tr, acts, j - 1);
      InvStep(tr[j - 1], acts[j - 1]);
      GrowsTransitive(tr[i].store, tr[j - 1].store, tr[j].store);
    }
  }

  lemma {:induction false} RunKeepsBookmark(tr: seq<State>, acts: seq<Action>, i: nat)
    requires IsRun(tr, acts) && i < |tr| && |tr[i].store.hist| <= INT32_RANGE
    ensures BookmarkInv(tr[i])
  {
    hide Inv, Next, BookmarkInv, Rises, Enabled;
    StartIsSound();
    if i > 0 {
      RunGrows(tr, acts, i - 1, i);
      RunKeepsBookmark(tr, acts, i - 1);
      RunKeepsInv(tr, acts, i - 1);
      BookmarkStep(tr[i - 1], acts[i - 1]);
    }
  }

  /** What a process knows and what the store keeps, together. */
  ghost predicate Sound(st: Store, pc: Pc) {
    StoreInv(st) && QueueInv(st) && PcInv(st, pc) && PcMark(st, pc)
  }

  lemma SoundIsNamed(st: Store, pc: Pc)
    requires Sound(st, pc)
    ensures Named(st)
  {
    ReadMinted(st, "");
  }

  // ---- Identity ----

  /** A mapping once claimed never changes, and neither does a row's identity. */
  lemma MappingNeverChanges(tr: seq<State>, acts: seq<Action>, i: nat, j: nat, uri: Uri)
    requires IsRun(tr, acts) && i <= j < |tr| && uri in tr[i].store.uris
    ensures uri in tr[j].store.uris && tr[j].store.uris[uri] == tr[i].store.uris[uri]
    ensures forall id :: id in tr[j].store.requests && tr[j].store.requests[id].uri == uri ==> id == tr[i].store.uris[uri]
  {
    RunGrows(tr, acts, i, j);
    RunKeepsInv(tr, acts, j);
    assert tr[j].store.uris[uri] == tr[i].store.uris[uri];
    forall id | id in tr[j].store.requests && tr[j].store.requests[id].uri == uri
      ensures id == tr[i].store.uris[uri]
    {
      assert RowInv(tr[j].store, tr[j].store.requests[id], id);
    }
  }

  lemma ReturnedIsMapped(tr: seq<State>, acts: seq<Action>, i: nat, p: Pid)
    requires IsRun(tr, acts) && i < |tr| && p in tr[i].procs && tr[i].procs[p].Done?
    ensures var (uri, id) := (tr[i].procs[p].uri, tr[i].procs[p].id);
      Mapped(tr[i].store, uri, id) && id in tr[i].store.requests && id in tr[i].store.published
  {
    RunKeepsInv(tr, acts, i);
    assert PcInv(tr[i].store, tr[i].procs[p]);
  }

  lemma MappingInjective(tr: seq<State>, acts: seq<Action>, i: nat, u: Uri, w: Uri)
    requires IsRun(tr, acts) && i < |tr| && u in tr[i].store.uris && w in tr[i].store.uris
    ensures tr[i].store.uris[u] == tr[i].store.uris[w] <==> u == w
  {
    RunKeepsInv(tr, acts, i);
  }

  /** Two calls that returned, at any two moments, name the same id exactly
      when they were about the same URI. */
  lemma ReturnedIdsAgree(tr: seq<State>, acts: seq<Action>, i: nat, p: Pid, j: nat, q: Pid)
    requires IsRun(tr, acts) && i <= j < |tr|
    requires p in tr[i].procs && tr[i].procs[p].Done? && q in tr[j].procs && tr[j].procs[q].Done?
    ensures tr[i].procs[p].id == tr[j].procs[q].id <==> tr[i].procs[p].uri == tr[j].procs[q].uri
  {
    var u, w := tr[i].procs[p].uri, tr[j].procs[q].uri;
    ReturnedIsMapped(tr, acts, i, p);
    ReturnedIsMapped(tr, acts, j, q);
    MappingNeverChanges(tr, acts, i, j, u);
    MappingInjective(tr, acts, j, u, w);
  }

  /** The claim race leaves no orphan: every request row, at every moment, is
      the one row its URI maps to, and left Accepted only once announced. */
  lemma NoOrphanRows(tr: seq<State>, acts: seq<Action>, i: nat, id: ReqId)
    requires IsRun(tr, acts) && i < |tr| && id in tr[i].store.requests
    ensures var st := tr[i].store;
      var r := st.requests[id];
      r.id == id && r.uri in st.uris && st.uris[r.uri] == id && (r.state != Accepted ==> id in st.published)
  {
    RunKeepsInv(tr, acts, i);
    assert RowInv(tr[i].store, tr[i].store.requests[id], id);
  }

  /** Whatever failed before it, a call that returned has its mapping, its row
      and its message in place, from then on. */
  lemma ReturnedMeansInPlace(tr: seq<State>, acts: seq<Action>, i: nat, p: Pid, j: nat)
    requires IsRun(tr, acts) && i <= j < |tr| && p in tr[i].procs && tr[i].procs[p].Done?
    ensures var (uri, id, st) := (tr[i].procs[p].uri, tr[i].procs[p].id, tr[j].store);
      && uri in st.uris && st.uris[uri] == id
      && id in st.requests && st.requests[id].uri == uri
      && id in st.published
  {
    RunKeepsInv(tr, acts, i);
    assert PcInv(tr[i].store, tr[i].procs[p]);
    RunGrows(tr, acts, i, j);
    MappingNeverChanges(tr, acts, i, j, tr[i].procs[p].uri);
    NoOrphanRows(tr, acts, i, tr[i].procs[p].id);
    var id := tr[i].procs[p].id;
    assert Kept(tr[i].store.requests[id], tr[j].store.requests[id]);
    assert tr[i].store.requests[id].uri == tr[i].procs[p].uri;
  }

  /** The topic never retains two messages for one request, however often the
      request is announced. */
  lemma AtMostOneRetainedMessage(tr: seq<State>, acts: seq<Action>, i: nat, m: nat, n: nat)
    requires IsRun(tr, acts) && i < |tr| && m < n < |tr[i].store.topic|
    ensures tr[i].store.topic[m] != tr[i].store.topic[n]
  {
    RunKeepsInv(tr, acts, i);
    assert Distinct(tr[i].store.topic);
  }

  lemma PublishedByTopic(s: State, a: Action, id: ReqId)
    requires Enabled(s, a) && id in Next(s, a).store.published
    ensures id in s.store.published || id in Next(s, a).store.topic
  {
    hide Minted, Value, Decimal, Compare, FromCounter;
  }

  /** What counts as published is exactly what the topic has held at some moment. */
  lemma {:induction false} PublishedWasInTopic(tr: seq<State>, acts: seq<Action>, i: nat, id: ReqId)
    requires IsRun(tr, acts) && i < |tr|
    ensures id in tr[i].store.published <==> exists k :: 0 <= k <= i && id in tr[k].store.topic
  {
    hide Next, Enabled, Grows, StoreInv;
    RunKeepsInv(tr, acts, i);
    TopicIsPublished(tr[i]);
    if i > 0 {
      PublishedWasInTopic(tr, acts, i - 1, id);
      RunKeepsInv(tr, acts, i - 1);
      InvStep(tr[i - 1], acts[i - 1]);
      PublishedStays(tr[i - 1].store, tr[i].store, id);
      if id in tr[i].store.published {
        PublishedByTopic(tr[i - 1], acts[i - 1], id);
      }
    }
  }

  lemma TopicIsPublished(s: State)
    requires Inv(s)
    ensures forall id :: id in s.store.topic ==> id in s.store.published
  {
  }

  lemma PublishedStays(st: Store, t: Store, id: ReqId)
    requires Grows(st, t)
    ensures id in st.published ==> id in t.published
  {
  }

  // ---- The bookmark ----

  lemma {:induction false} MarkNeverMovesBack(tr: seq<State>, acts: seq<Action>, i: nat, j: nat)
    requires IsRun(tr, acts) && i <= j < |tr| && |tr[j].store.hist| <= INT32_RANGE
    ensures MarkNow(tr[i].store) <= MarkNow(tr[j].store)
  {
    hide Inv, Next, BookmarkInv, Enabled, MarkNow;
    if i < j {
      RunGrows(tr, acts, j - 1, j);
      MarkNeverMovesBack(tr, acts, i, j - 1);
      RunKeepsInv(tr, acts, j - 1);
      RunKeepsBookmark(tr, acts, j - 1);
      BookmarkStep(tr[j - 1], acts[j - 1]);
    }
  }

  /** From the moment a call returns the bookmark is at least its id. */
  lemma BookmarkCoversReturned(tr: seq<State>, acts: seq<Action>, i: nat, p: Pid, j: nat)
    requires IsRun(tr, acts) && i <= j < |tr| && |tr[j].store.hist| <= INT32_RANGE
    requires p in tr[i].procs && tr[i].procs[p].Done?
    ensures Minted(tr[i].procs[p].id)
    ensures tr[j].store.queue.Some? && Minted(tr[j].store.queue.value.latest)
    ensures Value(tr[i].procs[p].id) <= Value(tr[j].store.queue.value.latest)
  {
    RunGrows(tr, acts, i, j);
    RunKeepsBookmark(tr, acts, i);
    RunKeepsBookmark(tr, acts, j);
    MarkNeverMovesBack(tr, acts, i, j);
    assert PcMark(tr[i].store, tr[i].procs[p]);
  }

  /** Column by column, each write of the row is the previous write plus what
      its own writer sets: no concurrent change is overwritten. */
  lemma NoLostUpdate(tr: seq<State>, acts: seq<Action>, i: nat, k: nat)
    requires IsRun(tr, acts) && i < |tr| && |tr[i].store.hist| <= INT32_RANGE
    requires k + 1 < |tr[i].store.hist|
    ensures var (a, b) := (tr[i].store.hist[k], tr[i].store.hist[k + 1]);
      && (a.other == b.other || a.latest == b.latest)
      && Mark(a) <= Mark(b) && b.version == Int32(a.version + 1)
  {
    RunKeepsBookmark(tr, acts, i);
    var st := tr[i].store;
    assert OneField(st.hist[k], st.hist[k + 1]);
    assert Mark(st.hist[k]) <= Mark(st.hist[k + 1]);
    Int32Bump(k + 1);
  }

  /** A call in its bookmark loop has failed at most as often as the row was
      written since the loop began: k interfering writes, at most k + 1 rounds. */
  lemma RetriesAreBounded(tr: seq<State>, acts: seq<Action>, i: nat, p: Pid)
    requires IsRun(tr, acts) && i < |tr| && |tr[i].store.hist| <= INT32_RANGE && p in tr[i].procs
    requires var pc := tr[i].procs[p]; pc.ReadQueue? || pc.InsertQueue? || pc.RereadQueue? || pc.Update?
    ensures var a := tr[i].procs[p].a; a.fails <= |tr[i].store.hist| - a.start
  {
    RunKeepsBookmark(tr, acts, i);
    assert PcMark(tr[i].store, tr[i].procs[p]);
  }

  lemma {:induction false} RunKeepsNames(tr: seq<State>, acts: seq<Action>, i: nat)
    requires IsRun(tr, acts) && i < |tr|
    ensures NameInv(tr[i])
  {
    hide Inv, Next, Enabled;
    if i > 0 {
      hide NameInv;
      RunKeepsNames(tr, acts, i - 1);
      RunKeepsInv(tr, acts, i - 1);
      NameStep(tr[i - 1], acts[i - 1]);
    }
  }

  /** The only error a step of a call can end in is a counter value that is
      not positive, however often the queue row was written. */
  lemma CallFailsOnlyOnBadCounter(tr: seq<State>, acts: seq<Action>, i: nat)
    requires IsRun(tr, acts) && i < |acts|
    requires acts[i].Step? && InCall(tr[i].procs[acts[i].p])
    ensures tr[i + 1].procs[acts[i].p].Stopped? <==> tr[i].procs[acts[i].p].Mint? && acts[i].minted <= 0
  {
    hide StoreInv, PcInv, Named, CallStep;
    var st, pc := tr[i].store, tr[i].procs[acts[i].p];
    RunKeepsInv(tr, acts, i);
    RunKeepsNames(tr, acts, i);
    assert tr[i + 1] == Next(tr[i], acts[i]);
    assert tr[i + 1].procs[acts[i].p] == CallStep(st, pc, acts[i].minted).1;
    StepAnswers(st, pc, acts[i].minted);
  }

  // ---- The process stage ----

  /** A message is never ahead of the bookmark: whoever receives it finds the
      request, the queue row and a bookmark at or past it. */
  lemma DeliveryFindsBookmark(tr: seq<State>, acts: seq<Action>, i: nat, id: ReqId)
    requires IsRun(tr, acts) && i < |tr| && |tr[i].store.hist| <= INT32_RANGE && id in tr[i].store.topic
    ensures var st := tr[i].store;
      && id in st.requests && st.queue.Some? && st.queue.value.latest != ""
      && Compare(id, st.queue.value.latest).Ok? && Compare(id, st.queue.value.latest).value <= 0
  {
    RunKeepsInv(tr, acts, i);
    RunKeepsBookmark(tr, acts, i);
    var st := tr[i].store;
    assert Covered(st, id);
    ReadMinted(st, id);
    MintedNotEmpty(id);
    EmptyMark();
    CompareIsNumeric(id, st.queue.value.latest);
  }

  /** Coalescing is safe although it acts on rows read earlier: a superseded
      request is strictly older than the bookmark, at every later moment. */
  lemma NewestIsNeverSuperseded(tr: seq<State>, acts: seq<Action>, i: nat, id: ReqId)
    requires IsRun(tr, acts) && i < |tr| && |tr[i].store.hist| <= INT32_RANGE
    requires id in tr[i].store.requests && tr[i].store.requests[id].state == Superseded
    ensures tr[i].store.queue.Some?
    ensures Compare(id, tr[i].store.queue.value.latest) == Ok(-1)
  {
    RunKeepsInv(tr, acts, i);
    RunKeepsBookmark(tr, acts, i);
    var st := tr[i].store;
    assert Outdated(st, id);
    MintedNotEmpty(id);
    CompareIsNumeric(id, st.queue.value.latest);
  }

  /** When an admission is confirmed, the row write that confirms it carries
      that very request as the bookmark. */
  lemma OnlyNewestIsAdmitted(tr: seq<State>, acts: seq<Action>, i: nat)
    requires IsRun(tr, acts) && i < |acts| && |tr[i].store.hist| <= INT32_RANGE
    requires acts[i].Step? && tr[i].procs[acts[i].p].Confirming? && tr[i + 1].procs[acts[i].p].Admitting?
    ensures tr[i].store.queue.Some? && tr[i].store.queue.value.latest == tr[i].procs[acts[i].p].request
    ensures tr[i + 1].store.queue.value.latest == tr[i].procs[acts[i].p].request
  {
    RunKeepsBookmark(tr, acts, i);
    assert PcMark(tr[i].store, tr[i].procs[acts[i].p]);
    UpdateGoesThrough(tr[i].store, tr[i].procs[acts[i].p].read);
  }

  // ---- A call left alone ----

  function UriOf(pc: Pc): Uri
    requires InCall(pc) || pc.Done?
  {
    if pc.ReadQueue? || pc.InsertQueue? || pc.RereadQueue? || pc.Update? then pc.a.uri else pc.uri
  }

  /** How many steps a call left alone is from returning, at most. */
  function Rank(st: Store, pc: Pc): nat {
    match pc
    case Lookup(_) => 12
    case Mint(_) => 11
    case Claim(_, _) => 10
    case Reread(_) => 9
    case Load(_, _) => 8
    case Insert(_, _) => 7
    case Reload(_, _) => 6
    case ReadQueue(_) => 5
    case InsertQueue(_) => 4
    case RereadQueue(_) => 3
    case Update(_, read) => if Matches(st, read.row.version) then 2 else 6
    case Publish(_, _, _) => 1
    case _ => 0
  }

  predicate Usable(st: Store, pc: Pc, minted: Int64) {
    pc.Lookup? || pc.Mint? ==> minted > 0 && minted !in st.issued
  }

  lemma StepKeepsStore(st: Store, pc: Pc, minted: Int64)
    requires StoreInv(st) && PcInv(st, pc) && InCall(pc) && Usable(st, pc, minted)
    ensures var (t, pc') := CallStep(st, pc, minted); Keeps(st, t) && PcInv(t, pc')
  {
    if Resolving(pc) { ResolveKeeps(st, pc, minted); }
    else if Ensuring(pc) { EnsureKeeps(st, pc); }
    else { AdvanceKeeps(st, pc); }
  }

  lemma StepRaises(st: Store, pc: Pc, minted: Int64)
    requires Sound(st, pc) && InCall(pc) && |st.hist| <= INT32_RANGE
    ensures var (t, pc') := CallStep(st, pc, minted); Raises(st, t, pc')
  {
    if Resolving(pc) { ResolveRaises(st, pc, minted); }
    else if Ensuring(pc) { EnsureRaises(st, pc); }
    else { AdvanceRaises(st, pc); }
  }

  lemma StepIsSmall(st: Store, pc: Pc, minted: Int64)
    requires InCall(pc) && Stored(st) && Usable(st, pc, minted)
    ensures var (t, pc') := CallStep(st, pc, minted); Usable(t, pc', minted) && |t.hist| <= |st.hist| + 1
  {
  }

  /** A step of a call leads on within the call, or to its return, unless the
      counter gave it a value that is not positive. */
  ghost predicate LeadsOn(pc: Pc, pc': Pc) { InCall(pc) && (InCall(pc') || pc'.Done?) && UriOf(pc') == UriOf(pc) }

  lemma ResolveAnswers(st: Store, pc: Pc, minted: Int64)
    requires PcInv(st, pc) && Resolving(pc)
    ensures var pc' := ResolveStep(st, pc, minted).1;
      if pc.Mint? && minted <= 0 then pc'.Stopped? else LeadsOn(pc, pc')
  {
  }

  lemma AdvanceAnswers(st: Store, pc: Pc)
    requires StoreInv(st) && PcInv(st, pc) && Named(st) && Advancing(pc)
    ensures LeadsOn(pc, AdvanceStep(st, pc).1)
  {
    hide MapInv, RequestInv, Compare, Minted, Value;
    if pc.ReadQueue? || pc.InsertQueue? || pc.RereadQueue? {
      var t := AdvanceStep(st, pc).0;
      if t != st {
        PutKeeps(st, QueueRow("", 0, 1));
      }
      if t.queue.Some? { AfterReadAnswers(t, pc.a); }
    }
  }

  lemma StepAnswers(st: Store, pc: Pc, minted: Int64)
    requires StoreInv(st) && PcInv(st, pc) && Named(st) && InCall(pc)
    ensures var pc' := CallStep(st, pc, minted).1;
      if pc.Mint? && minted <= 0 then pc'.Stopped? else LeadsOn(pc, pc')
  {
    if Resolving(pc) { ResolveAnswers(st, pc, minted); }
    else if Advancing(pc) { AdvanceAnswers(st, pc); }
  }

  lemma StepDescends(st: Store, pc: Pc, minted: Int64)
    requires Sound(st, pc) && InCall(pc) && |st.hist| <= INT32_RANGE && Usable(st, pc, minted)
    ensures var (t, pc') := CallStep(st, pc, minted); Rank(t, pc') < Rank(st, pc)
  {
    hide Sound, Compare, FromCounter;
  }

  /** The call takes up to n steps with nobody in between. */
  ghost function Alone(st: Store, pc: Pc, minted: Int64, n: nat): (Store, Pc)
    decreases n
  {
    if n == 0 || !InCall(pc) || !Stored(st) then (st, pc)
    else
      var (t, pc') := CallStep(st, pc, minted);
      Alone(t, pc', minted, n - 1)
  }

  lemma RankOfReturned(st: Store, pc: Pc)
    ensures InCall(pc) ==> Rank(st, pc) >= 1
    ensures QueueInv(st) ==> Stored(st)
  {
  }

  lemma {:induction false} AloneReturns(st: Store, pc: Pc, minted: Int64, n: nat)
    requires Sound(st, pc) && (InCall(pc) || pc.Done?) && Usable(st, pc, minted)
    requires Rank(st, pc) <= n && |st.hist| + n <= INT32_RANGE
    ensures var (t, end) := Alone(st, pc, minted, n);
      end.Done? && end.uri == UriOf(pc) && Sound(t, end) && Grows(st, t)
    decreases n
  {
    hide StoreInv, HistInv, MarkInv, PcInv, PcMark, Rank, CallStep, Grows;
    GrowsReflexive(st);
    RankOfReturned(st, pc);
    if n > 0 && InCall(pc) {
      StepKeepsStore(st, pc, minted);
      StepRaises(st, pc, minted);
      StepIsSmall(st, pc, minted);
      SoundIsNamed(st, pc);
      StepAnswers(st, pc, minted);
      StepDescends(st, pc, minted);
      var (t, pc') := CallStep(st, pc, minted);
      AloneReturns(t, pc', minted, n - 1);
      GrowsTransitive(st, t, Alone(t, pc', minted, n - 1).0);
    }
  }

  /** From wherever a call stands, whatever the others did or left undone, it
      returns within 12 steps once it is left alone: the mapping, the row, the
      bookmark and the message are then all in place. */
  lemma CallAloneFinishes(st: Store, pc: Pc, minted: Int64)
    requires Sound(st, pc) && InCall(pc) && Usable(st, pc, minted) && |st.hist| + 12 <= INT32_RANGE
    ensures var (t, end) := Alone(st, pc, minted, 12);
      && end.Done? && end.uri == UriOf(pc)
      && (end.uri in st.uris ==> end.id == st.uris[end.uri])
      && Mapped(t, end.uri, end.id) && end.id in t.requests && end.id in t.published && Covered(t, end.id)
  {
    hide StoreInv, QueueInv, Minted, Value, CallStep, Alone;
    AloneReturns(st, pc, minted, 12);
  }

  /** A retry after any partial failure completes the missing steps: a fresh
      call from any reachable state, left alone, returns the id that was already
      mapped, if any. */
  lemma RetryHeals(tr: seq<State>, acts: seq<Action>, i: nat, uri: Uri, minted: Int64)
    requires IsRun(tr, acts) && i < |tr| && |tr[i].store.hist| + 12 <= INT32_RANGE
    requires minted > 0 && minted !in tr[i].store.issued
    ensures var st := tr[i].store;
      var (t, end) := Alone(st, Lookup(uri), minted, 12);
      && end.Done? && end.uri == uri
      && (uri in st.uris ==> end.id == st.uris[uri])
      && Mapped(t, uri, end.id) && end.id in t.requests && end.id in t.published && Covered(t, end.id)
  {
    hide MapInv, RequestInv, HistInv, MarkInv, Alone, CallStep, Minted;
    RunKeepsInv(tr, acts, i);
    RunKeepsBookmark(tr, acts, i);
    CallAloneFinishes(tr[i].store, Lookup(uri), minted);
  }
}
