// What every step of the ingest protocol keeps. The argument is local: each
// process relies on the store only growing, and guarantees that it only grows.
module IngestInvariant {
  import opened Wrappers
  import opened ResourceIds
  import opened IngestProtocol

  // ---- Numbers behind the bookmark ----

  /** The bookmark as a number; the empty bookmark is 0. */
  ghost function Mark(row: QueueRow): int {
    if Minted(row.latest) then Value(row.latest) else 0
  }

  ghost function MarkNow(st: Store): int {
    if |st.hist| == 0 then 0 else Mark(st.hist[|st.hist| - 1])
  }

  ghost predicate Covered(st: Store, id: ReqId) { Minted(id) && Value(id) <= MarkNow(st) }

  ghost predicate Outdated(st: Store, id: ReqId) { Minted(id) && Value(id) < MarkNow(st) }

  // ---- Growth ----

  /** The mapping, the rows and the message ids are never taken back. */
  ghost predicate Grows(st: Store, t: Store) {
    && (forall u :: u in st.uris ==> u in t.uris && t.uris[u] == st.uris[u])
    && (forall id :: id in st.requests ==> id in t.requests && Kept(st.requests[id], t.requests[id]))
    && st.issued <= t.issued
    && st.published <= t.published
    && st.hist <= t.hist
  }

  /** A row keeps its identity, and what left Accepted stays as it is. */
  predicate Kept(r: Request, q: Request) {
    q.id == r.id && q.uri == r.uri && (r.state != Accepted ==> q == r)
  }

  // ---- The mapping, the rows and the messages ----

  ghost predicate MapInv(st: Store) {
    && (forall u :: u in st.uris ==> Minted(st.uris[u]) && Value(st.uris[u]) in st.issued)
    && (forall u, w :: u in st.uris && w in st.uris && st.uris[u] == st.uris[w] ==> u == w)
  }

  /** Every request row is the one its URI maps to, and a row leaves Accepted
      only after its message was published. */
  ghost predicate RequestInv(st: Store) {
    && (forall id :: id in st.requests ==> RowInv(st, st.requests[id], id))
    && (forall id :: id in st.published ==> id in st.requests)
    && (forall id :: id in st.topic ==> id in st.published)
    && Distinct(st.topic)
  }

  predicate RowInv(st: Store, r: Request, id: ReqId) {
    r.id == id && r.uri in st.uris && st.uris[r.uri] == id && (r.state != Accepted ==> id in st.published)
  }

  ghost predicate StoreInv(st: Store) { MapInv(st) && RequestInv(st) && Stored(st) }

  predicate Mapped(st: Store, uri: Uri, id: ReqId) { uri in st.uris && st.uris[uri] == id }

  /** A call whose request row exists, with its message already out unless the
      call is going to publish it. */
  predicate Ready(st: Store, uri: Uri, id: ReqId, announce: bool) {
    Mapped(st, uri, id) && id in st.requests && (!announce ==> id in st.published)
  }

  ghost predicate Unclaimed(st: Store, id: ReqId) {
    Minted(id) && Value(id) in st.issued && forall u :: u in st.uris ==> st.uris[u] != id
  }

  ghost predicate PcInv(st: Store, pc: Pc) {
    match pc
    case Claim(_, id) => Unclaimed(st, id)
    case Reread(uri) => uri in st.uris
    case Load(uri, id) => Mapped(st, uri, id)
    case Insert(uri, id) => Mapped(st, uri, id)
    case Reload(uri, id) => Mapped(st, uri, id) && id in st.requests
    case ReadQueue(a) => Ready(st, a.uri, a.id, a.announce)
    case InsertQueue(a) => Ready(st, a.uri, a.id, a.announce)
    case RereadQueue(a) => Ready(st, a.uri, a.id, a.announce) && |st.hist| > 0
    case Update(a, _) => Ready(st, a.uri, a.id, a.announce)
    case Publish(uri, id, announce) => Ready(st, uri, id, announce)
    case Done(uri, id) => Ready(st, uri, id, false)
    case Superseding(id) => id in st.published
    case Confirming(id, _) => id in st.published
    case Admitting(id) => id in st.published
    case _ => true
  }

  ghost predicate Inv(s: State) {
    && StoreInv(s.store)
    && (forall p :: p in s.procs ==> PcInv(s.store, s.procs[p]))
    && (forall p, q :: p in s.procs && q in s.procs && p != q && s.procs[p].Claim? && s.procs[q].Claim? ==>
          s.procs[p].claimed != s.procs[q].claimed)
  }

  // ---- Store operations ----

  ghost predicate Keeps(st: Store, t: Store) { Grows(st, t) && StoreInv(t) }

  lemma Unchanged(st: Store)
    requires StoreInv(st)
    ensures Keeps(st, st)
  {
  }

  lemma MintKeeps(st: Store, minted: Int64)
    requires StoreInv(st)
    ensures Keeps(st, st.(issued := st.issued + {minted}))
  {
  }

  lemma ClaimKeeps(st: Store, uri: Uri, id: ReqId)
    requires StoreInv(st) && Unclaimed(st, id) && uri !in st.uris
    ensures Keeps(st, st.(uris := st.uris[uri := id]))
  {
  }

  lemma InsertKeeps(st: Store, uri: Uri, id: ReqId)
    requires StoreInv(st) && Mapped(st, uri, id) && id !in st.requests
    ensures Keeps(st, st.(requests := st.requests[id := Request(id, uri, Accepted)]))
  {
    hide Minted, Value, Decimal;
  }

  lemma PutKeeps(st: Store, row: QueueRow)
    requires StoreInv(st)
    ensures Keeps(st, PutQueue(st, row))
  {
    hide Minted, Value, Decimal;
  }

  lemma AnnounceKeeps(st: Store, id: ReqId)
    requires StoreInv(st) && id in st.requests
    ensures Keeps(st, Announced(st, id))
  {
    hide Minted, Value, Decimal;
  }

  lemma LeaveKeeps(st: Store, id: ReqId, next: RequestState)
    requires StoreInv(st) && id in st.published
    ensures Keeps(st, Leave(st, id, next))
  {
    hide Minted, Value, Decimal;
  }

  predicate Distinct(topic: seq<ReqId>) {
    forall i, j :: 0 <= i < j < |topic| ==> topic[i] != topic[j]
  }

  lemma {:induction false} WithoutKeepsDistinct(topic: seq<ReqId>, id: ReqId)
    requires Distinct(topic)
    ensures Distinct(Without(topic, id))
  {
    if |topic| > 0 {
      var rest := Without(topic[1..], id);
      WithoutKeepsDistinct(topic[1..], id);
      if topic[0] != id {
        var r := [topic[0]] + rest;
        forall i, j | 0 <= i < j < |r| ensures r[i] != r[j] {
          assert r[j] == rest[j - 1] && rest[j - 1] in rest;
          if i > 0 { assert r[i] == rest[i - 1]; }
        }
      }
    }
  }

  lemma CollectKeeps(st: Store, id: ReqId)
    requires StoreInv(st)
    ensures Keeps(st, st.(topic := Without(st.topic, id)))
  {
    WithoutKeepsDistinct(st.topic, id);
  }

  /** What a process knows survives growth that does not map its claimed id. */
  lemma PcStable(st: Store, t: Store, pc: Pc)
    requires PcInv(st, pc) && Grows(st, t)
    requires pc.Claim? ==> forall u :: u in t.uris && u !in st.uris ==> t.uris[u] != pc.claimed
    ensures PcInv(t, pc)
  {
  }

  // ---- Each kind of step, on the store and the process that takes it ----

  /** What a step guarantees about the mapping and about claims. */
  ghost predicate ClaimsOk(st: Store, pc: Pc, t: Store, pc': Pc) {
    && (pc'.Claim? ==> Minted(pc'.claimed) && Value(pc'.claimed) !in st.issued)
    && (t.uris != st.uris ==> pc.Claim? && t.uris == st.uris[pc.uri := pc.claimed])
  }

  lemma ResolveKeeps(st: Store, pc: Pc, minted: Int64)
    requires StoreInv(st) && PcInv(st, pc) && Resolving(pc)
    requires pc.Mint? ==> minted !in st.issued
    ensures var (t, pc') := ResolveStep(st, pc, minted);
      Keeps(st, t) && PcInv(t, pc') && ClaimsOk(st, pc, t, pc')
  {
    MintKeeps(st, minted);
    if pc.Mint? && minted > 0 { MintedRoundTrip(minted); }
    if pc.Claim? && pc.uri !in st.uris { ClaimKeeps(st, pc.uri, pc.claimed); }
  }

  lemma EnsureKeeps(st: Store, pc: Pc)
    requires StoreInv(st) && PcInv(st, pc) && Ensuring(pc)
    ensures var (t, pc') := EnsureStep(st, pc);
      Keeps(st, t) && PcInv(t, pc') && ClaimsOk(st, pc, t, pc')
  {
    if pc.id !in st.requests { InsertKeeps(st, pc.uri, pc.id); }
  }

  lemma AfterReadKeeps(st: Store, a: Advance, read: Read)
    requires Ready(st, a.uri, a.id, a.announce)
    ensures PcInv(st, AfterRead(a, read)) && !AfterRead(a, read).Claim?
  {
  }

  lemma AdvanceKeeps(st: Store, pc: Pc)
    requires StoreInv(st) && PcInv(st, pc) && Advancing(pc)
    ensures var (t, pc') := AdvanceStep(st, pc);
      Keeps(st, t) && PcInv(t, pc') && ClaimsOk(st, pc, t, pc')
  {
    hide Minted, Value, Decimal, MapInv, RequestInv, Grows;
    Unchanged(st);
    var (t, pc') := AdvanceStep(st, pc);
    if t.hist != st.hist { PutKeeps(st, t.queue.value); }
    if pc.Publish? {
      AnnounceKeeps(st, pc.id);
    } else {
      PcStable(st, t, ReadQueue(pc.a));
      if !pc.Update? && t.queue.Some? { AfterReadKeeps(t, pc.a, CurrentRead(t)); }
    }
  }

  lemma WorkerKeeps(st: Store, pc: Pc)
    requires StoreInv(st) && PcInv(st, pc) && InWorker(pc)
    ensures var (t, pc') := WorkerStep(st, pc);
      Keeps(st, t) && PcInv(t, pc') && ClaimsOk(st, pc, t, pc')
  {
    hide Minted, Value, Decimal, MapInv, RequestInv, Grows;
    Unchanged(st);
    match pc
    case Superseding(id) => LeaveKeeps(st, id, Superseded);
    case Confirming(id, read) =>
      PutKeeps(st, Bumped(read.row));
      PcStable(st, PutQueue(st, Bumped(read.row)), pc);
    case Admitting(id) => LeaveKeeps(st, id, Processing);
  }

  lemma DeliverKeeps(st: Store, id: ReqId)
    requires StoreInv(st) && id in st.topic
    ensures PcInv(st, Delivered(st, id)) && !Delivered(st, id).Claim?
  {
    hide Compare;
  }

  lemma EffectKeeps(s: State, a: Action)
    requires Inv(s) && Enabled(s, a) && !a.Collect?
    ensures var (t, pc) := Effect(s, a);
      Keeps(s.store, t) && PcInv(t, pc) &&
      ClaimsOk(s.store, if a.p in s.procs then s.procs[a.p] else Idle, t, pc)
  {
    hide Minted, Value, Decimal, MapInv, RequestInv, Grows;
    Unchanged(s.store);
    match a
    case Step(p, minted) =>
      var pc := s.procs[a.p];
      if InWorker(pc) { WorkerKeeps(s.store, pc); }
      else if Resolving(pc) { ResolveKeeps(s.store, pc, a.minted); }
      else if Ensuring(pc) { EnsureKeeps(s.store, pc); }
      else { AdvanceKeeps(s.store, pc); }
    case CreateRow(_, other) => PutKeeps(s.store, QueueRow("", other, 1));
    case WriteRow(p, other) => PutKeeps(s.store, Bumped(s.procs[p].read.row.(other := other)));
    case Deliver(_, id) => DeliverKeeps(s.store, id);
    case _ =>
  }

  lemma OthersKeep(s: State, a: Action, q: Pid)
    requires Inv(s) && Enabled(s, a) && !a.Collect? && q in s.procs && q != a.p
    ensures PcInv(Effect(s, a).0, s.procs[q])
  {
    EffectKeeps(s, a);
    PcStable(s.store, Effect(s, a).0, s.procs[q]);
  }

  /** A claim that a step makes is for an id no other claim in flight holds. */
  lemma ClaimsStayApart(s: State, a: Action, q: Pid)
    requires Inv(s) && Enabled(s, a) && !a.Collect? && q in s.procs && q != a.p
    ensures var pc := Effect(s, a).1; pc.Claim? && s.procs[q].Claim? ==> pc.claimed != s.procs[q].claimed
  {
    hide Effect, MapInv, RequestInv;
    EffectKeeps(s, a);
    assert PcInv(s.store, s.procs[q]);
  }

  lemma CollectInvStep(s: State, a: Action)
    requires Inv(s) && Enabled(s, a) && a.Collect?
    ensures Inv(Next(s, a)) && Grows(s.store, Next(s, a).store)
  {
    hide Minted, Value, Decimal, MapInv, RequestInv, PcInv;
    CollectKeeps(s.store, a.collected);
    forall q | q in s.procs ensures PcInv(Next(s, a).store, s.procs[q]) {
      PcStable(s.store, Next(s, a).store, s.procs[q]);
    }
  }

  lemma InvStep(s: State, a: Action)
    requires Inv(s) && Enabled(s, a)
    ensures Inv(Next(s, a)) && Grows(s.store, Next(s, a).store)
  {
    hide Minted, Value, Decimal, MapInv, RequestInv, Grows, PcInv, Effect;
    if a.Collect? {
      CollectInvStep(s, a);
    } else {
      EffectKeeps(s, a);
      forall q | q in s.procs && q != a.p
        ensures PcInv(Effect(s, a).0, s.procs[q])
        ensures Effect(s, a).1.Claim? && s.procs[q].Claim? ==> Effect(s, a).1.claimed != s.procs[q].claimed
      {
        OthersKeep(s, a, q);
        ClaimsStayApart(s, a, q);
      }
    }
  }
}
