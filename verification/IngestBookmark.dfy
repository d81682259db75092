// The queue row and its bookmark: optimistic versions lose no write, and the
// bookmark only moves forward. Row versions are int32, so all of this is about
// queues whose row was written at most 2^32 times; UpdateGoesThrough says what
// a conditional write does in general.
module IngestBookmark {
  import opened Wrappers
  import opened ResourceIds
  import opened IngestProtocol
  import opened IngestInvariant

  /** A write changes the bookmark or the other columns, never both. */
  predicate OneField(before: QueueRow, after: QueueRow) {
    before.latest == after.latest || before.other == after.other
  }

  predicate GoodRow(st: Store, row: QueueRow) { row.latest == "" || row.latest in st.requests }

  ghost predicate HistInv(st: Store) {
    && Stored(st)
    && (|st.hist| > 0 ==> st.queue.value == st.hist[|st.hist| - 1])
    && (forall i :: 0 <= i < |st.hist| ==> GoodRow(st, st.hist[i]) && st.hist[i].version == Int32(i + 1))
    && (forall i, j :: 0 <= i <= j < |st.hist| ==> Mark(st.hist[i]) <= Mark(st.hist[j]))
    && (forall i, j :: 0 <= i < j == i + 1 < |st.hist| ==> OneField(st.hist[i], st.hist[j]))
  }

  /** The bookmark is at or past every published request, and strictly past
      every superseded one. */
  ghost predicate MarkInv(st: Store) {
    && (forall id :: id in st.published ==> Covered(st, id))
    && (forall id :: id in st.requests && st.requests[id].state == Superseded ==> Outdated(st, id))
  }

  ghost predicate QueueInv(st: Store) { HistInv(st) && MarkInv(st) }

  predicate Seen(st: Store, read: Read) { read.seen < |st.hist| && st.hist[read.seen] == read.row }

  ghost predicate PcMark(st: Store, pc: Pc) {
    match pc
    case ReadQueue(a) => a.start + a.fails <= |st.hist|
    case InsertQueue(a) => a.start + a.fails <= |st.hist|
    case RereadQueue(a) => a.start + a.fails <= |st.hist|
    case Update(a, read) =>
      Seen(st, read) && Minted(a.id) && Mark(read.row) < Value(a.id) && a.start + a.fails <= read.seen + 1
    case Publish(_, id, _) => Covered(st, id)
    case Done(_, id) => Covered(st, id)
    case Writing(read) => Seen(st, read)
    case Confirming(id, read) => Seen(st, read) && read.row.latest == id
    case Superseding(id) => Outdated(st, id)
    case _ => true
  }

  ghost predicate BookmarkInv(s: State) {
    QueueInv(s.store) && forall p :: p in s.procs ==> PcMark(s.store, s.procs[p])
  }

  // ---- Versions ----

  lemma Int32Equal(m: nat, n: nat)
    requires m <= n
    ensures Int32(m) == Int32(n) <==> (n - m) % INT32_RANGE == 0
    ensures n < m + INT32_RANGE ==> (Int32(m) == Int32(n) <==> m == n)
  {
  }

  lemma Int32Bump(n: nat)
    ensures Int32(Int32(n) + 1) == Int32(n + 1)
  {
  }

  /** Exactly when a conditional write goes through: the writes since the read
      number a multiple of 2^32 - short of that many, exactly when there was
      none. */
  lemma UpdateGoesThrough(st: Store, read: Read)
    requires HistInv(st) && Seen(st, read)
    ensures Matches(st, read.row.version) <==> (|st.hist| - 1 - read.seen) % INT32_RANGE == 0
    ensures |st.hist| <= INT32_RANGE ==> (Matches(st, read.row.version) <==> read.seen == |st.hist| - 1)
  {
    Int32Equal(read.seen + 1, |st.hist|);
  }

  lemma MintedNotEmpty(id: ReqId)
    requires Minted(id)
    ensures id != "" && Value(id) >= 1
  {
    DecimalShape(Value(id));
  }

  lemma EmptyMark()
    ensures forall row: QueueRow :: row.latest == "" ==> Mark(row) == 0
  {
    if Minted("") { MintedNotEmpty(""); }
  }

  // ---- Store operations ----

  /** Marks only move up, so what processes know about them is stable. */
  ghost predicate Rises(st: Store, t: Store) { st.hist <= t.hist && MarkNow(st) <= MarkNow(t) }

  lemma PcMarkStable(st: Store, t: Store, pc: Pc)
    requires PcMark(st, pc) && Rises(st, t)
    ensures PcMark(t, pc)
  {
  }

  lemma PutKeepsQueue(st: Store, row: QueueRow)
    requires QueueInv(st) && GoodRow(st, row) && row.version == Int32(|st.hist| + 1)
    requires |st.hist| > 0 ==> OneField(st.queue.value, row)
    requires MarkNow(st) <= Mark(row)
    ensures QueueInv(PutQueue(st, row)) && Rises(st, PutQueue(st, row))
  {
    var t := PutQueue(st, row);
    assert MarkNow(t) == Mark(row);
    forall i, j | 0 <= i <= j < |t.hist| ensures Mark(t.hist[i]) <= Mark(t.hist[j]) {
      if j == |st.hist| && i < j { assert Mark(st.hist[i]) <= Mark(st.hist[j - 1]); }
    }
    forall i, j | 0 <= i < j == i + 1 < |t.hist| ensures OneField(t.hist[i], t.hist[j]) {
    }
  }

  lemma CreateKeepsQueue(st: Store, other: int)
    requires QueueInv(st) && st.queue.None?
    ensures var t := PutQueue(st, QueueRow("", other, 1)); QueueInv(t) && Rises(st, t)
  {
    EmptyMark();
    PutKeepsQueue(st, QueueRow("", other, 1));
  }

  /** A write back on top of the row that was read. */
  lemma WriteKeepsQueue(st: Store, read: Read, row: QueueRow)
    requires QueueInv(st) && Seen(st, read) && Matches(st, read.row.version) && |st.hist| <= INT32_RANGE
    requires GoodRow(st, row) && OneField(read.row, row) && row.version == read.row.version
    requires Mark(read.row) <= Mark(row)
    ensures var t := PutQueue(st, Bumped(row)); QueueInv(t) && Rises(st, t)
  {
    UpdateGoesThrough(st, read);
    Int32Bump(|st.hist|);
    PutKeepsQueue(st, Bumped(row));
  }

  lemma AnnounceKeepsQueue(st: Store, id: ReqId)
    requires QueueInv(st) && Covered(st, id)
    ensures QueueInv(Announced(st, id)) && Rises(st, Announced(st, id))
  {
  }

  lemma LeaveKeepsQueue(st: Store, id: ReqId, next: RequestState)
    requires QueueInv(st) && (next == Superseded ==> Outdated(st, id))
    ensures QueueInv(Leave(st, id, next)) && Rises(st, Leave(st, id, next))
  {
  }

  lemma OtherColumnsKeepQueue(st: Store, t: Store)
    requires QueueInv(st)
    requires t.queue == st.queue && t.hist == st.hist && t.published == st.published
    requires forall id :: id in st.requests ==> id in t.requests
    requires forall id :: id in t.requests ==> t.requests[id].state == Accepted || (id in st.requests && t.requests[id] == st.requests[id])
    ensures QueueInv(t) && Rises(st, t)
  {
  }

  // ---- Each kind of step ----

  ghost predicate Raises(st: Store, t: Store, pc: Pc) { QueueInv(t) && Rises(st, t) && PcMark(t, pc) }

  lemma ResolveRaises(st: Store, pc: Pc, minted: Int64)
    requires QueueInv(st) && Resolving(pc)
    ensures var (t, pc') := ResolveStep(st, pc, minted); Raises(st, t, pc')
  {
    OtherColumnsKeepQueue(st, ResolveStep(st, pc, minted).0);
  }

  lemma EnsureRaises(st: Store, pc: Pc)
    requires QueueInv(st) && Ensuring(pc)
    ensures var (t, pc') := EnsureStep(st, pc); Raises(st, t, pc')
  {
    OtherColumnsKeepQueue(st, EnsureStep(st, pc).0);
  }

  /** The bookmark is empty or the id of a request. */
  predicate Named(st: Store) { st.queue.Some? ==> GoodRow(st, st.queue.value) }

  lemma NamedIsMinted(st: Store, id: ReqId)
    requires StoreInv(st) && Named(st)
    ensures id in st.requests ==> Minted(id)
    ensures st.queue.Some? && st.queue.value.latest != "" ==> Minted(st.queue.value.latest)
  {
    if id in st.requests { assert RowInv(st, st.requests[id], id); }
    if st.queue.Some? && st.queue.value.latest != "" {
      assert RowInv(st, st.requests[st.queue.value.latest], st.queue.value.latest);
    }
  }

  lemma ReadMinted(st: Store, id: ReqId)
    requires StoreInv(st) && HistInv(st)
    ensures Named(st)
    ensures id in st.requests ==> Minted(id)
    ensures st.queue.Some? && st.queue.value.latest != "" ==> Minted(st.queue.value.latest)
  {
    assert |st.hist| > 0 ==> GoodRow(st, st.hist[|st.hist| - 1]);
    NamedIsMinted(st, id);
  }

  /** Reading the row never makes a call fail on an id it cannot compare. */
  lemma AfterReadAnswers(st: Store, a: Advance)
    requires StoreInv(st) && Named(st) && st.queue.Some? && a.id in st.requests
    ensures var pc := AfterRead(a, CurrentRead(st));
      pc == Publish(a.uri, a.id, a.announce) || pc == Update(a, CurrentRead(st))
  {
    NamedIsMinted(st, a.id);
    if st.queue.value.latest != "" { CompareIsNumeric(a.id, st.queue.value.latest); }
  }

  lemma AfterReadRaises(st: Store, a: Advance)
    requires StoreInv(st) && QueueInv(st) && st.queue.Some? && a.id in st.requests
    requires a.start + a.fails <= |st.hist|
    ensures PcMark(st, AfterRead(a, CurrentRead(st)))
  {
    var latest := st.queue.value.latest;
    ReadMinted(st, a.id);
    EmptyMark();
    if latest != "" { CompareIsNumeric(a.id, latest); }
  }

  lemma UpdateRaises(st: Store, a: Advance, read: Read)
    requires QueueInv(st) && PcMark(st, Update(a, read)) && a.id in st.requests && |st.hist| <= INT32_RANGE
    ensures var (t, pc') := AdvanceStep(st, Update(a, read)); Raises(st, t, pc')
  {
    if Matches(st, read.row.version) {
      WriteKeepsQueue(st, read, read.row.(latest := a.id));
    } else {
      UpdateGoesThrough(st, read);
    }
  }

  lemma AdvanceRaises(st: Store, pc: Pc)
    requires StoreInv(st) && PcInv(st, pc) && QueueInv(st) && PcMark(st, pc) && Advancing(pc) && |st.hist| <= INT32_RANGE
    ensures var (t, pc') := AdvanceStep(st, pc); Raises(st, t, pc')
  {
    if pc.Publish? {
      AnnounceKeepsQueue(st, pc.id);
    } else if pc.Update? {
      UpdateRaises(st, pc.a, pc.read);
    } else {
      var t := AdvanceStep(st, pc).0;
      if t != st {
        CreateKeepsQueue(st, 0);
        PutKeeps(st, QueueRow("", 0, 1));
      }
      if t.queue.Some? { AfterReadRaises(t, pc.a); }
    }
  }

  lemma WorkerRaises(st: Store, pc: Pc)
    requires QueueInv(st) && PcMark(st, pc) && InWorker(pc) && |st.hist| <= INT32_RANGE
    ensures var (t, pc') := WorkerStep(st, pc); Raises(st, t, pc')
  {
    match pc
    case Superseding(id) => LeaveKeepsQueue(st, id, Superseded);
    case Confirming(id, read) =>
      if Matches(st, read.row.version) { WriteKeepsQueue(st, read, read.row); }
    case Admitting(id) => LeaveKeepsQueue(st, id, Processing);
  }

  /** A published request that is not older than the bookmark is the bookmark,
      so the process stage admits nothing else. */
  lemma DeliverRaises(st: Store, id: ReqId)
    requires StoreInv(st) && QueueInv(st) && id in st.published
    ensures PcMark(st, Delivered(st, id))
  {
    ReadMinted(st, id);
    assert Covered(st, id);
    if st.queue.Some? { CompareIsNumeric(id, st.queue.value.latest); }
  }

  lemma StepEffectRaises(s: State, a: Action)
    requires Inv(s) && BookmarkInv(s) && Enabled(s, a) && a.Step? && |s.store.hist| <= INT32_RANGE
    ensures var (t, pc) := Effect(s, a); Raises(s.store, t, pc)
  {
    hide ResolveStep, EnsureStep, AdvanceStep, WorkerStep, Raises, StoreInv, QueueInv, PcInv, PcMark;
    var st, pc := s.store, s.procs[a.p];
    if InWorker(pc) { WorkerRaises(st, pc); }
    else if Resolving(pc) { ResolveRaises(st, pc, a.minted); }
    else if Ensuring(pc) { EnsureRaises(st, pc); }
    else { AdvanceRaises(st, pc); }
  }

  lemma WriterEffectRaises(s: State, a: Action)
    requires Inv(s) && BookmarkInv(s) && Enabled(s, a) && !a.Step? && !a.Collect? && |s.store.hist| <= INT32_RANGE
    ensures var (t, pc) := Effect(s, a); Raises(s.store, t, pc)
  {
    var st := s.store;
    match a
    case CreateRow(_, other) => CreateKeepsQueue(st, other);
    case WriteRow(p, other) =>
      var read := s.procs[p].read;
      if Matches(st, read.row.version) { WriteKeepsQueue(st, read, read.row.(other := other)); }
    case Deliver(_, id) => DeliverRaises(st, id);
    case _ =>
  }

  lemma EffectRaises(s: State, a: Action)
    requires Inv(s) && BookmarkInv(s) && Enabled(s, a) && !a.Collect? && |s.store.hist| <= INT32_RANGE
    ensures var (t, pc) := Effect(s, a); Raises(s.store, t, pc)
  {
    hide Inv, BookmarkInv, Enabled, Effect, Raises;
    if a.Step? { StepEffectRaises(s, a); } else { WriterEffectRaises(s, a); }
  }

  lemma BookmarkStep(s: State, a: Action)
    requires Inv(s) && BookmarkInv(s) && Enabled(s, a) && |s.store.hist| <= INT32_RANGE
    ensures BookmarkInv(Next(s, a)) && Rises(s.store, Next(s, a).store)
  {
    var t := Next(s, a).store;
    if a.Collect? { OtherColumnsKeepQueue(s.store, t); } else { EffectRaises(s, a); }
    forall q | q in s.procs && (a.Collect? || q != a.p) ensures PcMark(t, s.procs[q]) {
      PcMarkStable(s.store, t, s.procs[q]);
    }
  }

  // ---- The bookmark can always be compared, however often the row was written ----

  /** A queue row as some process has read it. */
  predicate ReadsRow(pc: Pc) { pc.Update? || pc.Writing? || pc.Confirming? }

  predicate NamesRequest(st: Store, pc: Pc) { ReadsRow(pc) ==> GoodRow(st, pc.read.row) }

  /** Every bookmark, stored or read, is empty or the id of a request. */
  ghost predicate NameInv(s: State) {
    Named(s.store) && forall p :: p in s.procs ==> NamesRequest(s.store, s.procs[p])
  }

  lemma NamesStay(st: Store, t: Store, pc: Pc)
    requires Grows(st, t) && NamesRequest(st, pc)
    ensures NamesRequest(t, pc)
    ensures Named(st) && t.queue == st.queue ==> Named(t)
  {
  }

  lemma StepNames(s: State, a: Action)
    requires Inv(s) && NameInv(s) && Enabled(s, a) && a.Step?
    ensures var (t, pc) := Effect(s, a); Grows(s.store, t) ==> Named(t) && NamesRequest(t, pc)
  {
    hide Minted, Value, Decimal, Compare, MapInv, RequestInv, FromCounter;
    assert NamesRequest(s.store, s.procs[a.p]) && PcInv(s.store, s.procs[a.p]);
  }

  lemma WriterNames(s: State, a: Action)
    requires Inv(s) && NameInv(s) && Enabled(s, a) && !a.Step? && !a.Collect?
    ensures var (t, pc) := Effect(s, a); Grows(s.store, t) ==> Named(t) && NamesRequest(t, pc)
  {
    hide Minted, Value, Decimal, Compare, MapInv, RequestInv;
    assert a.WriteRow? ==> NamesRequest(s.store, s.procs[a.p]);
  }

  lemma NameStep(s: State, a: Action)
    requires Inv(s) && NameInv(s) && Enabled(s, a)
    ensures NameInv(Next(s, a))
  {
    hide Inv, Enabled, Effect, Grows, NamesRequest, Named;
    InvStep(s, a);
    var t := Next(s, a);
    if a.Step? { StepNames(s, a); } else if !a.Collect? { WriterNames(s, a); }
    forall p | p in s.procs && (a.Collect? || p != a.p) ensures NamesRequest(t.store, s.procs[p]) {
      NamesStay(s.store, t.store, s.procs[p]);
    }
    if a.Collect? { CollectNames(s, a); }
  }

  lemma CollectNames(s: State, a: Action)
    requires NameInv(s) && Enabled(s, a) && a.Collect?
    ensures Named(Next(s, a).store)
  {
  }
}
