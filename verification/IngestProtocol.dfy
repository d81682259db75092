// Stovepipe ingest as a protocol: any number of Ingest calls, process-stage
// workers and other queue-row writers interleave one store operation at a
// time, and any of them may stop before any operation
// (stovepipe/controller/ingest.go, stovepipe/controller/process/process.go).
// One queue: every store is bound to its queue.
module IngestProtocol {
  import opened Wrappers
  import opened ResourceIds

  type Uri = string
  type ReqId = string
  type Pid = nat

  const INT32_RANGE := 0x1_0000_0000

  /** Two's-complement int32: the row version is an int32 that writers bump. */
  function Int32(n: int): int {
    (n + 0x8000_0000) % INT32_RANGE - 0x8000_0000
  }

  datatype RequestState = Accepted | Processing | Superseded

  datatype Request = Request(id: ReqId, uri: Uri, state: RequestState)

  /** `other` stands for every column of the queue row that ingest does not set. */
  datatype QueueRow = QueueRow(latest: ReqId, other: int, version: int)

  /** `hist` is every value the queue row has held, oldest first; `published`
      is every message id the topic ever accepted, `topic` the rows it still
      retains; `issued` is every value the counter has returned. */
  datatype Store = Store(
    uris: map<Uri, ReqId>,
    requests: map<ReqId, Request>,
    queue: Option<QueueRow>,
    hist: seq<QueueRow>,
    issued: set<int>,
    topic: seq<ReqId>,
    published: set<ReqId>)

  /** The bookmark loop of one call: how often the queue row had been written
      when the loop began, and how many of its updates have failed. */
  datatype Advance = Advance(uri: Uri, id: ReqId, announce: bool, start: nat, fails: nat)

  /** A queue row as it was read; `seen` is the write that produced it. */
  datatype Read = Read(row: QueueRow, seen: nat)

  /** Where a process stands: inside Ingest, in the process stage, or as some
      other writer of the queue row. */
  datatype Pc =
    | Lookup(uri: Uri)
    | Mint(uri: Uri)
    | Claim(uri: Uri, claimed: ReqId)
    | Reread(uri: Uri)
    | Load(uri: Uri, id: ReqId)
    | Insert(uri: Uri, id: ReqId)
    | Reload(uri: Uri, id: ReqId)
    | ReadQueue(a: Advance)
    | InsertQueue(a: Advance)
    | RereadQueue(a: Advance)
    | Update(a: Advance, read: Read)
    | Publish(uri: Uri, id: ReqId, announce: bool)
    | Done(uri: Uri, id: ReqId)
    | Stopped
    | Idle
    | Writing(read: Read)
    | Superseding(request: ReqId)
    | Confirming(request: ReqId, read: Read)
    | Admitting(request: ReqId)

  datatype State = State(store: Store, procs: map<Pid, Pc>)

  const Start := State(Store(map[], map[], None, [], {}, [], {}), map[])

  // ---- Store operations ----

  function PutQueue(st: Store, row: QueueRow): Store {
    st.(queue := Some(row), hist := st.hist + [row])
  }

  /** The conditional write of the queue store: it looks at the version only. */
  predicate Matches(st: Store, oldVersion: int) {
    st.queue.Some? && st.queue.value.version == oldVersion
  }

  function Bumped(row: QueueRow): QueueRow { row.(version := Int32(row.version + 1)) }

  function CurrentRead(st: Store): Read
    requires st.queue.Some? && |st.hist| > 0
  {
    Read(st.queue.value, |st.hist| - 1)
  }

  /** A publish whose id the topic still retains is dropped. */
  function Announced(st: Store, id: ReqId): Store {
    st.(topic := if id in st.topic then st.topic else st.topic + [id], published := st.published + {id})
  }

  /** A conditional write of a request row that is retried until the row is
      either moved on from Accepted or seen to have left it. */
  function Leave(st: Store, id: ReqId, next: RequestState): Store {
    if id in st.requests && st.requests[id].state == Accepted
    then st.(requests := st.requests[id := st.requests[id].(state := next)])
    else st
  }

  function Without(topic: seq<ReqId>, id: ReqId): (r: seq<ReqId>)
    ensures forall x :: x in r <==> x in topic && x != id
  {
    if |topic| == 0 then []
    else if topic[0] == id then Without(topic[1..], id)
    else [topic[0]] + Without(topic[1..], id)
  }

  // ---- The ingest call ----

  predicate Resolving(pc: Pc) { pc.Lookup? || pc.Mint? || pc.Claim? || pc.Reread? }

  predicate Ensuring(pc: Pc) { pc.Load? || pc.Insert? || pc.Reload? }

  predicate Advancing(pc: Pc) { pc.ReadQueue? || pc.InsertQueue? || pc.RereadQueue? || pc.Update? || pc.Publish? }

  predicate InCall(pc: Pc) { Resolving(pc) || Ensuring(pc) || Advancing(pc) }

  /** resolveID: look up, mint, claim, and re-read after a lost claim. */
  function ResolveStep(st: Store, pc: Pc, minted: Int64): (Store, Pc)
    requires Resolving(pc)
  {
    match pc
    case Lookup(uri) => (st, if uri in st.uris then Load(uri, st.uris[uri]) else Mint(uri))
    case Mint(uri) =>
      (st.(issued := st.issued + {minted}),
       match FromCounter(minted)
       case Ok(id) => Claim(uri, id)
       case Err(_) => Stopped)
    case Claim(uri, id) =>
      if uri in st.uris then (st, Reread(uri))
      else (st.(uris := st.uris[uri := id]), Load(uri, id))
    case Reread(uri) => (st, if uri in st.uris then Load(uri, st.uris[uri]) else Stopped)
  }

  function Loaded(st: Store, uri: Uri, id: ReqId): Pc
    requires id in st.requests
  {
    ReadQueue(Advance(uri, id, st.requests[id].state == Accepted, |st.hist|, 0))
  }

  /** ensureRequest: get, create Accepted, and re-read after a lost create. */
  function EnsureStep(st: Store, pc: Pc): (Store, Pc)
    requires Ensuring(pc)
  {
    match pc
    case Load(uri, id) => (st, if id in st.requests then Loaded(st, uri, id) else Insert(uri, id))
    case Insert(uri, id) =>
      if id in st.requests then (st, Reload(uri, id))
      else
        var t := st.(requests := st.requests[id := Request(id, uri, Accepted)]);
        (t, Loaded(t, uri, id))
    case Reload(uri, id) => (st, if id in st.requests then Loaded(st, uri, id) else Stopped)
  }

  /** What the call does with the queue row it has just read. */
  function AfterRead(a: Advance, read: Read): Pc {
    if read.row.latest == "" then Update(a, read)
    else
      match Compare(a.id, read.row.latest)
      case Err(_) => Stopped
      case Ok(cmp) => if cmp <= 0 then Publish(a.uri, a.id, a.announce) else Update(a, read)
  }

  predicate Stored(st: Store) { st.queue.Some? <==> |st.hist| > 0 }

  /** advanceQueueLatestRequestID, then publishProcess. */
  function AdvanceStep(st: Store, pc: Pc): (Store, Pc)
    requires Advancing(pc) && Stored(st)
  {
    match pc
    case ReadQueue(a) => (st, if st.queue.Some? then AfterRead(a, CurrentRead(st)) else InsertQueue(a))
    case InsertQueue(a) =>
      if st.queue.Some? then (st, RereadQueue(a))
      else
        var t := PutQueue(st, QueueRow("", 0, 1));
        (t, AfterRead(a, CurrentRead(t)))
    case RereadQueue(a) => (st, if st.queue.Some? then AfterRead(a, CurrentRead(st)) else Stopped)
    case Update(a, read) =>
      if Matches(st, read.row.version) then
        (PutQueue(st, Bumped(read.row.(latest := a.id))), Publish(a.uri, a.id, a.announce))
      else (st, ReadQueue(a.(fails := a.fails + 1)))
    case Publish(uri, id, announce) => (if announce then Announced(st, id) else st, Done(uri, id))
  }

  function CallStep(st: Store, pc: Pc, minted: Int64): (Store, Pc)
    requires InCall(pc) && Stored(st)
  {
    if Resolving(pc) then ResolveStep(st, pc, minted)
    else if Ensuring(pc) then EnsureStep(st, pc)
    else AdvanceStep(st, pc)
  }

  // ---- Everybody else ----

  predicate InWorker(pc: Pc) { pc.Superseding? || pc.Confirming? || pc.Admitting? }

  /** The process stage takes a delivery: it reads the request and the queue
      row, and chooses between superseding and admitting. */
  function Delivered(st: Store, id: ReqId): Pc
    requires Stored(st)
  {
    if id !in st.requests || st.requests[id].state != Accepted || st.queue.None? || st.queue.value.latest == "" then Idle
    else
      match Compare(id, st.queue.value.latest)
      case Err(_) => Idle
      case Ok(cmp) => if cmp < 0 then Superseding(id) else Confirming(id, CurrentRead(st))
  }

  function WorkerStep(st: Store, pc: Pc): (Store, Pc)
    requires InWorker(pc)
  {
    match pc
    case Superseding(id) => (Leave(st, id, Superseded), Idle)
    case Confirming(id, read) =>
      if Matches(st, read.row.version) then (PutQueue(st, Bumped(read.row)), Admitting(id)) else (st, Idle)
    case Admitting(id) => (Leave(st, id, Processing), Idle)
  }

  /** A writer that owns the other columns writes back what it read. */
  function WriteStep(st: Store, read: Read, other: int): Store {
    if Matches(st, read.row.version) then PutQueue(st, Bumped(read.row.(other := other))) else st
  }

  // ---- The transition system ----

  datatype Action =
    | Begin(p: Pid, uri: Uri)
    | Spawn(p: Pid)
    | Step(p: Pid, minted: Int64)
    | Stop(p: Pid)
    | CreateRow(p: Pid, other: int)
    | ReadRow(p: Pid)
    | WriteRow(p: Pid, other: int)
    | Deliver(p: Pid, delivered: ReqId)
    | Collect(collected: ReqId)

  predicate Enabled(s: State, a: Action) {
    && Stored(s.store)
    && match a
       case Begin(p, _) => p !in s.procs
       case Spawn(p) => p !in s.procs
       case Step(p, minted) =>
         && p in s.procs && (InCall(s.procs[p]) || InWorker(s.procs[p]))
         && (s.procs[p].Mint? ==> minted !in s.store.issued)
       case Stop(p) => p in s.procs && !s.procs[p].Done?
       case CreateRow(p, _) => p in s.procs && s.procs[p].Idle? && s.store.queue.None?
       case ReadRow(p) => p in s.procs && s.procs[p].Idle? && s.store.queue.Some?
       case WriteRow(p, _) => p in s.procs && s.procs[p].Writing?
       case Deliver(p, id) => p in s.procs && s.procs[p].Idle? && id in s.store.topic
       case Collect(id) => id in s.store.topic
  }

  function Effect(s: State, a: Action): (Store, Pc)
    requires Enabled(s, a) && !a.Collect?
  {
    var st := s.store;
    match a
    case Begin(_, uri) => (st, Lookup(uri))
    case Spawn(_) => (st, Idle)
    case Step(p, minted) =>
      if InCall(s.procs[p]) then CallStep(st, s.procs[p], minted) else WorkerStep(st, s.procs[p])
    case Stop(_) => (st, Stopped)
    case CreateRow(_, other) => (PutQueue(st, QueueRow("", other, 1)), Idle)
    case ReadRow(_) => (st, Writing(CurrentRead(st)))
    case WriteRow(p, other) => (WriteStep(st, s.procs[p].read, other), Idle)
    case Deliver(_, id) => (st, Delivered(st, id))
  }

  function Next(s: State, a: Action): State
    requires Enabled(s, a)
  {
    if a.Collect? then s.(store := s.store.(topic := Without(s.store.topic, a.collected)))
    else
      var (st, pc) := Effect(s, a);
      State(st, s.procs[a.p := pc])
  }
}
