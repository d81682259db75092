// One subscription of the queue consumer: the dispatcher goroutine, one worker
// goroutine per partition behind a bounded channel, cancellation and the
// closing of the delivery channel, as steps that interleave freely
// (platform/consumer/consumer.go).
module ConsumerLoop {
  import opened Wrappers

  /** A tenant-scoped partition. */
  datatype Identity = Identity(tenant: string, partitionKey: string)

  datatype Delivery = Delivery(id: nat, tenant: string, partitionKey: string, queueName: string)

  function IdentityOf(d: Delivery): Identity { Identity(d.tenant, d.partitionKey) }

  /** ValidateTenantMetadata; an absent queue name reads as the empty string. */
  predicate TenantValid(d: Delivery) {
    d.tenant != "" && (d.queueName == "" || d.queueName == d.tenant)
  }

  datatype Worker =
    | Ranging                  // blocked in, or about to enter, the range over the channel
    | Received(d: Delivery)    // took d and has not looked at the context yet
    | Processing(d: Delivery)
    | Returned

  /** A partition channel, its worker, and what became of its deliveries. */
  datatype Partition = Partition(
    key: Identity, buffer: seq<Delivery>, closed: bool, worker: Worker,
    handled: seq<Delivery>, dropped: seq<Delivery>)

  datatype Dispatcher =
    | Selecting
    | Sending(d: Delivery)
    | Closing(todo: set<nat>)  // shutdownPartitions, still to close these channels
    | Waiting                  // wg.Wait()
    | Finished                 // done is closed

  datatype State = State(
    capacity: nat,
    source: seq<Delivery>, sourceClosed: bool, cancelled: bool,
    dispatcher: Dispatcher, parts: seq<Partition>,
    arrived: seq<Delivery>, received: seq<Delivery>, rejected: seq<Delivery>,
    abandoned: seq<Delivery>, doneCloses: nat, panicked: bool)

  function Start(capacity: nat): State {
    State(capacity, [], false, false, Selecting, [], [], [], [], [], 0, false)
  }

  datatype Action =
    // the outside
    | Arrive(d: Delivery) | CloseSource | Cancel
    // the dispatcher
    | Receive | Send | CancelSend | CancelSelect | SourceEnded | CloseChannel(i: nat) | AllClosed | AllReturned
    // the worker of partition i
    | Take(i: nat) | LeaveRange(i: nat) | Look(i: nat) | Finish(i: nat)

  predicate External(a: Action) { a.Arrive? || a.CloseSource? || a.Cancel? }

  predicate WorkerStep(a: Action) { a.Take? || a.LeaveRange? || a.Look? || a.Finish? }

  /** processPartition: range over the channel, look at the context, process. */
  predicate CanTurn(p: Partition, a: Action)
    requires WorkerStep(a)
  {
    if a.Take? then p.worker.Ranging? && |p.buffer| > 0
    else if a.LeaveRange? then p.worker.Ranging? && |p.buffer| == 0 && p.closed
    else if a.Look? then p.worker.Received?
    else p.worker.Processing?
  }

  function Turn(p: Partition, cancelled: bool, a: Action): Partition
    requires WorkerStep(a) && CanTurn(p, a)
  {
    if a.Take? then p.(buffer := p.buffer[1..], worker := Received(p.buffer[0]))
    else if a.LeaveRange? then p.(worker := Returned)
    else if a.Look? then
      if cancelled then p.(worker := Returned, dropped := [p.worker.d]) else p.(worker := Processing(p.worker.d))
    else p.(worker := Ranging, handled := p.handled + [p.worker.d])
  }

  /** Where the channel of a partition is, or the number of channels if there is none. */
  function Find(parts: seq<Partition>, key: Identity): (i: nat)
    ensures i <= |parts|
    ensures i < |parts| ==> parts[i].key == key
    ensures forall j :: 0 <= j < i ==> parts[j].key != key
  {
    if |parts| == 0 then 0
    else if parts[0].key == key then 0
    else 1 + Find(parts[1..], key)
  }

  function AllOf(n: nat): (s: set<nat>)
    ensures forall i :: i in s <==> 0 <= i < n
  {
    if n == 0 then {} else AllOf(n - 1) + {n - 1}
  }

  predicate Enabled(s: State, a: Action) {
    match a
    case Arrive(_) => !s.sourceClosed
    case CloseSource => !s.sourceClosed
    case Cancel => !s.cancelled
    case Receive => s.dispatcher.Selecting? && |s.source| > 0
    case Send =>
      && s.dispatcher.Sending?
      && var i := Find(s.parts, IdentityOf(s.dispatcher.d));
         i < |s.parts| && (s.parts[i].closed || |s.parts[i].buffer| < s.capacity)
    case CancelSend => s.dispatcher.Sending? && s.cancelled
    case CancelSelect => s.dispatcher.Selecting? && s.cancelled
    case SourceEnded => s.dispatcher.Selecting? && |s.source| == 0 && s.sourceClosed
    case CloseChannel(i) => s.dispatcher.Closing? && i in s.dispatcher.todo && i < |s.parts|
    case AllClosed => s.dispatcher.Closing? && s.dispatcher.todo == {}
    case AllReturned => s.dispatcher.Waiting? && forall i :: 0 <= i < |s.parts| ==> s.parts[i].worker.Returned?
    case Take(i) => i < |s.parts| && CanTurn(s.parts[i], a)
    case LeaveRange(i) => i < |s.parts| && CanTurn(s.parts[i], a)
    case Look(i) => i < |s.parts| && CanTurn(s.parts[i], a)
    case Finish(i) => i < |s.parts| && CanTurn(s.parts[i], a)
  }

  function SetPart(s: State, i: nat, p: Partition): State
    requires i < |s.parts|
  {
    s.(parts := s.parts[i := p])
  }

  function Routed(s: State, d: Delivery): seq<Partition> {
    if Find(s.parts, IdentityOf(d)) < |s.parts| then s.parts
    else s.parts + [Partition(IdentityOf(d), [], false, Ranging, [], [])]
  }

  function Next(s: State, a: Action): State
    requires Enabled(s, a)
  {
    match a
    case Arrive(d) => s.(source := s.source + [d], arrived := s.arrived + [d])
    case CloseSource => s.(sourceClosed := true)
    case Cancel => s.(cancelled := true)
    case Receive =>
      var d := s.source[0];
      var t := s.(source := s.source[1..], received := s.received + [d]);
      if !TenantValid(d) then t.(rejected := t.rejected + [d])
      else t.(parts := Routed(s, d), dispatcher := Sending(d))
    case Send =>
      var d := s.dispatcher.d;
      var i := Find(s.parts, IdentityOf(d));
      if s.parts[i].closed then s.(panicked := true)
      else SetPart(s, i, s.parts[i].(buffer := s.parts[i].buffer + [d])).(dispatcher := Selecting)
    case CancelSend => s.(dispatcher := Closing(AllOf(|s.parts|)), abandoned := [s.dispatcher.d])
    case CancelSelect => s.(dispatcher := Closing(AllOf(|s.parts|)))
    case SourceEnded => s.(dispatcher := Closing(AllOf(|s.parts|)))
    case CloseChannel(i) =>
      var t := if s.parts[i].closed then s.(panicked := true) else SetPart(s, i, s.parts[i].(closed := true));
      t.(dispatcher := Closing(s.dispatcher.todo - {i}))
    case AllClosed => s.(dispatcher := Waiting)
    case AllReturned => s.(dispatcher := Finished, doneCloses := s.doneCloses + 1)
    case Take(i) => SetPart(s, i, Turn(s.parts[i], s.cancelled, a))
    case LeaveRange(i) => SetPart(s, i, Turn(s.parts[i], s.cancelled, a))
    case Look(i) => SetPart(s, i, Turn(s.parts[i], s.cancelled, a))
    case Finish(i) => SetPart(s, i, Turn(s.parts[i], s.cancelled, a))
  }

  // ---- What every step keeps ----

  function Mine(d: Delivery, key: Identity): seq<Delivery> {
    if TenantValid(d) && IdentityOf(d) == key then [d] else []
  }

  /** The tenant-valid deliveries of one partition, in order. */
  function Lane(ds: seq<Delivery>, key: Identity): seq<Delivery> {
    if |ds| == 0 then []
    else
      var d := ds[|ds| - 1];
      Lane(ds[..|ds| - 1], key) + Mine(d, key)
  }

  function Invalid(ds: seq<Delivery>): seq<Delivery> {
    if |ds| == 0 then []
    else
      var d := ds[|ds| - 1];
      Invalid(ds[..|ds| - 1]) + (if TenantValid(d) then [] else [d])
  }

  lemma LaneSnoc(ds: seq<Delivery>, d: Delivery, key: Identity)
    ensures Lane(ds + [d], key) == Lane(ds, key) + Mine(d, key)
    ensures Invalid(ds + [d]) == Invalid(ds) + (if TenantValid(d) then [] else [d])
  {
    assert (ds + [d])[..|ds|] == ds;
  }

  function InHand(w: Worker): (ds: seq<Delivery>)
    ensures |ds| <= 1
  {
    if w.Received? || w.Processing? then [w.d] else []
  }

  function OfKey(ds: seq<Delivery>, key: Identity): seq<Delivery> {
    if |ds| > 0 && IdentityOf(ds[0]) == key then [ds[0]] else []
  }

  /** The one delivery the dispatcher holds, or gave up when it was cancelled. */
  function AtDispatcher(s: State): seq<Delivery> {
    if s.dispatcher.Sending? then [s.dispatcher.d] else s.abandoned
  }

  /** What a partition was sent: finished, in progress, given up by the worker, waiting. */
  function Held(p: Partition): seq<Delivery> {
    p.handled + InHand(p.worker) + p.dropped + p.buffer
  }

  /** Everything received for a partition, by where it is now, first come first. */
  function Ledger(p: Partition, tail: seq<Delivery>): seq<Delivery> {
    Held(p) + OfKey(tail, p.key)
  }

  predicate PartOk(s: State, p: Partition) {
    && |p.buffer| <= s.capacity
    && |p.dropped| <= 1
    && (|p.dropped| > 0 ==> s.cancelled && p.worker.Returned?)
    && (p.worker.Returned? ==> s.cancelled || (p.closed && |p.buffer| == 0))
    && ((s.dispatcher.Selecting? || s.dispatcher.Sending?) ==> !p.closed)
    && ((s.dispatcher.Waiting? || s.dispatcher.Finished?) ==> p.closed)
    && (s.dispatcher.Finished? ==> p.worker.Returned?)
  }

  /** What the ledger says of one partition, with the delivery at the dispatcher. */
  predicate Balanced(received: seq<Delivery>, tail: seq<Delivery>, p: Partition) {
    Lane(received, p.key) == Ledger(p, tail)
  }

  ghost predicate Keyed(parts: seq<Partition>) {
    forall i, j :: 0 <= i < j < |parts| ==> parts[i].key != parts[j].key
  }

  ghost predicate Unrouted(received: seq<Delivery>, parts: seq<Partition>) {
    forall key :: Find(parts, key) == |parts| ==> Lane(received, key) == []
  }

  ghost predicate DispatcherOk(s: State) {
    && (s.dispatcher.Sending? ==>
          TenantValid(s.dispatcher.d) && Find(s.parts, IdentityOf(s.dispatcher.d)) < |s.parts|)
    && (s.dispatcher.Closing? ==>
          && (forall i :: i in s.dispatcher.todo ==> i < |s.parts|)
          && (forall i :: 0 <= i < |s.parts| ==> (s.parts[i].closed <==> i !in s.dispatcher.todo)))
    && (s.dispatcher.Selecting? || s.dispatcher.Sending? || s.cancelled || (s.sourceClosed && |s.source| == 0))
    && (|s.abandoned| > 0 ==> s.cancelled && !s.dispatcher.Selecting? && !s.dispatcher.Sending?)
    && |s.abandoned| <= 1
    && s.doneCloses == (if s.dispatcher.Finished? then 1 else 0)
  }

  ghost predicate Inv(s: State) {
    && s.capacity >= 1
    && !s.panicked
    && s.arrived == s.received + s.source
    && s.rejected == Invalid(s.received)
    && (forall i :: 0 <= i < |s.parts| ==> PartOk(s, s.parts[i]))
    && (forall i :: 0 <= i < |s.parts| ==> Balanced(s.received, AtDispatcher(s), s.parts[i]))
    && Keyed(s.parts)
    && Unrouted(s.received, s.parts)
    && DispatcherOk(s)
  }

  /** Only the keys of the channels decide where a delivery is routed. */
  lemma SameKeys(ps: seq<Partition>, qs: seq<Partition>)
    requires |ps| == |qs| && forall i :: 0 <= i < |ps| ==> ps[i].key == qs[i].key
    ensures forall key :: Find(ps, key) == Find(qs, key)
    ensures Keyed(ps) ==> Keyed(qs)
    ensures forall received :: Unrouted(received, ps) ==> Unrouted(received, qs)
  {
    forall key ensures Find(ps, key) == Find(qs, key) {
      var i, j := Find(ps, key), Find(qs, key);
      assert i < |ps| ==> qs[i].key == key;
      assert j < |qs| ==> ps[j].key == key;
    }
  }

  lemma RoutedFinds(s: State, d: Delivery, key: Identity)
    ensures Find(s.parts, key) < |s.parts| || key == IdentityOf(d) ==> Find(Routed(s, d), key) < |Routed(s, d)|
  {
    hide Find;
    var ps, i := Routed(s, d), Find(s.parts, key);
    if i < |s.parts| { assert ps[i].key == key; }
    else if key == IdentityOf(d) { assert ps[|ps| - 1].key == key || ps == s.parts; }
  }

  /** Receiving a tenant-valid delivery: a channel is there for it afterwards. */
  lemma RoutedKeeps(s: State, d: Delivery)
    requires Inv(s) && s.dispatcher.Selecting? && TenantValid(d)
    ensures var ps := Routed(s, d);
      && |ps| >= |s.parts| && ps[..|s.parts|] == s.parts
      && Find(ps, IdentityOf(d)) < |ps|
      && Keyed(ps)
      && Unrouted(s.received + [d], ps)
      && (forall i :: 0 <= i < |ps| ==> Balanced(s.received + [d], [d], ps[i]))
  {
    hide Find, Lane, Invalid;
    var ps, key := Routed(s, d), IdentityOf(d);
    assert s.abandoned == [];
    RoutedFinds(s, d, key);
    assert Find(s.parts, key) == |s.parts| ==> Lane(s.received, key) == [];
    forall i | 0 <= i < |ps| ensures Balanced(s.received + [d], [d], ps[i]) {
      LaneSnoc(s.received, d, ps[i].key);
      if i < |s.parts| { assert Balanced(s.received, AtDispatcher(s), s.parts[i]); }
    }
    forall k | Find(ps, k) == |ps| ensures Lane(s.received + [d], k) == [] {
      LaneSnoc(s.received, d, k);
      RoutedFinds(s, d, k);
    }
  }

  lemma OpenPart(s: State, t: State, p: Partition)
    requires PartOk(s, p) && t.capacity == s.capacity && t.cancelled == s.cancelled
    requires s.dispatcher.Selecting? && t.dispatcher.Sending?
    ensures PartOk(t, p)
  {
  }

  lemma FreshPart(t: State, p: Partition)
    requires t.dispatcher.Sending? && p == Partition(p.key, [], false, Ranging, [], [])
    ensures PartOk(t, p)
  {
  }

  lemma AcceptKeeps(s: State)
    requires Inv(s) && Enabled(s, Receive) && TenantValid(s.source[0])
    ensures Inv(Next(s, Receive))
  {
    hide Find, Lane, Invalid, Keyed, Unrouted, PartOk, Balanced;
    var d, t := s.source[0], Next(s, Receive);
    assert s.arrived == (s.received + [d]) + s.source[1..];
    LaneSnoc(s.received, d, IdentityOf(d));
    RoutedKeeps(s, d);
    forall i | 0 <= i < |t.parts| ensures PartOk(t, t.parts[i]) {
      if i < |s.parts| {
        assert t.parts[i] == s.parts[i];
        OpenPart(s, t, s.parts[i]);
      } else {
        FreshPart(t, t.parts[i]);
      }
    }
  }

  lemma RejectKeeps(s: State)
    requires Inv(s) && Enabled(s, Receive) && !TenantValid(s.source[0])
    ensures Inv(Next(s, Receive))
  {
    hide Find, Lane, Invalid, Keyed;
    var d, t := s.source[0], Next(s, Receive);
    assert s.arrived == (s.received + [d]) + s.source[1..];
    LaneSnoc(s.received, d, IdentityOf(d));
    forall k ensures Lane(t.received, k) == Lane(s.received, k) {
      LaneSnoc(s.received, d, k);
    }
    forall i | 0 <= i < |t.parts| ensures PartOk(t, t.parts[i]) && Balanced(t.received, AtDispatcher(t), t.parts[i]) {
      assert PartOk(s, s.parts[i]) && Balanced(s.received, AtDispatcher(s), s.parts[i]);
    }
  }

  /** Replacing one partition by one with the same key, everything else about the lanes as it was. */
  lemma SetPartKeeps(s: State, t: State, i: nat, p: Partition)
    requires Inv(s) && i < |s.parts| && p.key == s.parts[i].key && t.parts == s.parts[i := p]
    requires t.capacity == s.capacity && !t.panicked
    requires t.arrived == s.arrived && t.received == s.received && t.source == s.source && t.rejected == s.rejected
    requires PartOk(t, p) && Balanced(t.received, AtDispatcher(t), p)
    requires forall j :: 0 <= j < |s.parts| && j != i ==>
      PartOk(t, s.parts[j]) && Balanced(t.received, AtDispatcher(t), s.parts[j])
    requires DispatcherOk(t)
    ensures Inv(t)
  {
    hide Find, Lane, Invalid, Keyed, Unrouted, PartOk, Balanced, DispatcherOk;
    SameKeys(s.parts, t.parts);
  }

  lemma SendKeeps(s: State)
    requires Inv(s) && Enabled(s, Send)
    ensures Inv(Next(s, Send))
  {
    hide Find, Lane, Invalid;
    var d, t := s.dispatcher.d, Next(s, Send);
    var i := Find(s.parts, IdentityOf(d));
    var p := s.parts[i].(buffer := s.parts[i].buffer + [d]);
    assert PartOk(s, s.parts[i]) && Balanced(s.received, [d], s.parts[i]);
    assert Ledger(p, []) == Ledger(s.parts[i], [d]);
    forall j | 0 <= j < |s.parts| && j != i
      ensures PartOk(t, s.parts[j]) && Balanced(t.received, AtDispatcher(t), s.parts[j])
    {
      assert PartOk(s, s.parts[j]) && Balanced(s.received, [d], s.parts[j]);
      assert s.parts[j].key != IdentityOf(d);
    }
    SetPartKeeps(s, t, i, p);
  }

  /** The three ways into shutdownPartitions. */
  lemma ShutdownKeeps(s: State, a: Action)
    requires Inv(s) && Enabled(s, a) && (a.CancelSend? || a.CancelSelect? || a.SourceEnded?)
    ensures Inv(Next(s, a))
  {
    hide Find, Lane, Invalid, Keyed, Unrouted;
    var t := Next(s, a);
    assert AtDispatcher(t) == AtDispatcher(s);
    forall i | 0 <= i < |t.parts| ensures PartOk(t, t.parts[i]) && Balanced(t.received, AtDispatcher(t), t.parts[i]) {
      assert PartOk(s, s.parts[i]) && Balanced(s.received, AtDispatcher(s), s.parts[i]);
    }
  }

  lemma CloseChannelKeeps(s: State, i: nat)
    requires Inv(s) && Enabled(s, CloseChannel(i))
    ensures Inv(Next(s, CloseChannel(i)))
  {
    hide Find, Lane, Invalid;
    var t, p := Next(s, CloseChannel(i)), s.parts[i].(closed := true);
    assert PartOk(s, s.parts[i]) && Balanced(s.received, AtDispatcher(s), s.parts[i]);
    assert Ledger(p, AtDispatcher(s)) == Ledger(s.parts[i], AtDispatcher(s));
    forall j | 0 <= j < |s.parts| && j != i
      ensures PartOk(t, s.parts[j]) && Balanced(t.received, AtDispatcher(t), s.parts[j])
    {
      assert PartOk(s, s.parts[j]) && Balanced(s.received, AtDispatcher(s), s.parts[j]);
    }
    SetPartKeeps(s, t, i, p);
  }

  lemma ClosedKeeps(s: State, a: Action)
    requires Inv(s) && Enabled(s, a) && (a.AllClosed? || a.AllReturned?)
    ensures Inv(Next(s, a))
  {
    hide Find, Lane, Invalid, Keyed, Unrouted;
    var t := Next(s, a);
    forall i | 0 <= i < |t.parts| ensures PartOk(t, t.parts[i]) && Balanced(t.received, AtDispatcher(t), t.parts[i]) {
      assert PartOk(s, s.parts[i]) && Balanced(s.received, AtDispatcher(s), s.parts[i]);
    }
  }

  /** What the dispatcher relies on is which channels there are and which are closed. */
  lemma DispatcherSame(s: State, t: State)
    requires DispatcherOk(s) && t == s.(parts := t.parts) && |t.parts| == |s.parts|
    requires forall i :: 0 <= i < |s.parts| ==> t.parts[i].key == s.parts[i].key && t.parts[i].closed == s.parts[i].closed
    ensures DispatcherOk(t)
  {
    hide Find, Keyed, Unrouted;
    SameKeys(s.parts, t.parts);
  }

  lemma WorkerPart(s: State, a: Action)
    requires WorkerStep(a) && Enabled(s, a)
    requires PartOk(s, s.parts[a.i])
    ensures PartOk(Next(s, a), Turn(s.parts[a.i], s.cancelled, a))
    ensures Next(s, a) == SetPart(s, a.i, Turn(s.parts[a.i], s.cancelled, a))
    ensures var q := Turn(s.parts[a.i], s.cancelled, a); q.key == s.parts[a.i].key && q.closed == s.parts[a.i].closed
  {
  }

  /** A worker moves a delivery along its lane; it neither drops one nor lets one overtake. */
  lemma TurnHolds(p: Partition, cancelled: bool, a: Action)
    requires WorkerStep(a) && CanTurn(p, a)
    requires |p.dropped| > 0 ==> p.worker.Returned?
    ensures Held(Turn(p, cancelled, a)) == Held(p)
  {
    assert p.dropped == [];
    if a.Take? {
      assert p.buffer == [p.buffer[0]] + p.buffer[1..];
    } else if a.Finish? {
      assert p.handled + [p.worker.d] + [] == p.handled + [p.worker.d];
    }
  }

  lemma PartOkSame(s: State, t: State, p: Partition)
    requires t.capacity == s.capacity && t.cancelled == s.cancelled && t.dispatcher == s.dispatcher
    ensures PartOk(s, p) == PartOk(t, p)
  {
  }

  lemma TurnKeeps(p: Partition, s: State, a: Action)
    requires WorkerStep(a) && CanTurn(p, a) && PartOk(s, p) && Balanced(s.received, AtDispatcher(s), p)
    ensures Balanced(s.received, AtDispatcher(s), Turn(p, s.cancelled, a))
  {
    hide Held, Lane;
    TurnHolds(p, s.cancelled, a);
  }

  lemma WorkerKeeps(s: State, a: Action)
    requires Inv(s) && WorkerStep(a) && Enabled(s, a)
    ensures Inv(Next(s, a))
  {
    hide Find, Lane, Invalid, Keyed, Unrouted, DispatcherOk, Turn, Held, Next, PartOk, Balanced;
    var t, tail := Next(s, a), AtDispatcher(s);
    WorkerPart(s, a);
    TurnKeeps(s.parts[a.i], s, a);
    forall j | 0 <= j < |s.parts| && j != a.i
      ensures PartOk(t, s.parts[j]) && Balanced(t.received, AtDispatcher(t), s.parts[j])
    {
      PartOkSame(s, t, s.parts[j]);
    }
    DispatcherSame(s, t);
    SetPartKeeps(s, t, a.i, Turn(s.parts[a.i], s.cancelled, a));
  }

  lemma OutsideKeeps(s: State, a: Action)
    requires Inv(s) && Enabled(s, a) && External(a)
    ensures Inv(Next(s, a))
  {
    hide Find, Lane, Invalid, Keyed, Unrouted;
    var t := Next(s, a);
    forall i | 0 <= i < |t.parts| ensures PartOk(t, t.parts[i]) && Balanced(t.received, AtDispatcher(t), t.parts[i]) {
      assert PartOk(s, s.parts[i]) && Balanced(s.received, AtDispatcher(s), s.parts[i]);
    }
  }

  /** Every step keeps the ledger, the order, and the channel discipline. */
  lemma InvStep(s: State, a: Action)
    requires Inv(s) && Enabled(s, a)
    ensures Inv(Next(s, a))
  {
    hide Inv, Next;
    if External(a) { OutsideKeeps(s, a); }
    else if WorkerStep(a) { WorkerKeeps(s, a); }
    else if a.Receive? {
      if TenantValid(s.source[0]) { AcceptKeeps(s); } else { RejectKeeps(s); }
    }
    else if a.Send? { SendKeeps(s); }
    else if a.CloseChannel? { CloseChannelKeeps(s, a.i); }
    else if a.AllClosed? || a.AllReturned? { ClosedKeeps(s, a); }
    else { ShutdownKeeps(s, a); }
  }
}
