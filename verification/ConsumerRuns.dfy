// The queue consumer over whole runs: order, conservation, channel discipline,
// and a shutdown that cannot hang (platform/consumer/consumer.go).
module ConsumerRuns {
  import opened ConsumerLoop

  /** Any interleaving of steps from a subscription of at least one message per batch. */
  ghost predicate IsRun(capacity: nat, tr: seq<State>, acts: seq<Action>) {
    && capacity >= 1
    && |tr| == |acts| + 1
    && tr[0] == Start(capacity)
    && forall i :: 0 <= i < |acts| ==> Enabled(tr[i], acts[i]) && tr[i + 1] == Next(tr[i], acts[i])
  }

  lemma {:induction false} RunKeepsInv(capacity: nat, tr: seq<State>, acts: seq<Action>, i: nat)
    requires IsRun(capacity, tr, acts) && i < |tr|
    ensures Inv(tr[i])
  {
    if i > 0 {
      hide Inv, Next, Enabled;
      RunKeepsInv(capacity, tr, acts, i - 1);
      InvStep(tr[i - 1], acts[i - 1]);
    }
  }

  // ---- Order and conservation ----

  lemma LaneConcatOne(a: seq<Delivery>, c: seq<Delivery>, d: Delivery, key: Identity)
    requires Lane(a + c, key) == Lane(a, key) + Lane(c, key)
    ensures Lane(a + (c + [d]), key) == Lane(a, key) + Lane(c + [d], key)
  {
    hide Lane, Mine;
    LaneSnoc(a + c, d, key);
    LaneSnoc(c, d, key);
    assert a + (c + [d]) == (a + c) + [d];
    var x, y, z := Lane(a, key), Lane(c, key), Mine(d, key);
    assert (x + y) + z == x + (y + z);
  }

  lemma LaneOfNothing(key: Identity)
    ensures Lane([], key) == []
  {
  }

  lemma {:induction false} LaneConcat(a: seq<Delivery>, b: seq<Delivery>, key: Identity)
    ensures Lane(a + b, key) == Lane(a, key) + Lane(b, key)
    decreases |b|
  {
    hide Lane, Mine;
    if |b| == 0 {
      LaneOfNothing(key);
      assert a + b == a && b == [];
      assert Lane(a, key) + [] == Lane(a, key);
    } else {
      var c, d := b[..|b| - 1], b[|b| - 1];
      LaneConcat(a, c, key);
      LaneConcatOne(a, c, d, key);
      assert b == c + [d];
    }
  }

  lemma HeldIsPrefix(p: Partition, tail: seq<Delivery>)
    ensures p.handled <= Ledger(p, tail)
    ensures Ledger(p, tail) == p.handled + InHand(p.worker) + p.dropped + p.buffer + OfKey(tail, p.key)
  {
    assert Held(p) == p.handled + (InHand(p.worker) + p.dropped + p.buffer);
  }

  lemma {:induction false} CapacityStays(capacity: nat, tr: seq<State>, acts: seq<Action>, i: nat)
    requires IsRun(capacity, tr, acts) && i < |tr|
    ensures tr[i].capacity == capacity
  {
    if i > 0 {
      hide Enabled;
      CapacityStays(capacity, tr, acts, i - 1);
      SameCapacity(tr[i - 1], acts[i - 1]);
    }
  }

  lemma SameCapacity(s: State, a: Action)
    requires Enabled(s, a)
    ensures Next(s, a).capacity == s.capacity
  {
  }

  /**
   * Per partition, what was handled, what is in progress, what a stopped worker
   * gave up, what is buffered and what the dispatcher holds are together exactly
   * what was received, in arrival order; nothing is given up before cancellation.
   */
  lemma LaneLedger(capacity: nat, tr: seq<State>, acts: seq<Action>, i: nat, k: nat)
    requires IsRun(capacity, tr, acts) && i < |tr| && k < |tr[i].parts|
    ensures var (s, p) := (tr[i], tr[i].parts[k]);
      && Lane(s.received, p.key) ==
           p.handled + InHand(p.worker) + p.dropped + p.buffer + OfKey(AtDispatcher(s), p.key)
      && p.handled <= Lane(s.received, p.key) <= Lane(s.arrived, p.key)
      && (!s.cancelled ==> p.dropped == [] && s.abandoned == [])
      && |p.dropped| + |InHand(p.worker)| <= 1 && |p.buffer| <= capacity
  {
    CapacityStays(capacity, tr, acts, i);
    hide Lane, Find, Keyed, Unrouted, Ledger, Next, Enabled;
    var s, p := tr[i], tr[i].parts[k];
    RunKeepsInv(capacity, tr, acts, i);
    assert PartOk(s, p) && Balanced(s.received, AtDispatcher(s), p);
    LaneConcat(s.received, s.source, p.key);
    HeldIsPrefix(p, AtDispatcher(s));
  }

  // ---- The same in a delivery's own fields ----

  /** A lane holds the tenant-valid deliveries of one tenant and one partition key, and only those. */
  lemma {:induction false} LaneMembers(ds: seq<Delivery>, key: Identity, d: Delivery)
    ensures d in Lane(ds, key) <==>
      && d in ds && d.tenant == key.tenant && d.partitionKey == key.partitionKey
      && d.tenant != "" && (d.queueName == "" || d.queueName == d.tenant)
    ensures d in Invalid(ds) <==> d in ds && (d.tenant == "" || (d.queueName != "" && d.queueName != d.tenant))
  {
    if |ds| > 0 {
      var front, last := ds[..|ds| - 1], ds[|ds| - 1];
      LaneMembers(front, key, d);
      assert ds == front + [last];
    }
  }

  /** It holds every one of them, in the order of their positions. */
  lemma {:induction false} LanePositions(ds: seq<Delivery>, key: Identity) returns (at: seq<nat>)
    ensures |at| == |Lane(ds, key)|
    ensures forall i, j :: 0 <= i < j < |at| ==> at[i] < at[j]
    ensures forall i :: 0 <= i < |at| ==> at[i] < |ds| && Lane(ds, key)[i] == ds[at[i]]
    ensures forall n :: (
      && 0 <= n < |ds| && ds[n].tenant == key.tenant && ds[n].partitionKey == key.partitionKey
      && ds[n].tenant != "" && (ds[n].queueName == "" || ds[n].queueName == ds[n].tenant)) ==> n in at
  {
    at := [];
    if |ds| > 0 {
      var n := |ds| - 1;
      at := LanePositions(ds[..n], key);
      if TenantValid(ds[n]) && IdentityOf(ds[n]) == key {
        assert forall m :: m in at ==> m in at + [n];
        assert n in at + [n];
        at := at + [n];
      }
    }
  }

  /**
   * Over every run: what a partition holds has its tenant and its partition key,
   * what was rejected is what names no tenant or another queue, and two
   * deliveries share a channel exactly if tenant and partition key agree.
   */
  lemma PartitionsByTenantAndKey(capacity: nat, tr: seq<State>, acts: seq<Action>, i: nat, j: nat, k: nat, d: Delivery, e: Delivery)
    requires IsRun(capacity, tr, acts) && i < |tr| && j < |tr[i].parts| && k < |tr[i].parts|
    ensures d in Held(tr[i].parts[j]) ==>
      && d.tenant == tr[i].parts[j].key.tenant && d.partitionKey == tr[i].parts[j].key.partitionKey
      && d.tenant != "" && (d.queueName == "" || d.queueName == d.tenant)
    ensures d in Held(tr[i].parts[j]) && e in Held(tr[i].parts[k]) ==>
      (j == k <==> d.tenant == e.tenant && d.partitionKey == e.partitionKey)
    ensures d in tr[i].rejected <==>
      d in tr[i].received && (d.tenant == "" || (d.queueName != "" && d.queueName != d.tenant))
  {
    hide Lane, Find, Unrouted, Ledger, Next, Enabled, Held;
    var s := tr[i];
    RunKeepsInv(capacity, tr, acts, i);
    assert Balanced(s.received, AtDispatcher(s), s.parts[j]) && Balanced(s.received, AtDispatcher(s), s.parts[k]);
    HeldInLedger(s.parts[j], AtDispatcher(s), d);
    HeldInLedger(s.parts[k], AtDispatcher(s), e);
    LaneMembers(s.received, s.parts[j].key, d);
    LaneMembers(s.received, s.parts[k].key, e);
  }

  lemma HeldInLedger(p: Partition, tail: seq<Delivery>, d: Delivery)
    ensures d in Held(p) ==> d in Ledger(p, tail)
  {
  }

  /** Nothing is received for a partition that has no channel. */
  lemma EveryLaneHasChannel(capacity: nat, tr: seq<State>, acts: seq<Action>, i: nat, key: Identity)
    requires IsRun(capacity, tr, acts) && i < |tr|
    ensures Lane(tr[i].received, key) == [] || exists k :: 0 <= k < |tr[i].parts| && tr[i].parts[k].key == key
    ensures tr[i].rejected == Invalid(tr[i].received)
  {
    hide Lane, Find;
    RunKeepsInv(capacity, tr, acts, i);
    var k := Find(tr[i].parts, key);
    assert k < |tr[i].parts| ==> tr[i].parts[k].key == key;
  }

  /** Handled deliveries, and the one the worker is committed to handling. */
  function Committed(p: Partition): nat {
    |p.handled| + (if p.worker.Processing? then 1 else 0)
  }

  lemma CommittedStep(s: State, a: Action, k: nat)
    requires Enabled(s, a) && k < |s.parts| && s.cancelled
    ensures var t := Next(s, a); t.cancelled && |t.parts| >= |s.parts| && Committed(t.parts[k]) <= Committed(s.parts[k])
  {
  }

  /** After cancellation a partition finishes at most the delivery it was processing. */
  lemma {:induction false} CancelStopsWorkers(capacity: nat, tr: seq<State>, acts: seq<Action>, i: nat, j: nat, k: nat)
    requires IsRun(capacity, tr, acts) && i <= j < |tr| && tr[i].cancelled && k < |tr[i].parts|
    ensures tr[j].cancelled && k < |tr[j].parts| && Committed(tr[j].parts[k]) <= Committed(tr[i].parts[k])
    ensures |tr[j].parts[k].handled| <= |tr[i].parts[k].handled| + 1
  {
    hide Next, Enabled;
    if i < j {
      CancelStopsWorkers(capacity, tr, acts, i, j - 1, k);
      CommittedStep(tr[j - 1], acts[j - 1], k);
    }
  }

  // ---- Channel discipline ----

  lemma ChannelsStay(s: State, a: Action, k: nat)
    requires Enabled(s, a) && k < |s.parts|
    ensures var t := Next(s, a);
      && k < |t.parts| && t.parts[k].key == s.parts[k].key
      && (s.parts[k].closed ==> t.parts[k].closed)
  {
    hide Find, Lane, Invalid, AllOf, Turn, Routed;
    if WorkerStep(a) {
      TurnSameChannel(s.parts[a.i], s.cancelled, a);
    } else if a.Receive? {
      RoutedExtends(s, s.source[0]);
    }
  }

  lemma TurnSameChannel(p: Partition, cancelled: bool, a: Action)
    requires WorkerStep(a) && CanTurn(p, a)
    ensures var q := Turn(p, cancelled, a); q.key == p.key && q.closed == p.closed
  {
  }

  lemma RoutedExtends(s: State, d: Delivery)
    ensures s.parts <= Routed(s, d)
  {
  }

  lemma {:induction false} ChannelsStayClosed(capacity: nat, tr: seq<State>, acts: seq<Action>, i: nat, j: nat, k: nat)
    requires IsRun(capacity, tr, acts) && i <= j < |tr| && k < |tr[i].parts|
    ensures k < |tr[j].parts| && tr[j].parts[k].key == tr[i].parts[k].key
    ensures tr[i].parts[k].closed ==> tr[j].parts[k].closed
  {
    hide Next, Enabled;
    if i < j {
      ChannelsStayClosed(capacity, tr, acts, i, j - 1, k);
      ChannelsStay(tr[j - 1], acts[j - 1], k);
    }
  }

  /** No channel is closed twice, and none is sent to once closed, so nothing panics. */
  lemma ClosedOnce(capacity: nat, tr: seq<State>, acts: seq<Action>, i: nat, j: nat, k: nat)
    requires IsRun(capacity, tr, acts) && i < j < |acts| && acts[i] == CloseChannel(k)
    ensures acts[j] != CloseChannel(k)
    ensures acts[j].Send? ==> Find(tr[j].parts, IdentityOf(tr[j].dispatcher.d)) != k
    ensures !tr[j].panicked && !tr[j + 1].panicked
  {
    hide Find, Lane;
    RunKeepsInv(capacity, tr, acts, i);
    RunKeepsInv(capacity, tr, acts, j);
    RunKeepsInv(capacity, tr, acts, j + 1);
    assert tr[i + 1] == Next(tr[i], acts[i]) && tr[i + 1].parts[k].closed;
    ChannelsStayClosed(capacity, tr, acts, i + 1, j, k);
    assert PartOk(tr[j], tr[j].parts[k]);
    assert Enabled(tr[j], acts[j]);
  }

  /** done is closed at most once, only after every worker has exited, with every channel closed. */
  lemma DoneMeansAllExited(capacity: nat, tr: seq<State>, acts: seq<Action>, i: nat)
    requires IsRun(capacity, tr, acts) && i < |tr|
    ensures tr[i].doneCloses <= 1 && (tr[i].doneCloses == 1 <==> tr[i].dispatcher.Finished?)
    ensures tr[i].doneCloses == 1 ==>
      forall k :: 0 <= k < |tr[i].parts| ==> tr[i].parts[k].worker.Returned? && tr[i].parts[k].closed
  {
    hide Lane, Find;
    RunKeepsInv(capacity, tr, acts, i);
    forall k | 0 <= k < |tr[i].parts| && tr[i].dispatcher.Finished?
      ensures tr[i].parts[k].worker.Returned? && tr[i].parts[k].closed
    {
      assert PartOk(tr[i], tr[i].parts[k]);
    }
  }

  // ---- Progress ----

  function WorkerWeight(w: Worker): nat {
    match w
    case Ranging => 1
    case Received(_) => 5
    case Processing(_) => 4
    case Returned => 0
  }

  function PartWeight(p: Partition): nat { 5 * |p.buffer| + WorkerWeight(p.worker) }

  function PartsWeight(ps: seq<Partition>): nat {
    if |ps| == 0 then 0 else PartsWeight(ps[..|ps| - 1]) + PartWeight(ps[|ps| - 1])
  }

  function DispatcherWeight(d: Dispatcher, channels: nat): nat {
    match d
    case Selecting => 4 + channels
    case Sending(_) => 10 + channels
    case Closing(todo) => 3 + |todo|
    case Waiting => 2
    case Finished => 0
  }

  /** Bounds the steps the consumer can still take on its own. */
  function Measure(s: State): nat {
    10 * |s.source| + DispatcherWeight(s.dispatcher, |s.parts|) + PartsWeight(s.parts)
  }

  lemma {:induction false} WeightOfUpdate(ps: seq<Partition>, i: nat, p: Partition)
    requires i < |ps|
    ensures PartsWeight(ps[i := p]) == PartsWeight(ps) - PartWeight(ps[i]) + PartWeight(p)
  {
    var qs := ps[i := p];
    if i == |ps| - 1 {
      assert qs[..|qs| - 1] == ps[..|ps| - 1];
    } else {
      WeightOfUpdate(ps[..|ps| - 1], i, p);
      assert qs[..|qs| - 1] == ps[..|ps| - 1][i := p];
    }
  }

  lemma {:induction false} AllOfSize(n: nat)
    ensures |AllOf(n)| == n
  {
    if n > 0 {
      AllOfSize(n - 1);
    }
  }

  lemma RoutedWeight(s: State, d: Delivery)
    ensures PartsWeight(Routed(s, d)) + |Routed(s, d)| <= PartsWeight(s.parts) + |s.parts| + 2
  {
    var added := Partition(IdentityOf(d), [], false, Ranging, [], []);
    assert (s.parts + [added])[..|s.parts|] == s.parts;
  }

  /** What an outside step may add to the work left. */
  function Credit(a: Action): nat { if a.Arrive? then 11 else if External(a) then 1 else 0 }

  lemma WorkerDescends(s: State, a: Action)
    requires WorkerStep(a) && Enabled(s, a)
    ensures Measure(Next(s, a)) < Measure(s)
  {
    WeightOfUpdate(s.parts, a.i, Turn(s.parts[a.i], s.cancelled, a));
  }

  /** Every step the consumer takes on its own uses up some of the work left. */
  lemma StepDescends(s: State, a: Action)
    requires Inv(s) && Enabled(s, a)
    ensures Measure(Next(s, a)) + 1 <= Measure(s) + Credit(a)
  {
    hide Find, Lane, Invalid, AllOf, PartsWeight, PartOk, Balanced, Keyed, Unrouted, Routed, Turn;
    if WorkerStep(a) {
      WorkerDescends(s, a);
    } else if a.Receive? {
      RoutedWeight(s, s.source[0]);
    } else if a.Send? {
      var i := Find(s.parts, IdentityOf(s.dispatcher.d));
      WeightOfUpdate(s.parts, i, s.parts[i].(buffer := s.parts[i].buffer + [s.dispatcher.d]));
      InvStep(s, a);
    } else if a.CloseChannel? {
      WeightOfUpdate(s.parts, a.i, s.parts[a.i].(closed := true));
    } else {
      AllOfSize(|s.parts|);
    }
  }

  function Credits(acts: seq<Action>): nat {
    if |acts| == 0 then 0 else Credits(acts[..|acts| - 1]) + Credit(acts[|acts| - 1])
  }

  /** A run is no longer than what arrives can account for: the consumer never spins. */
  lemma {:induction false} StepsAreBounded(capacity: nat, tr: seq<State>, acts: seq<Action>, i: nat, j: nat)
    requires IsRun(capacity, tr, acts) && i <= j < |tr|
    ensures Measure(tr[j]) + (j - i) <= Measure(tr[i]) + Credits(acts[i..j])
  {
    hide Inv, Next, Enabled, Measure;
    if i < j {
      StepsAreBounded(capacity, tr, acts, i, j - 1);
      RunKeepsInv(capacity, tr, acts, j - 1);
      StepDescends(tr[j - 1], acts[j - 1]);
      assert acts[i..j][..j - i - 1] == acts[i..j - 1];
    }
  }

  /** The consumer, left alone, can take no further step. */
  ghost predicate Quiet(s: State) {
    forall a :: Enabled(s, a) ==> External(a)
  }

  lemma QuietMeans(s: State, a: Action)
    requires Quiet(s) && !External(a)
    ensures !Enabled(s, a)
  {
  }

  /** Whenever the consumer can do nothing more and was not cancelled, all that arrived was handled. */
  lemma QuietMeansHandled(s: State, key: Identity)
    requires Inv(s) && Quiet(s) && !s.cancelled
    ensures s.source == [] && (s.dispatcher.Selecting? || s.dispatcher.Finished?)
    ensures Find(s.parts, key) == |s.parts| ==> Lane(s.arrived, key) == []
    ensures Find(s.parts, key) < |s.parts| ==> s.parts[Find(s.parts, key)].handled == Lane(s.arrived, key)
  {
    hide Find, Lane, Invalid, Keyed, Quiet;
    forall i | 0 <= i < |s.parts|
      ensures PartOk(s, s.parts[i]) && (s.parts[i].worker.Ranging? || s.parts[i].worker.Returned?)
      ensures s.parts[i].buffer == [] && (s.parts[i].closed ==> s.parts[i].worker.Returned?)
    {
      QuietMeans(s, Take(i));
      QuietMeans(s, LeaveRange(i));
      QuietMeans(s, Look(i));
      QuietMeans(s, Finish(i));
    }
    DispatcherQuiet(s);
    assert s.arrived == s.received;
    var i := Find(s.parts, key);
    if i < |s.parts| {
      assert Balanced(s.received, AtDispatcher(s), s.parts[i]);
      assert Ledger(s.parts[i], []) == s.parts[i].handled;
    }
  }

  /** With its workers at rest the dispatcher waits for a delivery, or has finished. */
  lemma DispatcherQuiet(s: State)
    requires Inv(s) && Quiet(s)
    requires forall i :: 0 <= i < |s.parts| ==> (s.parts[i].closed ==> s.parts[i].worker.Returned?)
    requires !s.cancelled ==> forall i :: 0 <= i < |s.parts| ==> s.parts[i].buffer == []
    ensures s.dispatcher.Selecting? || s.dispatcher.Finished?
    ensures s.dispatcher.Selecting? ==> s.source == [] && !s.cancelled && !s.sourceClosed
  {
    hide Find, Lane, Invalid, Keyed, Quiet, Balanced, Unrouted;
    QuietMeans(s, Receive);
    QuietMeans(s, Send);
    QuietMeans(s, CancelSend);
    QuietMeans(s, CancelSelect);
    QuietMeans(s, SourceEnded);
    QuietMeans(s, AllClosed);
    QuietMeans(s, AllReturned);
    if s.dispatcher.Closing? && s.dispatcher.todo != {} {
      var i :| i in s.dispatcher.todo;
      QuietMeans(s, CloseChannel(i));
    }
  }

  lemma WorkersQuiet(s: State, i: nat)
    requires Inv(s) && Quiet(s) && i < |s.parts|
    ensures s.parts[i].worker.Ranging? || s.parts[i].worker.Returned?
    ensures s.parts[i].closed ==> s.parts[i].worker.Returned?
    ensures !s.cancelled ==> s.parts[i].buffer == []
  {
    hide Find, Lane, Invalid, Keyed, Quiet, Balanced, Unrouted, DispatcherOk;
    assert PartOk(s, s.parts[i]);
    QuietMeans(s, Take(i));
    QuietMeans(s, LeaveRange(i));
    QuietMeans(s, Look(i));
    QuietMeans(s, Finish(i));
  }

  /**
   * A run that can go no further has closed done exactly when it was cancelled
   * or its delivery channel closed; and if it was never cancelled, every
   * tenant-valid delivery that ever arrived has been handled.
   */
  lemma ShutdownCannotHang(capacity: nat, tr: seq<State>, acts: seq<Action>, key: Identity)
    requires IsRun(capacity, tr, acts) && Quiet(tr[|acts|])
    ensures var s := tr[|acts|];
      && (s.dispatcher.Finished? <==> s.cancelled || s.sourceClosed)
      && (!s.cancelled ==> Find(s.parts, key) == |s.parts| ==> Lane(s.arrived, key) == [])
      && (!s.cancelled ==> Find(s.parts, key) < |s.parts| ==>
            s.parts[Find(s.parts, key)].handled == Lane(s.arrived, key))
  {
    hide Find, Lane, Keyed, Quiet, Balanced, Unrouted, PartOk, Next, Enabled;
    var s := tr[|acts|];
    RunKeepsInv(capacity, tr, acts, |acts|);
    forall i | 0 <= i < |s.parts|
      ensures s.parts[i].closed ==> s.parts[i].worker.Returned?
      ensures !s.cancelled ==> s.parts[i].buffer == []
    {
      WorkersQuiet(s, i);
    }
    DispatcherQuiet(s);
    if !s.cancelled {
      QuietMeansHandled(s, key);
    }
  }

  // ---- Where one partition does hold up the others ----

  /** The dispatcher is stuck exactly while it holds a delivery for a partition whose buffer is full. */
  lemma DispatcherBlockedExactly(s: State)
    requires Inv(s) && !s.cancelled && |s.source| > 0 && !s.dispatcher.Finished?
    requires s.dispatcher.Selecting? || s.dispatcher.Sending?
    ensures !Enabled(s, Receive) && !Enabled(s, Send) <==>
      s.dispatcher.Sending? && |s.parts[Find(s.parts, IdentityOf(s.dispatcher.d))].buffer| == s.capacity
  {
    hide Find, Lane, Invalid, Keyed, Quiet, Balanced, Unrouted;
    if s.dispatcher.Sending? {
      assert PartOk(s, s.parts[Find(s.parts, IdentityOf(s.dispatcher.d))]);
    }
  }

  function Slow(i: nat): Delivery { Delivery(i, "t", "slow", "t") }

  lemma SlowIds()
    ensures forall i: nat :: Slow(i).id == i
  {
  }

  const OTHER := Delivery(3, "t", "other", "t")

  /** The state in which a partition's channel is full and its worker busy. */
  function Stuck(source: seq<Delivery>, d: Dispatcher, buffer: seq<Delivery>, w: Worker, received: seq<Delivery>): State {
    var lane := Partition(IdentityOf(Slow(0)), buffer, false, w, [], []);
    State(1, source, false, false, d, [lane], [Slow(0), Slow(1), Slow(2), OTHER], received, [], [], 0, false)
  }

  lemma Extend(capacity: nat, tr: seq<State>, acts: seq<Action>, a: Action, t: State)
    returns (tr': seq<State>, acts': seq<Action>)
    requires IsRun(capacity, tr, acts) && Enabled(tr[|acts|], a) && t == Next(tr[|acts|], a)
    ensures IsRun(capacity, tr', acts') && tr'[|acts'|] == t
  {
    hide Next, Enabled;
    tr', acts' := tr + [t], acts + [a];
  }

  lemma StuckReceive(d: Delivery, rest: seq<Delivery>, buffer: seq<Delivery>, w: Worker, received: seq<Delivery>)
    requires d == Slow(d.id)
    ensures var s := Stuck([d] + rest, Selecting, buffer, w, received);
      Enabled(s, Receive) && Next(s, Receive) == Stuck(rest, Sending(d), buffer, w, received + [d])
  {
    assert ([d] + rest)[1..] == rest;
  }

  lemma StuckSend(d: Delivery, source: seq<Delivery>, w: Worker, received: seq<Delivery>)
    requires d == Slow(d.id)
    ensures var s := Stuck(source, Sending(d), [], w, received);
      Enabled(s, Send) && Next(s, Send) == Stuck(source, Selecting, [d], w, received)
  {
    var s := Stuck(source, Sending(d), [], w, received);
    assert [] + [d] == [d];
    assert Next(s, Send).parts == Stuck(source, Selecting, [d], w, received).parts;
  }

  lemma StuckTurn(source: seq<Delivery>, d: Delivery, received: seq<Delivery>)
    ensures var s := Stuck(source, Selecting, [d], Ranging, received);
      Enabled(s, Take(0)) && Next(s, Take(0)) == Stuck(source, Selecting, [], Received(d), received)
    ensures var s := Stuck(source, Selecting, [], Received(d), received);
      Enabled(s, Look(0)) && Next(s, Look(0)) == Stuck(source, Selecting, [], Processing(d), received)
  {
    var (s, t) := (Stuck(source, Selecting, [d], Ranging, received), Stuck(source, Selecting, [], Received(d), received));
    assert [d][1..] == [];
    assert Next(s, Take(0)).parts == t.parts;
    assert Next(t, Look(0)).parts == Stuck(source, Selecting, [], Processing(d), received).parts;
  }

  /** The first i of the four deliveries have arrived and none was received. */
  function Backlog(i: nat): State {
    var ds := [Slow(0), Slow(1), Slow(2), OTHER][..if i <= 4 then i else 4];
    State(1, ds, false, false, Selecting, [], ds, [], [], [], 0, false)
  }

  lemma BacklogGrows(i: nat)
    requires i < 4
    ensures var a := Arrive([Slow(0), Slow(1), Slow(2), OTHER][i]);
      Enabled(Backlog(i), a) && Next(Backlog(i), a) == Backlog(i + 1)
  {
    var all := [Slow(0), Slow(1), Slow(2), OTHER];
    assert all[..i] + [all[i]] == all[..i + 1];
  }

  lemma FirstReceive()
    ensures Enabled(Backlog(4), Receive)
    ensures Next(Backlog(4), Receive) == Stuck([Slow(1), Slow(2), OTHER], Sending(Slow(0)), [], Ranging, [Slow(0)])
  {
    var all := [Slow(0), Slow(1), Slow(2), OTHER];
    assert all[..4] == all && all[1..] == [Slow(1), Slow(2), OTHER];
  }

  lemma StuckIsStuck()
    ensures var s := Stuck([OTHER], Sending(Slow(2)), [Slow(1)], Processing(Slow(0)), [Slow(0), Slow(1), Slow(2)]);
      && s.source == [OTHER] && !s.cancelled
      && |s.parts| == 1 && IdentityOf(OTHER) != s.parts[0].key && s.parts[0].worker.Processing?
      && (forall a :: Enabled(s, a) ==> External(a) || a == Finish(0))
  {
    assert IdentityOf(OTHER).partitionKey[0] == 'o' && IdentityOf(Slow(0)).partitionKey[0] == 's';
  }

  /** Four deliveries arrive, and the worker takes up the first. */
  lemma SlowStart() returns (tr: seq<State>, acts: seq<Action>)
    ensures IsRun(1, tr, acts)
    ensures tr[|acts|] == Stuck([Slow(1), Slow(2), OTHER], Selecting, [], Processing(Slow(0)), [Slow(0)])
  {
    hide Next, Enabled, Stuck;
    var three, got := [Slow(1), Slow(2), OTHER], [Slow(0)];
    tr, acts := [Start(1)], [];
    assert Start(1) == Backlog(0);
    hide IsRun, Backlog;
    BacklogGrows(0);
    tr, acts := Extend(1, tr, acts, Arrive(Slow(0)), Backlog(1));
    BacklogGrows(1);
    tr, acts := Extend(1, tr, acts, Arrive(Slow(1)), Backlog(2));
    BacklogGrows(2);
    tr, acts := Extend(1, tr, acts, Arrive(Slow(2)), Backlog(3));
    BacklogGrows(3);
    tr, acts := Extend(1, tr, acts, Arrive(OTHER), Backlog(4));
    FirstReceive();
    tr, acts := Extend(1, tr, acts, Receive, Stuck(three, Sending(Slow(0)), [], Ranging, got));
    StuckSend(Slow(0), three, Ranging, got);
    tr, acts := Extend(1, tr, acts, Send, Stuck(three, Selecting, [Slow(0)], Ranging, got));
    StuckTurn(three, Slow(0), got);
    tr, acts := Extend(1, tr, acts, Take(0), Stuck(three, Selecting, [], Received(Slow(0)), got));
    tr, acts := Extend(1, tr, acts, Look(0), Stuck(three, Selecting, [], Processing(Slow(0)), got));
  }

  /**
   * A partition whose buffer fills up does hold up the other partitions: here
   * the dispatcher waits to send a third delivery to a busy partition, and the
   * delivery behind it, for another partition, is not received until the busy
   * worker finishes.
   */
  lemma SlowPartitionBlocksOthers() returns (tr: seq<State>, acts: seq<Action>)
    ensures IsRun(1, tr, acts)
    ensures var s := tr[|acts|];
      && s.source == [OTHER] && !s.cancelled
      && |s.parts| == 1 && IdentityOf(OTHER) != s.parts[0].key && s.parts[0].worker.Processing?
      && (forall a :: Enabled(s, a) ==> External(a) || a == Finish(0))
  {
    hide Next, Enabled, Stuck, Slow;
    assert Slow(1) == Slow(Slow(1).id) && Slow(2) == Slow(Slow(2).id) by { SlowIds(); }
    var busy, got := Processing(Slow(0)), [Slow(0), Slow(1)];
    var two := [Slow(2), OTHER];
    tr, acts := SlowStart();
    StuckReceive(Slow(1), two, [], busy, [Slow(0)]);
    assert [Slow(1)] + two == [Slow(1), Slow(2), OTHER] && [Slow(0)] + [Slow(1)] == got;
    tr, acts := Extend(1, tr, acts, Receive, Stuck(two, Sending(Slow(1)), [], busy, got));
    StuckSend(Slow(1), two, busy, got);
    tr, acts := Extend(1, tr, acts, Send, Stuck(two, Selecting, [Slow(1)], busy, got));
    StuckReceive(Slow(2), [OTHER], [Slow(1)], busy, got);
    assert [Slow(2)] + [OTHER] == two && got + [Slow(2)] == [Slow(0), Slow(1), Slow(2)];
    tr, acts := Extend(1, tr, acts, Receive, Stuck([OTHER], Sending(Slow(2)), [Slow(1)], busy, [Slow(0), Slow(1), Slow(2)]));
    StuckIsStuck();
  }
}
