// One tenant-valid message over any number of deliveries, on the primary topic
// and on its dead-letter topic: lapsed visibility, overlapping deliveries,
// failed store writes and crashes included
// (platform/consumer/consumer.go; platform/extension/messagequeue/mysql/subscriber.go,
// delivery_state_store.go, message_store.go; platform/pipeline/pipeline.go).
module Redelivery {
  import opened Wrappers
  import opened ErrorTrees
  import opened ErrorProcessor
  import opened DeliveryOutcome

  datatype Topic = PrimaryTopic | DlqTopic

  /** The delivery-state row of the topic's consumer group. */
  datatype Lease = Lease(acked: bool, retries: nat, postponed: bool)

  datatype Stage =
    | Waiting                // handed to the consumer
    | Passed                 // through the gate
    | Calling(call: Call)    // about to end the delivery with this call
    | Moved                  // MoveToDLQ committed, MarkAcked still to come
    | Over
    | Lapsed                 // the process died, or never made its call: visibility runs out

  datatype Delivery = Delivery(
    topic: Topic, attempt: nat, stage: Stage,
    gate: Option<Gate>, runs: nat, succeeded: bool, calls: seq<Call>)

  /** The message row is in one topic's table; leases outlive the row. */
  datatype State = State(
    row: Topic, primary: Option<Lease>, dlq: Option<Lease>,
    deliveries: seq<Delivery>, postpones: nat)

  const START := State(PrimaryTopic, None, None, [], 0)

  /** The primary consumer's classifiers and its subscription's retry limit; 0 is no limit. */
  datatype Config = Config(classifiers: seq<Classifier>, maxAttempts: nat)

  datatype Action =
    /** One pass of the poll loop over the message: it is handed out, or the pass fails after MarkDelivered. */
    | Poll(topic: Topic, handedOut: bool)
    /** The poll loop dead-letters a message whose budget is spent; either write may fail. */
    | Retire(moved: bool, acked: bool)
    | EnterGate(i: nat, gate: Gate)
    | Run(i: nat, err: Option<Error>, holds: seq<int>)
    /** The call on the delivery; its store write may or may not have been applied. */
    | MakeCall(i: nat, applied: bool)
    | AckMoved(i: nat, applied: bool)
    | Lapse(i: nat)

  function PolicyOf(c: Config, t: Topic): Policy {
    if t.PrimaryTopic? then Primary(c.classifiers) else DeadLetters
  }

  /** The dead-letter subscription is without limit and without a further DLQ. */
  function LimitOf(c: Config, t: Topic): nat { if t.PrimaryTopic? then c.maxAttempts else 0 }

  predicate Spent(limit: nat, attempts: nat) { limit > 0 && attempts >= limit }

  function LeaseOf(s: State, t: Topic): Option<Lease> { if t.PrimaryTopic? then s.primary else s.dlq }

  function SetLease(s: State, t: Topic, l: Lease): State {
    if t.PrimaryTopic? then s.(primary := Some(l)) else s.(dlq := Some(l))
  }

  function MarkDelivered(l: Option<Lease>): Lease {
    if l.None? then Lease(false, 0, false)
    else if l.value.acked then l.value
    else Lease(false, if l.value.postponed then l.value.retries else l.value.retries + 1, false)
  }

  function MarkAcked(l: Option<Lease>): Lease {
    if l.None? then Lease(true, 0, false) else l.value.(acked := true)
  }

  function MarkNacked(l: Option<Lease>): Lease {
    if l.None? then Lease(false, 0, false) else l.value
  }

  function MarkPostponed(l: Option<Lease>): Lease {
    if l.None? then Lease(false, 0, true)
    else if l.value.acked then l.value
    else Lease(false, 0, true)
  }

  predicate Acked(l: Option<Lease>) { l.Some? && l.value.acked }

  function SetDelivery(s: State, i: nat, d: Delivery): State
    requires i < |s.deliveries|
  {
    s.(deliveries := s.deliveries[i := d])
  }

  /** Ending on a spent budget, or on Reject, is dead-lettering. */
  predicate EndsInDlq(c: Config, d: Delivery)
    requires d.stage.Calling?
  {
    d.stage.call.Reject? || (d.stage.call.Nack? && Spent(LimitOf(c, d.topic), d.attempt))
  }

  predicate Enabled(c: Config, s: State, a: Action) {
    match a
    case Poll(t, handedOut) =>
      s.row == t && !Acked(LeaseOf(s, t)) && !Spent(LimitOf(c, t), MarkDelivered(LeaseOf(s, t)).retries)
    case Retire(_, _) =>
      s.row.PrimaryTopic? && !Acked(s.primary) && Spent(c.maxAttempts, MarkDelivered(s.primary).retries)
    case EnterGate(i, _) => i < |s.deliveries| && s.deliveries[i].stage.Waiting?
    case Run(i, _, _) => i < |s.deliveries| && s.deliveries[i].stage.Passed?
    case MakeCall(i, _) => i < |s.deliveries| && s.deliveries[i].stage.Calling?
    case AckMoved(i, _) => i < |s.deliveries| && s.deliveries[i].stage.Moved?
    case Lapse(i) => i < |s.deliveries| && !s.deliveries[i].stage.Over? && !s.deliveries[i].stage.Lapsed?
  }

  function AfterCall(c: Config, s: State, i: nat, applied: bool): State
    requires i < |s.deliveries| && s.deliveries[i].stage.Calling?
  {
    var d := s.deliveries[i];
    var call, l := d.stage.call, LeaseOf(s, d.topic);
    var called := d.(calls := d.calls + [call], stage := Over);
    if !applied then SetDelivery(s, i, called)
    else if EndsInDlq(c, d) then
      if d.topic.PrimaryTopic? then SetDelivery(s.(row := DlqTopic), i, called.(stage := Moved))
      else SetDelivery(SetLease(s, d.topic, MarkAcked(l)), i, called)
    else if call.Ack? then SetDelivery(SetLease(s, d.topic, MarkAcked(l)), i, called)
    else if call.Nack? then SetDelivery(SetLease(s, d.topic, MarkNacked(l)), i, called)
    else
      var t := SetDelivery(SetLease(s, d.topic, MarkPostponed(l)), i, called);
      if d.topic.PrimaryTopic? then t.(postpones := t.postpones + 1) else t
  }

  function Next(c: Config, s: State, a: Action): State
    requires Enabled(c, s, a)
  {
    match a
    case Poll(t, handedOut) =>
      var l := MarkDelivered(LeaseOf(s, t));
      var u := SetLease(s, t, l);
      if handedOut then u.(deliveries := u.deliveries + [Delivery(t, l.retries + 1, Waiting, None, 0, false, [])]) else u
    case Retire(moved, acked) =>
      var t := s.(primary := Some(MarkDelivered(s.primary)));
      if !moved then t
      else if acked then t.(row := DlqTopic, primary := Some(MarkAcked(t.primary)))
      else t.(row := DlqTopic)
    case EnterGate(i, gate) =>
      var d := s.deliveries[i].(gate := Some(gate));
      SetDelivery(s, i,
        if gate.EnterCanceled? then d.(stage := Over)
        else if gate.Blocked? then d.(stage := Calling(Postpone(GATE_RECHECK_DELAY_MS)))
        else d.(stage := Passed))
    case Run(i, err, holds) =>
      var d := s.deliveries[i];
      SetDelivery(s, i, d.(runs := d.runs + 1, succeeded := Succeeded(err, holds),
                           stage := Calling(Decide(PolicyOf(c, d.topic), err, holds))))
    case MakeCall(i, applied) => AfterCall(c, s, i, applied)
    case AckMoved(i, applied) =>
      var t := SetDelivery(s, i, s.deliveries[i].(stage := Over));
      if applied then t.(primary := Some(MarkAcked(t.primary))) else t
    case Lapse(i) => SetDelivery(s, i, s.deliveries[i].(stage := Lapsed))
  }

  // ---- What every step keeps ----

  /** A controller ran to a nil, hold-free end and the delivery was acknowledged. */
  predicate Completed(d: Delivery) { d.succeeded && d.calls == [Ack] }

  predicate Began(d: Delivery) {
    d.gate.Some? && DeliveryOutcome.Admitted(d.gate.value)
  }

  predicate DeliveryOk(c: Config, d: Delivery) {
    && d.attempt >= 1 && (LimitOf(c, d.topic) > 0 ==> d.attempt <= LimitOf(c, d.topic))
    && d.runs <= 1 && |d.calls| <= 1
    && (d.runs == 1 ==> Began(d))
    && (d.succeeded ==> d.runs == 1)
    && (d.calls == [Ack] ==> d.succeeded)
    && (d.stage.Waiting? ==> d.gate.None? && d.runs == 0 && d.calls == [])
    && (d.stage.Passed? ==> Began(d) && d.runs == 0 && d.calls == [])
    && (d.stage.Calling? ==> d.calls == [] && CallOk(d))
    && (d.stage.Moved? ==> d.topic.PrimaryTopic? && |d.calls| == 1)
    && (d.stage.Over? && d.calls == [] ==> d.gate == Some(EnterCanceled))
  }

  predicate CallOk(d: Delivery)
    requires d.stage.Calling?
  {
    if d.runs == 0 then d.gate == Some(Blocked) && d.stage.call == Postpone(GATE_RECHECK_DELAY_MS)
    else (d.stage.call.Ack? <==> d.succeeded) && (d.topic.DlqTopic? ==> !d.stage.call.Reject?)
  }

  ghost predicate SomeCompleted(ds: seq<Delivery>, t: Topic) {
    exists i :: 0 <= i < |ds| && ds[i].topic == t && Completed(ds[i])
  }

  ghost predicate Inv(c: Config, s: State) {
    && (forall i :: 0 <= i < |s.deliveries| ==> DeliveryOk(c, s.deliveries[i]))
    && (s.row.PrimaryTopic? && Acked(s.primary) ==> SomeCompleted(s.deliveries, PrimaryTopic))
    && (Acked(s.dlq) ==> SomeCompleted(s.deliveries, DlqTopic))
    && (s.row.PrimaryTopic? ==> forall i :: 0 <= i < |s.deliveries| ==>
          !s.deliveries[i].stage.Moved? && s.deliveries[i].topic.PrimaryTopic?)
  }

  lemma CompletedStays(ds: seq<Delivery>, i: nat, d: Delivery, t: Topic)
    requires i < |ds| && SomeCompleted(ds, t)
    requires d.topic == ds[i].topic && (Completed(ds[i]) ==> Completed(d))
    ensures SomeCompleted(ds[i := d], t)
  {
    var j :| 0 <= j < |ds| && ds[j].topic == t && Completed(ds[j]);
    assert ds[i := d][j].topic == t && Completed(ds[i := d][j]);
  }

  /** Replacing delivery i by d, whatever became of the leases. */
  lemma SetDeliveryKeeps(c: Config, s: State, t: State, i: nat, d: Delivery)
    requires Inv(c, s) && i < |s.deliveries| && t.deliveries == s.deliveries[i := d]
    requires DeliveryOk(c, d) && d.topic == s.deliveries[i].topic && (Completed(s.deliveries[i]) ==> Completed(d))
    requires t.row == s.row || t.row.DlqTopic?
    requires Acked(t.primary) && !Acked(s.primary) ==> t.row.DlqTopic? || (Completed(d) && d.topic.PrimaryTopic?)
    requires Acked(t.dlq) && !Acked(s.dlq) ==> Completed(d) && d.topic.DlqTopic?
    requires d.stage.Moved? ==> t.row.DlqTopic?
    ensures Inv(c, t)
  {
    hide DeliveryOk, Completed;
    forall topic | SomeCompleted(s.deliveries, topic) ensures SomeCompleted(t.deliveries, topic) {
      CompletedStays(s.deliveries, i, d, topic);
    }
    if Completed(d) {
      assert t.deliveries[i] == d;
      assert SomeCompleted(t.deliveries, d.topic);
    }
  }

  lemma PollKeeps(c: Config, s: State, a: Action)
    requires Inv(c, s) && Enabled(c, s, a) && (a.Poll? || a.Retire?)
    ensures Inv(c, Next(c, s, a))
  {
    var t := Next(c, s, a);
    forall topic | SomeCompleted(s.deliveries, topic) ensures SomeCompleted(t.deliveries, topic) {
      var j :| 0 <= j < |s.deliveries| && s.deliveries[j].topic == topic && Completed(s.deliveries[j]);
      assert t.deliveries[j] == s.deliveries[j];
    }
  }

  lemma MakeCallKeeps(c: Config, s: State, i: nat, applied: bool)
    requires Inv(c, s) && Enabled(c, s, MakeCall(i, applied))
    ensures Inv(c, Next(c, s, MakeCall(i, applied)))
  {
    hide SomeCompleted;
    var d, t := s.deliveries[i], AfterCall(c, s, i, applied);
    var call := d.stage.call;
    assert DeliveryOk(c, d);
    assert d.calls + [call] == [call] && [call][0] == call;
    SetDeliveryKeeps(c, s, t, i, t.deliveries[i]);
  }

  lemma RunKeeps(c: Config, s: State, i: nat, err: Option<Error>, holds: seq<int>)
    requires Inv(c, s) && Enabled(c, s, Run(i, err, holds))
    ensures Inv(c, Next(c, s, Run(i, err, holds)))
  {
    var d, t := s.deliveries[i], Next(c, s, Run(i, err, holds));
    assert DeliveryOk(c, d);
    DeadLettersAreNeverRejected(err, holds);
    SetDeliveryKeeps(c, s, t, i, t.deliveries[i]);
  }

  lemma MoveOnKeeps(c: Config, s: State, a: Action)
    requires Inv(c, s) && Enabled(c, s, a) && (a.EnterGate? || a.AckMoved? || a.Lapse?)
    ensures Inv(c, Next(c, s, a))
  {
    var t := Next(c, s, a);
    assert DeliveryOk(c, s.deliveries[a.i]);
    SetDeliveryKeeps(c, s, t, a.i, t.deliveries[a.i]);
  }

  /** Every step keeps the account of each delivery, and of where the message may have gone. */
  lemma InvStep(c: Config, s: State, a: Action)
    requires Inv(c, s) && Enabled(c, s, a)
    ensures Inv(c, Next(c, s, a))
  {
    hide Inv, Next, Enabled;
    if a.Poll? || a.Retire? { PollKeeps(c, s, a); }
    else if a.Run? { RunKeeps(c, s, a.i, a.err, a.holds); }
    else if a.MakeCall? { MakeCallKeeps(c, s, a.i, a.applied); }
    else { MoveOnKeeps(c, s, a); }
  }

  // ---- Over whole runs ----

  ghost predicate IsRun(c: Config, tr: seq<State>, acts: seq<Action>) {
    && |tr| == |acts| + 1
    && tr[0] == START
    && forall i :: 0 <= i < |acts| ==> Enabled(c, tr[i], acts[i]) && tr[i + 1] == Next(c, tr[i], acts[i])
  }

  lemma {:induction false} RunKeepsInv(c: Config, tr: seq<State>, acts: seq<Action>, k: nat)
    requires IsRun(c, tr, acts) && k < |tr|
    ensures Inv(c, tr[k])
  {
    hide Next, Enabled;
    if k > 0 {
      hide Inv;
      RunKeepsInv(c, tr, acts, k - 1);
      InvStep(c, tr[k - 1], acts[k - 1]);
    }
  }

  /**
   * Each delivery runs the controller at most once and never behind a closed
   * gate, makes at most one call, and ends without one only when its gate check
   * was cancelled or its process died. Its attempt is within the retry limit.
   */
  lemma EachDeliveryIsSettledOnce(c: Config, tr: seq<State>, acts: seq<Action>, k: nat, i: nat)
    requires IsRun(c, tr, acts) && k < |tr| && i < |tr[k].deliveries|
    ensures var d := tr[k].deliveries[i];
      && d.runs <= 1 && |d.calls| <= 1
      && (d.runs > 0 ==> d.gate == Some(Open) || d.gate == Some(EnterFailed))
      && (d.stage.Over? && d.calls == [] ==> d.gate == Some(EnterCanceled))
      && (d.calls == [Ack] ==> d.succeeded)
      && 1 <= d.attempt && (LimitOf(c, d.topic) > 0 ==> d.attempt <= LimitOf(c, d.topic))
  {
    RunKeepsInv(c, tr, acts, k);
    assert DeliveryOk(c, tr[k].deliveries[i]);
  }

  /** A delivery has succeeded only if its controller returned nil and held nothing. */
  lemma {:induction false} SucceededRan(c: Config, tr: seq<State>, acts: seq<Action>, k: nat, i: nat)
    requires IsRun(c, tr, acts) && k < |tr| && i < |tr[k].deliveries| && tr[k].deliveries[i].succeeded
    ensures exists j :: 0 <= j < k && acts[j] == Run(i, None, [])
  {
    if k > 0 && i < |tr[k - 1].deliveries| && tr[k - 1].deliveries[i].succeeded {
      hide Next, Enabled;
      SucceededRan(c, tr, acts, k - 1, i);
    } else {
      assert acts[k - 1] == Run(i, None, []);
    }
  }

  /** Delivery i was of that topic, its controller returned nil and held nothing, and it was acknowledged. */
  predicate Finished(s: State, past: seq<Action>, i: nat, t: Topic) {
    i < |s.deliveries| && s.deliveries[i].topic == t && s.deliveries[i].calls == [Ack] && Run(i, None, []) in past
  }

  lemma CompletedFinished(c: Config, tr: seq<State>, acts: seq<Action>, k: nat, t: Topic)
    requires IsRun(c, tr, acts) && k < |tr|
    ensures SomeCompleted(tr[k].deliveries, t) ==>
      exists i :: 0 <= i < |tr[k].deliveries| && Finished(tr[k], acts[..k], i, t)
  {
    hide Next, Enabled;
    if SomeCompleted(tr[k].deliveries, t) {
      var i :| 0 <= i < |tr[k].deliveries| && tr[k].deliveries[i].topic == t && Completed(tr[k].deliveries[i]);
      SucceededRan(c, tr, acts, k, i);
      var j :| 0 <= j < k && acts[j] == Run(i, None, []);
      assert acts[..k][j] == Run(i, None, []);
      assert Finished(tr[k], acts[..k], i, t);
    }
  }

  /** No poll will hand the message out from this topic again. */
  predicate Gone(s: State, t: Topic) { s.row != t || Acked(LeaseOf(s, t)) }

  /**
   * The message leaves the primary topic only into the dead-letter topic or
   * after a nil, hold-free Process there; and it leaves the dead-letter topic
   * only after a nil, hold-free Process there.
   */
  lemma LeavesOnlyCompletedOrDeadLettered(c: Config, tr: seq<State>, acts: seq<Action>, k: nat)
    requires IsRun(c, tr, acts) && k < |tr|
    ensures Gone(tr[k], PrimaryTopic) ==>
      tr[k].row.DlqTopic? || exists i :: 0 <= i < |tr[k].deliveries| && Finished(tr[k], acts[..k], i, PrimaryTopic)
    ensures tr[k].row.DlqTopic? && Gone(tr[k], DlqTopic) ==>
      exists i :: 0 <= i < |tr[k].deliveries| && Finished(tr[k], acts[..k], i, DlqTopic)
  {
    hide Next, Enabled;
    RunKeepsInv(c, tr, acts, k);
    CompletedFinished(c, tr, acts, k, PrimaryTopic);
    CompletedFinished(c, tr, acts, k, DlqTopic);
  }

  /** Until then the poll loop can always take it up again: nothing is lost and nothing is stuck. */
  lemma NeverLost(c: Config, tr: seq<State>, acts: seq<Action>, k: nat)
    requires IsRun(c, tr, acts) && k < |tr|
    ensures
      || (exists i, t :: 0 <= i < |tr[k].deliveries| && Finished(tr[k], acts[..k], i, t))
      || Enabled(c, tr[k], Poll(tr[k].row, true))
      || Enabled(c, tr[k], Retire(true, true))
  {
    RunKeepsInv(c, tr, acts, k);
    CompletedFinished(c, tr, acts, k, PrimaryTopic);
    CompletedFinished(c, tr, acts, k, DlqTopic);
  }

  // ---- What a call does, and what an attempt counts ----

  /** A pass of the poll loop over the message counts as an attempt; a postpone starts the count anew. */
  function Count(s: State, a: Action, t: Topic, n: nat): nat {
    if (a.Poll? && a.topic == t) || (a.Retire? && t.PrimaryTopic?) then n + 1
    else if Postpones(s, a, t) then 0
    else n
  }

  /** A postpone of a delivery of that topic, applied. */
  predicate Postpones(s: State, a: Action, t: Topic) {
    && a.MakeCall? && a.applied && a.i < |s.deliveries| && s.deliveries[a.i].topic == t
    && s.deliveries[a.i].stage.Calling? && s.deliveries[a.i].stage.call.Postpone?
  }

  /** The passes over the message on a topic since it was last postponed there, before step k. */
  function Passes(tr: seq<State>, acts: seq<Action>, t: Topic, k: nat): nat
    requires k <= |acts| <= |tr|
  {
    if k == 0 then 0 else Count(tr[k - 1], acts[k - 1], t, Passes(tr, acts, t, k - 1))
  }

  predicate Counts(l: Option<Lease>, n: nat) {
    if l.None? then n == 0
    else if l.value.acked then true
    else if l.value.postponed then l.value.retries == 0 && n == 0
    else n == l.value.retries + 1
  }

  predicate Leased(s: State, t: Topic) {
    LeaseOf(s, t).Some? || forall i :: 0 <= i < |s.deliveries| ==> s.deliveries[i].topic != t
  }

  lemma LeasedStep(c: Config, s: State, a: Action, t: Topic)
    requires Enabled(c, s, a) && Leased(s, t)
    ensures Leased(Next(c, s, a), t)
  {
    var u := Next(c, s, a);
    if LeaseOf(u, t).None? && (a.Poll? || a.Retire?) {
      forall i | 0 <= i < |u.deliveries| ensures u.deliveries[i].topic != t {
        assert i < |s.deliveries| ==> u.deliveries[i] == s.deliveries[i];
      }
    }
  }

  lemma CountStep(c: Config, s: State, a: Action, t: Topic, n: nat)
    requires Enabled(c, s, a) && Leased(s, t) && Counts(LeaseOf(s, t), n)
    ensures Counts(LeaseOf(Next(c, s, a), t), Count(s, a, t, n))
  {
  }

  lemma {:induction false} LeaseCountsPasses(c: Config, tr: seq<State>, acts: seq<Action>, t: Topic, k: nat)
    requires IsRun(c, tr, acts) && k <= |acts|
    ensures Leased(tr[k], t) && Counts(LeaseOf(tr[k], t), Passes(tr, acts, t, k))
  {
    if k > 0 {
      hide Leased, Counts, Next, Enabled, Count;
      LeaseCountsPasses(c, tr, acts, t, k - 1);
      LeasedStep(c, tr[k - 1], acts[k - 1], t);
      CountStep(c, tr[k - 1], acts[k - 1], t, Passes(tr, acts, t, k - 1));
    } else {
      assert LeaseOf(tr[0], t).None?;
    }
  }

  /**
   * The attempt a delivery carries is the number of times the poll loop has
   * taken the message up since it was last postponed, this time included: a
   * nack does not restart the count, a lapse and a lost hand-over are counted,
   * and on the dead-letter topic it starts again at one.
   */
  lemma AttemptCountsPasses(c: Config, tr: seq<State>, acts: seq<Action>, k: nat)
    requires IsRun(c, tr, acts) && k < |acts| && acts[k].Poll? && acts[k].handedOut
    ensures var (t, ds) := (acts[k].topic, tr[k].deliveries);
      && |tr[k + 1].deliveries| == |ds| + 1
      && tr[k + 1].deliveries[|ds|].topic == t
      && tr[k + 1].deliveries[|ds|].attempt == Passes(tr, acts, t, k + 1)
      && (t.PrimaryTopic? && c.maxAttempts > 0 ==> Passes(tr, acts, t, k + 1) <= c.maxAttempts)
  {
    LeaseCountsPasses(c, tr, acts, acts[k].topic, k);
  }

  /**
   * A message reaches the dead-letter topic by exactly three ways: it was
   * rejected, it was nacked in a delivery whose attempt had reached the limit,
   * or the poll loop took it up more often than the limit allows; and it never
   * comes back.
   */
  lemma DeadLetteredExactly(c: Config, tr: seq<State>, acts: seq<Action>, k: nat)
    requires IsRun(c, tr, acts) && k < |acts|
    ensures tr[k].row.DlqTopic? ==> tr[k + 1].row.DlqTopic?
    ensures var (s, a) := (tr[k], acts[k]);
      s.row.PrimaryTopic? ==>
        (tr[k + 1].row.DlqTopic? <==>
          || (a.Retire? && a.moved)
          || (a.MakeCall? && a.applied && a.i < |s.deliveries| && s.deliveries[a.i].stage.Calling?
              && (s.deliveries[a.i].stage.call.Reject? ||
                  (s.deliveries[a.i].stage.call.Nack? && 0 < c.maxAttempts <= s.deliveries[a.i].attempt))))
    ensures acts[k].Retire? ==> 0 < c.maxAttempts < Passes(tr, acts, PrimaryTopic, k + 1)
  {
    RunKeepsInv(c, tr, acts, k);
    LeaseCountsPasses(c, tr, acts, PrimaryTopic, k);
  }

  /**
   * What an applied call leaves behind: an acknowledged message is not handed
   * out from its topic again; a nack within the limit and a postpone leave it
   * to be handed out, a nack counting on and a postpone starting at one.
   */
  lemma CallTakesEffect(c: Config, tr: seq<State>, acts: seq<Action>, k: nat)
    requires IsRun(c, tr, acts) && k < |acts| && acts[k].MakeCall? && acts[k].applied
    ensures var (d, s, u) := (tr[k].deliveries[acts[k].i], tr[k], tr[k + 1]);
      && acts[k].i < |u.deliveries| && u.deliveries[acts[k].i].calls == [d.stage.call]
      && (d.stage.call.Ack? ==> Acked(LeaseOf(u, d.topic)) && u.row == s.row)
      && (d.stage.call.Nack? && (d.topic.DlqTopic? || c.maxAttempts == 0 || d.attempt < c.maxAttempts) ==>
            LeaseOf(u, d.topic) == LeaseOf(s, d.topic) && u.row == s.row)
      && (d.stage.call.Postpone? ==>
            u.row == s.row && (!Acked(LeaseOf(s, d.topic)) ==> MarkDelivered(LeaseOf(u, d.topic)) == Lease(false, 0, false)))
  {
    var d := tr[k].deliveries[acts[k].i];
    RunKeepsInv(c, tr, acts, k);
    LeaseCountsPasses(c, tr, acts, d.topic, k);
    assert DeliveryOk(c, d);
  }

  // ---- The retry budget ----

  function Handed(ds: seq<Delivery>): nat {
    if |ds| == 0 then 0 else Handed(ds[..|ds| - 1]) + (if ds[|ds| - 1].topic.PrimaryTopic? then 1 else 0)
  }

  /** Handed counts the deliveries of the primary topic. */
  lemma {:induction false} HandedIsTheCount(ds: seq<Delivery>)
    ensures Handed(ds) == |set i | 0 <= i < |ds| && ds[i].topic.PrimaryTopic?|
  {
    var all := set i | 0 <= i < |ds| && ds[i].topic.PrimaryTopic?;
    if |ds| > 0 {
      var n := |ds| - 1;
      HandedIsTheCount(ds[..n]);
      var before := set i | 0 <= i < n && ds[..n][i].topic.PrimaryTopic?;
      assert all == if ds[n].topic.PrimaryTopic? then before + {n} else before;
    } else {
      assert all == {};
    }
  }

  lemma {:induction false} HandedByTopic(ds: seq<Delivery>, es: seq<Delivery>)
    requires |ds| == |es| && forall i :: 0 <= i < |ds| ==> ds[i].topic == es[i].topic
    ensures Handed(ds) == Handed(es)
  {
    if |ds| > 0 {
      HandedByTopic(ds[..|ds| - 1], es[..|es| - 1]);
    }
  }

  /** How much of the current budget the primary lease says is used. */
  function Used(l: Option<Lease>, limit: nat): nat {
    if l.None? || l.value.postponed then 0 else if l.value.retries + 1 < limit then l.value.retries + 1 else limit
  }

  predicate Budgeted(c: Config, s: State) {
    && (s.primary.None? ==> Handed(s.deliveries) == 0)
    && (s.primary.Some? && s.primary.value.postponed ==> s.primary.value.retries == 0)
    && Handed(s.deliveries) <= Allowance(s.postpones, c.maxAttempts) + Used(s.primary, c.maxAttempts)
  }

  function Allowance(postpones: nat, limit: nat): nat { postpones * limit }

  lemma AllowanceStep(postpones: nat, limit: nat)
    ensures Allowance(postpones + 1, limit) == Allowance(postpones, limit) + limit
  {
  }

  lemma HandedAppend(ds: seq<Delivery>, d: Delivery)
    ensures Handed(ds + [d]) == Handed(ds) + (if d.topic.PrimaryTopic? then 1 else 0)
  {
    assert (ds + [d])[..|ds|] == ds;
  }

  lemma TopicsStay(c: Config, s: State, a: Action)
    requires Enabled(c, s, a) && !a.Poll?
    ensures Handed(Next(c, s, a).deliveries) == Handed(s.deliveries)
  {
    hide Handed;
    HandedByTopic(s.deliveries, Next(c, s, a).deliveries);
  }

  /** What the steps other than a poll do to the primary lease and the count of postpones. */
  lemma LeaseSteps(c: Config, s: State, a: Action)
    requires Enabled(c, s, a) && !a.Poll? && c.maxAttempts > 0
    requires s.primary.Some? ==> (s.primary.value.postponed ==> s.primary.value.retries == 0)
    ensures var t := Next(c, s, a);
      && (t.primary.None? ==> s.primary.None?)
      && (t.primary.Some? ==> t.primary.value.postponed ==> t.primary.value.retries == 0)
      && (t.postpones == s.postpones ==> Used(s.primary, c.maxAttempts) <= Used(t.primary, c.maxAttempts))
      && s.postpones <= t.postpones <= s.postpones + 1
  {
  }

  lemma BudgetStep(c: Config, s: State, a: Action)
    requires Enabled(c, s, a) && Budgeted(c, s) && c.maxAttempts > 0
    ensures Budgeted(c, Next(c, s, a))
  {
    hide Handed, Allowance;
    var t := Next(c, s, a);
    if a.Poll? {
      HandedAppend(s.deliveries, Delivery(a.topic, MarkDelivered(LeaseOf(s, a.topic)).retries + 1, Waiting, None, 0, false, []));
    } else {
      hide Next, Enabled;
      TopicsStay(c, s, a);
      LeaseSteps(c, s, a);
      AllowanceStep(s.postpones, c.maxAttempts);
    }
  }

  lemma PostponeCounts(c: Config, s: State, a: Action)
    requires Enabled(c, s, a)
    ensures Next(c, s, a).postpones == s.postpones + (if Postpones(s, a, PrimaryTopic) then 1 else 0)
  {
  }

  lemma {:induction false} PostponesAreCounted(c: Config, tr: seq<State>, acts: seq<Action>, k: nat)
    requires IsRun(c, tr, acts) && k < |tr|
    ensures tr[k].postpones == |set j | 0 <= j < k && Postpones(tr[j], acts[j], PrimaryTopic)|
  {
    var all := set j | 0 <= j < k && Postpones(tr[j], acts[j], PrimaryTopic);
    if k > 0 {
      hide Postpones, Next, Enabled;
      PostponesAreCounted(c, tr, acts, k - 1);
      PostponeCounts(c, tr[k - 1], acts[k - 1]);
      var before := set j | 0 <= j < k - 1 && Postpones(tr[j], acts[j], PrimaryTopic);
      assert all == if Postpones(tr[k - 1], acts[k - 1], PrimaryTopic) then before + {k - 1} else before;
    } else {
      assert all == {};
    }
  }

  /** A message is handed to the primary consumer at most maxAttempts times between postpones. */
  lemma {:induction false} RetriesAreBounded(c: Config, tr: seq<State>, acts: seq<Action>, k: nat)
    requires IsRun(c, tr, acts) && k < |tr| && c.maxAttempts > 0
    ensures Budgeted(c, tr[k])
    ensures |set i | 0 <= i < |tr[k].deliveries| && tr[k].deliveries[i].topic.PrimaryTopic?| <=
      (|set j | 0 <= j < k && Postpones(tr[j], acts[j], PrimaryTopic)| + 1) * c.maxAttempts
  {
    if k > 0 {
      hide Budgeted, Next, Enabled;
      RetriesAreBounded(c, tr, acts, k - 1);
      BudgetStep(c, tr[k - 1], acts[k - 1]);
    }
    BudgetMeans(c, tr[k]);
    HandedIsTheCount(tr[k].deliveries);
    PostponesAreCounted(c, tr, acts, k);
  }

  lemma BudgetMeans(c: Config, s: State)
    requires Budgeted(c, s) && c.maxAttempts > 0
    ensures Handed(s.deliveries) <= (s.postpones + 1) * c.maxAttempts
  {
    AllowanceStep(s.postpones, c.maxAttempts);
  }
}
