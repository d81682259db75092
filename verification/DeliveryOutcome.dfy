// What becomes of one delivery: the consumer gate, the controller, the error
// processor and the one call that ends the delivery
// (platform/consumer/consumer.go, controller.go; platform/pipeline/pipeline.go).
module DeliveryOutcome {
  import opened Wrappers
  import opened ErrorTrees
  import opened ErrorProcessor

  datatype Call = Ack | Nack | Reject | Postpone(delayMs: int)

  /** What gate.Enter came back with. */
  datatype Gate = EnterCanceled | EnterFailed | Blocked | Open

  /** The processor a consumer was built with. */
  datatype Policy = Primary(classifiers: seq<Classifier>) | DeadLetters

  const GATE_RECHECK_DELAY_MS := 1000

  function Processed(policy: Policy, e: Error): Error {
    if policy.Primary? then Process(policy.classifiers, e) else AlwaysRetryable(e)
  }

  /** The delivery as a controller sees it: it can ask for a hold and nothing else. */
  class DeliveryWrapper {
    var held: bool
    var holdDelayMs: int

    constructor ()
      ensures !held && holdDelayMs == 0
    {
      held, holdDelayMs := false, 0;
    }

    method Hold(delayMs: int)
      modifies this
      ensures held && holdDelayMs == if delayMs < 0 then 0 else delayMs
    {
      var delay := delayMs;
      if delay < 0 {
        delay := 0;
      }
      held := true;
      holdDelayMs := delay;
    }
  }

  /** A controller that calls Hold with each of these in turn before it returns. */
  method RunController(d: DeliveryWrapper, holds: seq<int>)
    requires !d.held && d.holdDelayMs == 0
    modifies d
    ensures d.held <==> holds != []
    ensures holds != [] ==> d.holdDelayMs == if holds[|holds| - 1] < 0 then 0 else holds[|holds| - 1]
  {
    for i := 0 to |holds|
      invariant d.held <==> i > 0
      invariant i > 0 ==> d.holdDelayMs == LastHold(holds[..i])
    {
      d.Hold(holds[i]);
      assert holds[..i + 1][i] == holds[i];
    }
    assert holds[..|holds|] == holds;
  }

  /** Only the last Hold counts, and a negative delay means none. */
  function LastHold(holds: seq<int>): (delay: int)
    requires |holds| > 0
  {
    if holds[|holds| - 1] < 0 then 0 else holds[|holds| - 1]
  }

  predicate Admitted(gate: Gate) { gate.Open? || gate.EnterFailed? }

  /** The controller did its work and asked for nothing more. */
  predicate Succeeded(err: Option<Error>, holds: seq<int>) { err.None? && holds == [] }

  /** The call that ends a delivery whose controller returned. */
  function Decide(policy: Policy, err: Option<Error>, holds: seq<int>): Call {
    if err.Some? then (if IsRetryable(Processed(policy, err.value)) then Nack else Reject)
    else if holds != [] then Postpone(LastHold(holds))
    else Ack
  }

  /**
   * processDelivery with checkGate. The controller runs at most once, and only
   * behind a gate that is open or could not be read; at most one call is made
   * on the delivery, and none exactly when the gate check was cancelled. The
   * message is acknowledged exactly when the controller ran, returned nil and
   * held nothing; a hold beside an error is ignored.
   */
  method ProcessDelivery(policy: Policy, gate: Gate, err: Option<Error>, holds: seq<int>)
    returns (calls: seq<Call>, runs: nat)
    ensures runs == if gate.Open? || gate.EnterFailed? then 1 else 0
    ensures |calls| <= 1 && (calls == [] <==> gate.EnterCanceled?)
    ensures Ack in calls <==> runs == 1 && err.None? && holds == []
    ensures forall d :: Postpone(d) in calls <==>
      || (gate.Blocked? && d == 1000)
      || (runs == 1 && err.None? && holds != [] && d == (if holds[|holds| - 1] < 0 then 0 else holds[|holds| - 1]))
    ensures runs == 1 && err.Some? && policy.Primary? ==>
      calls == [if IsRetryable(Process(policy.classifiers, err.value)) then Nack else Reject]
    ensures runs == 1 && err.Some? && policy.DeadLetters? ==> calls == [Nack]
    ensures runs == 1 ==> calls == [Decide(policy, err, holds)]
  {
    calls, runs := [], 0;
    if gate.EnterCanceled? {
      return;
    }
    if gate.Blocked? {
      calls := [Postpone(GATE_RECHECK_DELAY_MS)];
      return;
    }
    var wrapped := new DeliveryWrapper();
    RunController(wrapped, holds);
    runs := runs + 1;
    if err.Some? {
      AlwaysRetryableOverrides(err.value);
      var processed := Processed(policy, err.value);
      if !IsRetryable(processed) {
        calls := [Reject];
        return;
      }
      calls := [Nack];
      return;
    }
    if wrapped.held {
      calls := [Postpone(wrapped.holdDelayMs)];
      return;
    }
    calls := [Ack];
  }

  /** The DLQ consumer rejects nothing, whatever its controllers return. */
  lemma DeadLettersAreNeverRejected(err: Option<Error>, holds: seq<int>)
    ensures Decide(DeadLetters, err, holds) != Reject
    ensures Decide(DeadLetters, err, holds) == Ack <==> err.None? && holds == []
  {
    if err.Some? {
      AlwaysRetryableOverrides(err.value);
    }
  }

  /**
   * For errors whose wraps are not hidden from the classification, the primary
   * consumer rejects exactly what its classification does not call retryable.
   */
  lemma RejectedByVerdict(cs: seq<Classifier>, e: Error, holds: seq<int>)
    requires Layered(cs, e)
    ensures Decide(Primary(cs), Some(e), holds) == if Retryable(VerdictOf(cs, e)) then Nack else Reject
  {
    LayeredRetryTestAgrees(cs, e);
  }

  /** An error classified as the user's own is retried all the same when it wraps a retryable one. */
  lemma UserErrorCanBeRetried(cs: seq<Classifier>, e: Error, holds: seq<int>)
    ensures VerdictOf(cs, NewUserError(NewRetryableError(e))) == User
    ensures Decide(Primary(cs), Some(NewUserError(NewRetryableError(e))), holds) == Nack
  {
    UserWrapAroundRetryableIsRetried(cs, e);
  }
}
