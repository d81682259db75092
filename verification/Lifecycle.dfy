// A group of components started in order and stopped in reverse, with rollback
// when one of them does not start (platform/lifecycle/lifecycle.go).
module Lifecycle {
  import opened Wrappers
  import opened Selection

  datatype Component = Component(name: string)

  /** What was asked of a member, by its position. */
  datatype Event = Started(i: int) | Stopped(i: int)

  /** A member's error, as it appears in the joined error. */
  datatype Failure = FailedToStart(i: int) | FailedToStop(i: int)

  /** Which members fail to start, and to stop, this time. */
  datatype Faults = Faults(start: set<int>, stop: set<int>)

  function NonNil(cs: seq<Option<Component>>): seq<Component> {
    if |cs| == 0 then []
    else
      var c := cs[|cs| - 1];
      NonNil(cs[..|cs| - 1]) + (if c.Some? then [c.value] else [])
  }

  /** A component that is there, as itself. */
  function Itself(): (Option<Component>, Component) -> bool { (c, member) => c == Some(member) }

  /** The components that are not nil and no others, in the order they were given. */
  lemma {:induction false} MembersAreSelected(cs: seq<Option<Component>>) returns (at: seq<nat>)
    ensures Selects(cs, NonNil(cs), Itself(), at)
  {
    at := [];
    if |cs| > 0 {
      hide Selects;
      var front, last := cs[..|cs| - 1], cs[|cs| - 1];
      at := MembersAreSelected(front);
      assert cs == front + [last];
      if last.Some? {
        SelectsOneMore(front, NonNil(front), Itself(), at, last, last.value);
        at := at + [|front|];
      } else {
        SelectsNoMore(front, NonNil(front), Itself(), at, last);
      }
    }
  }

  /** Members lo up to hi, not included, started in order. */
  function Starts(hi: nat): (t: seq<Event>)
    ensures |t| == hi && forall k :: 0 <= k < hi ==> t[k] == Started(k)
  {
    if hi == 0 then [] else Starts(hi - 1) + [Started(hi - 1)]
  }

  /** Members hi down to 0 stopped, each once. */
  function Stops(hi: int): (t: seq<Event>)
    requires hi >= -1
    ensures |t| == hi + 1 && forall k :: 0 <= k <= hi ==> t[k] == Stopped(hi - k)
    decreases hi + 1
  {
    if hi < 0 then [] else [Stopped(hi)] + Stops(hi - 1)
  }

  /** The errors of stopping members hi down to 0, in that order. */
  function StopFailures(hi: int, faults: set<int>): (fs: seq<Failure>)
    requires hi >= -1
    ensures forall f :: f in fs <==> f.FailedToStop? && 0 <= f.i <= hi && f.i in faults
    decreases hi + 1
  {
    if hi < 0 then [] else (if hi in faults then [FailedToStop(hi)] else []) + StopFailures(hi - 1, faults)
  }

  /** What member hi adds in front of those below it. */
  lemma StopsUnfold(hi: nat, faults: set<int>)
    ensures Stops(hi) == [Stopped(hi)] + Stops(hi - 1)
    ensures StopFailures(hi, faults) == (if hi in faults then [FailedToStop(hi)] else []) + StopFailures(hi - 1, faults)
  {
  }

  lemma StopsNothing(faults: set<int>)
    ensures Stops(-1) == [] && StopFailures(-1, faults) == []
  {
  }

  /** The first member that fails to start, or n. */
  function FirstFault(n: nat, faults: set<int>): (i: nat)
    ensures i <= n && (i < n ==> i in faults) && forall j :: 0 <= j < i ==> j !in faults
  {
    if n == 0 then 0
    else if FirstFault(n - 1, faults) < n - 1 then FirstFault(n - 1, faults)
    else if n - 1 in faults then n - 1
    else n
  }

  class Group {
    const members: seq<Component>
    var trace: seq<Event>

    constructor (components: seq<Option<Component>>)
      ensures members == NonNil(components) && trace == []
      ensures exists at: seq<nat> :: Selects(components, members, Itself(), at)
    {
      var filtered: seq<Component> := [];
      for i := 0 to |components|
        invariant filtered == NonNil(components[..i])
      {
        assert components[..i + 1][..i] == components[..i];
        if components[i].Some? {
          filtered := filtered + [components[i].value];
        }
      }
      assert components[..|components|] == components;
      ghost var at := MembersAreSelected(components);
      members, trace := filtered, [];
    }

    method StopRange(hi: int, faults: Faults) returns (errs: seq<Failure>)
      requires -1 <= hi < |members|
      modifies this`trace
      ensures trace == old(trace) + Stops(hi)
      ensures errs == StopFailures(hi, faults.stop)
    {
      hide Stops, StopFailures;
      StopsNothing(faults.stop);
      errs := [];
      var i := hi;
      while i >= 0
        invariant -1 <= i <= hi
        invariant trace + Stops(i) == old(trace) + Stops(hi)
        invariant errs + StopFailures(i, faults.stop) == StopFailures(hi, faults.stop)
      {
        StopsUnfold(i, faults.stop);
        assert trace + Stops(i) == (trace + [Stopped(i)]) + Stops(i - 1);
        trace := trace + [Stopped(i)];
        if i in faults.stop {
          assert errs + StopFailures(i, faults.stop) == (errs + [FailedToStop(i)]) + StopFailures(i - 1, faults.stop);
          errs := errs + [FailedToStop(i)];
        } else {
          assert StopFailures(i, faults.stop) == [] + StopFailures(i - 1, faults.stop);
        }
        i := i - 1;
      }
    }

    /** Starts all members, or stops in reverse exactly those that were started before the one that failed. */
    method Start(faults: Faults) returns (errs: seq<Failure>)
      modifies this`trace
      ensures var i := FirstFault(|members|, faults.start);
        if i == |members| then errs == [] && trace == old(trace) + Starts(i)
        else errs == [FailedToStart(i)] + StopFailures(i - 1, faults.stop)
             && trace == old(trace) + Starts(i + 1) + Stops(i - 1)
    {
      for i := 0 to |members|
        invariant trace == old(trace) + Starts(i)
        invariant forall j :: 0 <= j < i ==> j !in faults.start
      {
        assert old(trace) + Starts(i + 1) == old(trace) + Starts(i) + [Started(i)];
        trace := trace + [Started(i)];
        if i in faults.start {
          var rollback := StopRange(i - 1, faults);
          return [FailedToStart(i)] + rollback;
        }
      }
      return [];
    }

    /** Stops every member, whatever fails. */
    method Stop(faults: Faults) returns (errs: seq<Failure>)
      modifies this`trace
      ensures trace == old(trace) + Stops(|members| - 1)
      ensures errs == StopFailures(|members| - 1, faults.stop)
    {
      errs := StopRange(|members| - 1, faults);
    }
  }

  /**
   * A start that fails at member i asks members 0 to i to start and members
   * i - 1 to 0 to stop, each once and in that order; the member that failed and
   * those after it are never stopped.
   */
  lemma RollbackIsExact(i: nat, k: int)
    ensures var t := Starts(i + 1) + Stops(i - 1);
      && |t| == 2 * i + 1
      && (Started(k) in t <==> 0 <= k <= i)
      && (Stopped(k) in t <==> 0 <= k < i)
      && (0 <= k < i ==> t[k] == Started(k) && t[2 * i - k] == Stopped(k))
  {
    hide Starts, Stops;
    var starts, stops := Starts(i + 1), Stops(i - 1);
    if 0 <= k <= i { assert starts[k] == Started(k); }
    if 0 <= k < i { assert stops[i - 1 - k] == Stopped(k); }
  }

  /** The failures come in the order the members were stopped in, so each once. */
  lemma {:induction false} FailuresDescend(hi: int, faults: set<int>, j: nat, k: nat)
    requires hi >= -1 && j < k < |StopFailures(hi, faults)|
    ensures StopFailures(hi, faults)[j].i > StopFailures(hi, faults)[k].i
    decreases hi + 1
  {
    hide StopFailures;
    StopsNothing(faults);
    StopsUnfold(hi, faults);
    var rest := StopFailures(hi - 1, faults);
    if hi !in faults {
      FailuresDescend(hi - 1, faults, j, k);
    } else if j > 0 {
      FailuresDescend(hi - 1, faults, j - 1, k - 1);
    } else {
      assert rest[k - 1] in rest;
    }
  }

  /** Every failure of a rolled-back start is in the joined error, and nothing else is. */
  lemma NoErrorIsSwallowed(i: nat, faults: Faults, f: Failure)
    ensures f in [FailedToStart(i)] + StopFailures(i - 1, faults.stop) <==>
      f == FailedToStart(i) || (f.FailedToStop? && 0 <= f.i < i && f.i in faults.stop)
  {
    hide StopFailures;
  }
}
