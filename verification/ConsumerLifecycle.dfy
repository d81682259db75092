// Registering, starting and stopping the subscriptions of a consumer, and the
// time budget they share when they stop (platform/consumer/consumer.go).
module ConsumerLifecycle {
  import opened Wrappers

  datatype Controller = Controller(name: string, topicKey: string)

  datatype Failure = Stopped | NoControllers | Duplicate(topicKey: string) | StartFailed(name: string, cleanup: Option<seq<string>>)

  const STARTUP_CLEANUP_TIMEOUT_MS := 30000
  const MILLISECOND := 1_000_000
  const INT64_RANGE := 0x1_0000_0000_0000_0000

  /** time.Duration(ms) * time.Millisecond, in an int64 of nanoseconds. */
  function Duration(ms: int): (d: int)
    ensures -(INT64_RANGE / 2) <= d < INT64_RANGE / 2
    ensures (d - ms * MILLISECOND) % INT64_RANGE == 0
  {
    (ms * MILLISECOND + INT64_RANGE / 2) % INT64_RANGE - INT64_RANGE / 2
  }

  function Max(a: int, b: int): int { if a < b then b else a }

  /** The time a stop may take: a negative timer fires at once. */
  function Budget(ms: int): nat { Max(0, Duration(ms)) }

  /** When each consume loop closes done; a loop that is not listed never does. */
  type Drain = map<string, nat>

  /** A wait that begins at now with this much left may end with done, or with the timer. */
  predicate MayFinish(done: Drain, key: string, now: int, remaining: int) {
    key in done && done[key] <= now + Max(0, remaining)
  }

  predicate MayTimeOut(done: Drain, key: string, now: int, remaining: int) {
    key in done ==> now + Max(0, remaining) <= Max(now, done[key])
  }

  predicate DistinctTopics(cs: seq<Controller>) {
    forall i, j :: 0 <= i < j < |cs| ==> cs[i].topicKey != cs[j].topicKey
  }

  function Topics(cs: seq<Controller>): set<string> {
    set i | 0 <= i < |cs| :: cs[i].topicKey
  }

  /** The names, in the order they were found, of the subscriptions listed in slow. */
  predicate Listed(names: seq<string>, slow: seq<string>, subs: map<string, Controller>) {
    && |names| == |slow|
    && (forall i :: 0 <= i < |slow| ==> slow[i] in subs && names[i] == subs[slow[i]].name)
    && (forall i, j :: 0 <= i < j < |slow| ==> slow[i] != slow[j])
  }

  lemma NothingListed(subs: map<string, Controller>, done: Drain, now: nat, deadline: nat)
    ensures Listed([], [], subs) && Accounted(subs.Keys, subs.Keys, [], done, now, deadline)
  {
  }

  lemma ListOne(names: seq<string>, slow: seq<string>, subs: map<string, Controller>, todo: set<string>,
                done: Drain, now: nat, deadline: nat, key: string)
    requires Listed(names, slow, subs) && Accounted(subs.Keys, todo, slow, done, now, deadline)
    requires key in todo && key in subs
    ensures Listed(names + [subs[key].name], slow + [key], subs)
    ensures |names| == |slow|
  {
  }

  lemma ListedReported(names: seq<string>, slow: seq<string>, subs: map<string, Controller>)
    requires Listed(names, slow, subs)
    ensures Reported(if |names| > 0 then Some(names) else None, slow, subs)
    ensures |names| == |slow|
  {
  }

  predicate Reported(err: Option<seq<string>>, slow: seq<string>, subs: map<string, Controller>) {
    if err.None? then slow == [] else slow != [] && Listed(err.value, slow, subs)
  }

  /** The most that n waits can overrun together. */
  function Overrun(n: nat, late: nat): nat { n * late }

  lemma OverrunStep(n: nat, late: nat)
    requires n > 0
    ensures Overrun(n, late) == Overrun(n - 1, late) + late
  {
  }

  lemma OverrunMonotone(m: nat, n: nat, late: nat)
    requires m <= n
    ensures Overrun(m, late) <= Overrun(n, late)
    decreases n
  {
    if m < n {
      OverrunMonotone(m, n - 1, late);
      OverrunStep(n, late);
    }
  }

  /** The waits that are over, each either truthful about done or past the budget. */
  predicate Accounted(subs: set<string>, todo: set<string>, slow: seq<string>, done: Drain, now: nat, deadline: nat) {
    && (forall k :: k in slow ==> k in subs && k !in todo && (k in done ==> deadline <= Max(now, done[k])))
    && (forall k :: k in subs && k !in todo && k !in slow ==> k in done && done[k] <= now)
  }

  lemma AccountOne(subs: set<string>, todo: set<string>, slow: seq<string>, done: Drain, now: nat, deadline: nat,
                   key: string, finished: bool, now': nat)
    requires Accounted(subs, todo, slow, done, now, deadline) && key in todo && todo <= subs && now <= now'
    requires if finished then key in done && done[key] <= now' else (key in done ==> deadline <= Max(now, done[key]))
    ensures Accounted(subs, todo - {key}, if finished then slow else slow + [key], done, now', deadline)
  {
  }

  lemma AllAccounted(subs: set<string>, slow: seq<string>, done: Drain, now: nat, deadline: nat)
    requires Accounted(subs, {}, slow, done, now, deadline)
    ensures forall k :: k in subs && k !in slow ==> k in done && done[k] <= now
    ensures forall k :: k in slow && k in done ==> deadline <= Max(now, done[k])
  {
  }

  /** Every loop closes done early enough for the budget to cover it and all the delays. */
  predicate Prompt(keys: set<string>, done: Drain, start: nat, budget: nat, late: nat) {
    && Overrun(|keys|, late) < budget
    && (forall k :: k in keys ==> k in done && done[k] + Overrun(|keys|, late) < start + budget)
  }

  lemma IsPrompt(keys: set<string>, done: Drain, start: nat, budget: nat, late: nat)
    ensures (forall k :: k in keys ==> k in done && Max(start, done[k]) + Overrun(|keys|, late) < start + budget) ==>
      keys == {} || Prompt(keys, done, start, budget, late)
  {
  }

  /** As long as every loop closes done early enough, nothing is late so far. */
  predicate OnTime(keys: set<string>, done: Drain, start: nat, budget: nat, late: nat,
                   slow: seq<string>, todo: set<string>, now: nat) {
    Prompt(keys, done, start, budget, late) ==>
      slow == [] && (todo == {} || now + Overrun(|todo|, late) < start + budget)
  }

  lemma StartsOnTime(keys: set<string>, done: Drain, start: nat, budget: nat, late: nat)
    ensures OnTime(keys, done, start, budget, late, [], keys, start)
  {
    hide Overrun;
  }

  lemma EndsOnTime(keys: set<string>, done: Drain, start: nat, budget: nat, late: nat, slow: seq<string>, now: nat)
    requires OnTime(keys, done, start, budget, late, slow, {}, now)
    ensures Prompt(keys, done, start, budget, late) ==> slow == []
  {
  }

  /** A loop that closes done before the deadline, with room for the delays, is not late. */
  lemma StaysOnTime(keys: set<string>, done: Drain, start: nat, budget: nat, late: nat, slow: seq<string>,
                    todo: set<string>, now: nat, key: string, finished: bool, elapsed: nat)
    requires OnTime(keys, done, start, budget, late, slow, todo, now) && key in todo && todo <= keys && start <= now
    requires key in done && Max(now, done[key]) < Max(now, start + budget) ==>
      finished && now + elapsed <= Max(now, done[key]) + late
    ensures OnTime(keys, done, start, budget, late, if finished then slow else slow + [key], todo - {key}, now + elapsed)
  {
    hide Overrun;
    Fewer(todo, keys);
    OverrunStep(|todo|, late);
    OverrunMonotone(|todo|, |keys|, late);
    assert |todo - {key}| == |todo| - 1;
  }

  /** The time that has passed, and what the waits still to come may add to it. */
  predicate Within(keys: set<string>, todo: set<string>, now: nat, deadline: nat, late: nat) {
    now + Overrun(|todo|, late) <= deadline + Overrun(|keys|, late)
  }

  lemma StartsWithin(keys: set<string>, start: nat, deadline: nat, late: nat)
    requires start <= deadline
    ensures Within(keys, keys, start, deadline, late)
  {
  }

  lemma EndsWithin(keys: set<string>, now: nat, deadline: nat, late: nat)
    requires Within(keys, {}, now, deadline, late)
    ensures now <= deadline + Overrun(|keys|, late)
  {
  }

  lemma StaysWithin(keys: set<string>, todo: set<string>, now: nat, deadline: nat, late: nat, key: string, elapsed: nat)
    requires Within(keys, todo, now, deadline, late) && key in todo && todo <= keys
    requires now + elapsed <= Max(now, deadline) + late
    ensures Within(keys, todo - {key}, now + elapsed, deadline, late)
  {
    hide Overrun;
    Fewer(todo, keys);
    OverrunStep(|todo|, late);
    OverrunMonotone(|todo|, |keys|, late);
    assert |todo - {key}| == |todo| - 1;
  }

  lemma {:induction false} Fewer(a: set<string>, b: set<string>)
    requires a <= b
    ensures |a| <= |b|
  {
    if a != {} {
      var x :| x in a;
      Fewer(a - {x}, b - {x});
    }
  }

  /** Where the waiting stands: who is still to come, who was late, the time and what is left of the budget. */
  predicate Draining(subs: map<string, Controller>, done: Drain, start: nat, budget: nat, late: nat, todo: set<string>,
                     names: seq<string>, slow: seq<string>, now: nat, remaining: int) {
    && Listed(names, slow, subs)
    && Accounted(subs.Keys, todo, slow, done, now, start + budget)
    && now + Max(0, remaining) == Max(now, start + budget)
    && Within(subs.Keys, todo, now, start + budget, late)
    && OnTime(subs.Keys, done, start, budget, late, slow, todo, now)
  }

  lemma DrainBegins(subs: map<string, Controller>, done: Drain, start: nat, timeoutMs: int, late: nat)
    ensures Draining(subs, done, start, Budget(timeoutMs), late, subs.Keys, [], [], start, Duration(timeoutMs))
  {
    hide Overrun, Duration, Accounted, Listed, OnTime, Within;
    NothingListed(subs, done, start, start + Budget(timeoutMs));
    StartsOnTime(subs.Keys, done, start, Budget(timeoutMs), late);
    StartsWithin(subs.Keys, start, start + Budget(timeoutMs), late);
  }

  lemma DrainOne(subs: map<string, Controller>, done: Drain, start: nat, budget: nat, late: nat, todo: set<string>,
                 names: seq<string>, slow: seq<string>, now: nat, remaining: int, key: string, finished: bool, elapsed: nat)
    requires Draining(subs, done, start, budget, late, todo, names, slow, now, remaining)
    requires key in todo && todo <= subs.Keys && start <= now
    requires elapsed <= Max(0, remaining) + late
    requires if finished then key in done && done[key] <= now + elapsed
             else Max(0, remaining) <= elapsed && MayTimeOut(done, key, now, remaining)
    requires key in done && Max(now, done[key]) < now + Max(0, remaining) ==>
      finished && now + elapsed <= Max(now, done[key]) + late
    ensures Draining(subs, done, start, budget, late, todo - {key},
                     if finished then names else names + [subs[key].name], if finished then slow else slow + [key],
                     now + elapsed, if remaining - elapsed < 0 then 0 else remaining - elapsed)
  {
    hide Overrun, Accounted, Listed, OnTime, Within;
    ListOne(names, slow, subs, todo, done, now, start + budget, key);
    AccountOne(subs.Keys, todo, slow, done, now, start + budget, key, finished, now + elapsed);
    StaysWithin(subs.Keys, todo, now, start + budget, late, key, elapsed);
    StaysOnTime(subs.Keys, done, start, budget, late, slow, todo, now, key, finished, elapsed);
  }

  lemma DrainEnds(subs: map<string, Controller>, done: Drain, start: nat, budget: nat, late: nat,
                  names: seq<string>, slow: seq<string>, now: nat, remaining: int)
    requires Draining(subs, done, start, budget, late, {}, names, slow, now, remaining)
    ensures var err := if |names| > 0 then Some(names) else None;
      && (err.None? <==> slow == [])
      && (err.Some? ==> |err.value| == |slow| && forall i :: 0 <= i < |slow| ==>
            slow[i] in subs && slow[i] !in slow[..i] && err.value[i] == subs[slow[i]].name)
    ensures forall k :: k in subs && k !in slow ==> k in done && done[k] <= now
    ensures forall k :: k in slow && k in done ==> start + budget <= Max(now, done[k])
    ensures now <= start + budget + Overrun(|subs.Keys|, late)
    ensures (forall k :: k in subs ==> k in done && Max(start, done[k]) + Overrun(|subs.Keys|, late) < start + budget) ==> slow == []
  {
    hide Overrun, Accounted, Listed, OnTime, Within, Prompt;
    IsPrompt(subs.Keys, done, start, budget, late);
    AllAccounted(subs.Keys, slow, done, now, start + budget);
    EndsOnTime(subs.Keys, done, start, budget, late, slow, now);
    EndsWithin(subs.Keys, now, start + budget, late);
    ListedReported(names, slow, subs);
    ReportedMeans(if |names| > 0 then Some(names) else None, slow, subs);
  }

  predicate NoneFails(cs: seq<Controller>, fails: set<string>, n: nat) {
    n <= |cs| && forall j :: 0 <= j < n ==> cs[j].topicKey !in fails
  }

  predicate IsFirstFailure(cs: seq<Controller>, fails: set<string>, i: nat) {
    i < |cs| && cs[i].topicKey in fails && NoneFails(cs, fails, i)
  }

  lemma ReportedMeans(err: Option<seq<string>>, slow: seq<string>, subs: map<string, Controller>)
    requires Reported(err, slow, subs)
    ensures err.None? <==> slow == []
    ensures err.Some? ==> |err.value| == |slow| && forall i :: 0 <= i < |slow| ==>
      slow[i] in subs && slow[i] !in slow[..i] && err.value[i] == subs[slow[i]].name
    ensures subs.Keys == {} ==> err.None?
  {
    assert slow != [] ==> slow[0] in subs.Keys;
  }

  /** Exactly these controllers are subscribed, each under its own topic. */
  predicate Subscribed(cs: seq<Controller>, subs: map<string, Controller>) {
    && (forall i :: 0 <= i < |cs| ==> cs[i].topicKey in subs && subs[cs[i].topicKey] == cs[i])
    && (forall k :: k in subs ==> subs[k].topicKey == k && subs[k] in cs)
  }

  lemma TopicsDisjoint(cs: seq<Controller>, fails: set<string>)
    ensures Topics(cs) !! fails <==> NoneFails(cs, fails, |cs|)
  {
    assert forall i :: 0 <= i < |cs| ==> cs[i].topicKey in Topics(cs);
  }

  lemma NotAllSubscribe(cs: seq<Controller>, fails: set<string>, i: nat)
    requires IsFirstFailure(cs, fails, i)
    ensures !NoneFails(cs, fails, |cs|)
  {
  }

  lemma OneMoreSubscribes(cs: seq<Controller>, fails: set<string>, i: nat)
    ensures NoneFails(cs, fails, 0)
    ensures NoneFails(cs, fails, i) && i < |cs| && cs[i].topicKey !in fails ==> NoneFails(cs, fails, i + 1)
  {
  }

  lemma NoneSubscribed()
    ensures Subscribed([], map[])
  {
  }

  lemma SubscribeOne(cs: seq<Controller>, i: nat, subs: map<string, Controller>)
    requires DistinctTopics(cs) && i < |cs| && Subscribed(cs[..i], subs)
    ensures Subscribed(cs[..i + 1], subs[cs[i].topicKey := cs[i]])
    ensures forall k :: k in subs ==> subs[k].topicKey == k && subs[k] in cs
  {
    assert cs[..i + 1] == cs[..i] + [cs[i]];
    forall j | 0 <= j < i ensures cs[j].topicKey != cs[i].topicKey {}
  }

  lemma AllSubscribed(cs: seq<Controller>, subs: map<string, Controller>)
    requires Subscribed(cs, subs)
    ensures subs.Keys == Topics(cs)
    ensures forall k :: k in subs ==> subs[k].topicKey == k && subs[k] in cs
  {
    forall k | k in subs ensures k in Topics(cs) {
      var i :| 0 <= i < |cs| && cs[i] == subs[k];
    }
  }

  class Consumer {
    var controllers: seq<Controller>
    var subscriptions: map<string, Controller>
    var stopped: bool
    ghost var running: set<string>  // topics whose consume loop was started and not cancelled

    ghost predicate Valid()
      reads this
    {
      && DistinctTopics(controllers)
      && (forall k :: k in subscriptions ==> subscriptions[k].topicKey == k && subscriptions[k] in controllers)
      && running == subscriptions.Keys
    }

    constructor ()
      ensures Valid() && controllers == [] && subscriptions == map[] && !stopped
    {
      controllers, subscriptions, stopped, running := [], map[], false, {};
    }

    method Register(c: Controller) returns (err: Option<Failure>)
      requires Valid()
      modifies this`controllers
      ensures Valid()
      ensures err.None? <==> !stopped && c.topicKey !in Topics(old(controllers))
      ensures controllers == if err.None? then old(controllers) + [c] else old(controllers)
      ensures err.Some? ==> err.value == if stopped then Stopped else Duplicate(c.topicKey)
    {
      if stopped {
        return Some(Stopped);
      }
      for i := 0 to |controllers|
        invariant forall j :: 0 <= j < i ==> controllers[j].topicKey != c.topicKey
      {
        if controllers[i].topicKey == c.topicKey {
          return Some(Duplicate(c.topicKey));
        }
      }
      controllers := controllers + [c];
      return None;
    }

    /** One wait for done or the timer, which may end up to late after the event. */
    method Await(done: Drain, key: string, now: int, remaining: int, late: nat) returns (finished: bool, elapsed: nat)
      ensures elapsed <= Max(0, remaining) + late
      ensures if finished then key in done && done[key] <= now + elapsed
              else Max(0, remaining) <= elapsed && MayTimeOut(done, key, now, remaining)
      ensures key in done && Max(now, done[key]) < now + Max(0, remaining) ==>
        finished && now + elapsed <= Max(now, done[key]) + late
    {
      var deadline := now + Max(0, remaining);
      var wake := if key in done && done[key] <= deadline then Max(now, done[key]) else deadline;
      if {
        case MayFinish(done, key, now, remaining) => finished := true;
        case MayTimeOut(done, key, now, remaining) => finished := false;
      }
      var delay: nat :| delay <= late;
      elapsed := wake + delay - now;
    }

    /**
     * Cancels every subscription and waits for each in turn, in any order, on
     * one budget. Each wait may end up to late after its event.
     */
    method UnsubscribeAll(timeoutMs: int, done: Drain, start: nat, late: nat)
      returns (err: Option<seq<string>>, end: nat, ghost slow: seq<string>)
      requires Valid()
      modifies this`subscriptions, this`running
      ensures Valid() && subscriptions == map[] && running == {}
      // The error names the controllers of the loops that were reported, each once.
      ensures err.None? <==> slow == []
      ensures err.Some? ==> |err.value| == |slow| && forall i :: 0 <= i < |slow| ==>
        slow[i] in old(subscriptions) && slow[i] !in slow[..i] && err.value[i] == old(subscriptions)[slow[i]].name
      // A loop that is not reported has closed done.
      ensures forall k :: k in old(subscriptions) && k !in slow ==> k in done && done[k] <= end
      // A loop is reported only if it was still running when the budget was used up, or its turn came later.
      ensures forall k :: k in slow && k in done ==> start + Budget(timeoutMs) <= Max(end, done[k])
      ensures start <= end <= start + Budget(timeoutMs) + Overrun(|old(subscriptions).Keys|, late)
      // Loops that close done within the budget, less the delays, are not reported.
      ensures (forall k :: k in old(subscriptions) ==>
        k in done && Max(start, done[k]) + Overrun(|old(subscriptions).Keys|, late) < start + Budget(timeoutMs)) ==> err.None?
    {
      hide Draining, Budget, Duration, Overrun;
      ghost var subs, budget := subscriptions, Budget(timeoutMs);
      running := running - subscriptions.Keys;
      var remaining := Duration(timeoutMs);
      var now: nat := start;
      var names := [];
      slow := [];
      var todo := subscriptions.Keys;
      DrainBegins(subs, done, start, timeoutMs, late);
      while todo != {}
        invariant subscriptions == subs && running == {} && todo <= subs.Keys && start <= now
        invariant Draining(subs, done, start, budget, late, todo, names, slow, now, remaining)
        decreases |todo|
      {
        var key :| key in todo;
        var finished, elapsed := Await(done, key, now, remaining, late);
        DrainOne(subs, done, start, budget, late, todo, names, slow, now, remaining, key, finished, elapsed);
        if !finished {
          names := names + [subscriptions[key].name];
          slow := slow + [key];
        }
        now := now + elapsed;
        remaining := remaining - elapsed;
        if remaining < 0 {
          remaining := 0;
        }
        todo := todo - {key};
      }
      DrainEnds(subs, done, start, budget, late, names, slow, now, remaining);
      subscriptions := map[];
      assert running == {};
      end := now;
      err := if |names| > 0 then Some(names) else None;
    }

    /**
     * Subscribes every registered controller, or none: the first that fails
     * has everything started before it cancelled again.
     */
    method Start(fails: set<string>, done: Drain, now: nat, late: nat) returns (err: Option<Failure>)
      requires Valid() && subscriptions == map[]
      modifies this`subscriptions, this`running
      ensures Valid()
      ensures err.None? <==> !stopped && controllers != [] && Topics(controllers) !! fails
      ensures err.None? ==> running == Topics(controllers) && Subscribed(controllers, subscriptions)
      ensures err.Some? ==> subscriptions == map[] && running == {}
      ensures err.Some? && !stopped && controllers != [] ==>
        exists i: nat :: IsFirstFailure(controllers, fails, i) && err.value.StartFailed? && err.value.name == controllers[i].name
    {
      hide Subscribed, Topics, Prompt, Reported, Overrun, Duration, DistinctTopics, Budget, Max, Listed, NoneFails;
      if stopped {
        return Some(Stopped);
      }
      NoneSubscribed();
      OneMoreSubscribes(controllers, fails, 0);
      if |controllers| == 0 {
        return Some(NoControllers);
      }
      for i := 0 to |controllers|
        invariant running == subscriptions.Keys && Subscribed(controllers[..i], subscriptions)
        invariant NoneFails(controllers, fails, i)
      {
        var c := controllers[i];
        OneMoreSubscribes(controllers, fails, i);
        SubscribeOne(controllers, i, subscriptions);
        if c.topicKey in fails {
          NotAllSubscribe(controllers, fails, i);
          TopicsDisjoint(controllers, fails);
          var cleanup, _, _ := UnsubscribeAll(STARTUP_CLEANUP_TIMEOUT_MS, done, now, late);
          return Some(StartFailed(c.name, cleanup));
        }
        subscriptions := subscriptions[c.topicKey := c];
        running := running + {c.topicKey};
      }
      assert controllers[..|controllers|] == controllers;
      AllSubscribed(controllers, subscriptions);
      TopicsDisjoint(controllers, fails);
      return None;
    }

    /** Stops everything, and nothing can be registered or started afterwards. */
    method Stop(timeoutMs: int, done: Drain, start: nat, late: nat)
      returns (err: Option<seq<string>>, end: nat, ghost slow: seq<string>)
      requires Valid()
      modifies this`stopped, this`subscriptions, this`running
      ensures Valid() && stopped && subscriptions == map[] && running == {}
      ensures Reported(err, slow, old(subscriptions))
      ensures err.None? ==> forall k :: k in old(subscriptions) ==> k in done && done[k] <= end
      ensures start <= end <= start + Budget(timeoutMs) + Overrun(|old(subscriptions).Keys|, late)
      // Loops that close done within the budget, less the delays, are not reported.
      ensures (forall k :: k in old(subscriptions) ==>
        k in done && Max(start, done[k]) + Overrun(|old(subscriptions).Keys|, late) < start + Budget(timeoutMs)) ==> err.None?
    {
      stopped := true;
      err, end, slow := UnsubscribeAll(timeoutMs, done, start, late);
    }
  }

  /**
   * The int64 multiplication is exact up to 292 years; beyond that the budget
   * is whatever is left after the product wraps, and may be nothing at all.
   */
  lemma BudgetIsTheTimeoutExactly(ms: nat)
    ensures Budget(ms) == ms * MILLISECOND <==> ms * MILLISECOND < INT64_RANGE / 2
    ensures Budget(9_223_372_036_855) == 0
  {
  }

  /** A loop that has already closed done can be reported as timed out exactly when the budget is used up. */
  lemma FinishedLoopReportedExactly(done: Drain, key: string, now: nat, remaining: int)
    requires key in done && done[key] <= now
    ensures MayFinish(done, key, now, remaining)
    ensures MayTimeOut(done, key, now, remaining) <==> remaining <= 0
  {
  }
}
