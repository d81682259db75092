// Classification of a failing controller's error (platform/errs/processor.go).
module ErrorProcessor {
  import opened Wrappers
  import opened ErrorTrees

  datatype Verdict = Unknown | User | Infra | InfraRetryable | InfraDependency | InfraDependencyRetryable

  /** Looks at one node. */
  type Classifier = Error -> Verdict

  predicate Retryable(v: Verdict) { v.InfraRetryable? || v.InfraDependencyRetryable? }

  function WrapVerdict(e: Error): Verdict {
    match e
    case UserError(_) => User
    case InfraError(_, retryable, dependency) =>
      if retryable && dependency then InfraDependencyRetryable
      else if retryable then InfraRetryable
      else if dependency then InfraDependency
      else Infra
    case _ => Unknown
  }

  function VerdictRank(v: Verdict): int {
    match v
    case InfraRetryable => 5
    case InfraDependencyRetryable => 4
    case Infra => 3
    case User => 2
    case InfraDependency => 1
    case Unknown => 0
  }

  function Heavier(v: Verdict, w: Verdict): Verdict {
    if VerdictRank(w) > VerdictRank(v) then w else v
  }

  /** The first classifier that recognises this node. */
  function NodeVerdict(cs: seq<Classifier>, e: Error): Verdict {
    if |cs| == 0 then Unknown
    else if cs[0](e) != Unknown then cs[0](e)
    else NodeVerdict(cs[1..], e)
  }

  function Classify(cs: seq<Classifier>, e: Error): Verdict
    decreases e
  {
    if WrapVerdict(e) != Unknown then WrapVerdict(e)
    else if NodeVerdict(cs, e) != Unknown then NodeVerdict(cs, e)
    else
      match e
      case Wrap(_, _, _, cause) => Classify(cs, cause)
      case Attributed(cause, _, _) => Classify(cs, cause)
      case Grouped(members) => Heaviest(cs, members)
      case _ => Unknown
  }

  function Heaviest(cs: seq<Classifier>, es: seq<Error>): Verdict
    decreases es
  {
    if |es| == 0 then Unknown else Heavier(Classify(cs, es[0]), Heaviest(cs, es[1..]))
  }

  /** The outermost framework wrap on the single-cause spine. */
  function SpineWrap(e: Error): Verdict {
    if WrapVerdict(e) != Unknown then WrapVerdict(e)
    else
      match e
      case Wrap(_, _, _, cause) => SpineWrap(cause)
      case Attributed(cause, _, _) => SpineWrap(cause)
      case _ => Unknown
  }

  function WrapAs(v: Verdict, e: Error): Error {
    match v
    case User => NewUserError(e)
    case InfraRetryable => NewRetryableError(e)
    case InfraDependency => NewDependencyError(e)
    case InfraDependencyRetryable => NewRetryableDependencyError(e)
    case _ => e
  }

  function Process(cs: seq<Classifier>, e: Error): Error {
    if SpineWrap(e) != Unknown then e else WrapAs(Classify(cs, e), e)
  }

  /** The verdict that Process acts on. */
  function VerdictOf(cs: seq<Classifier>, e: Error): Verdict {
    if SpineWrap(e) != Unknown then SpineWrap(e) else Classify(cs, e)
  }

  // ---- What the verdict is, node by node ----

  /** A node speaks first through a framework wrap, then through the first classifier that recognises it. */
  lemma {:induction false} FirstClassifierDecides(cs: seq<Classifier>, e: Error, k: nat)
    requires k <= |cs| && forall i :: 0 <= i < k ==> cs[i](e) == Unknown
    ensures k < |cs| && cs[k](e) != Unknown ==> NodeVerdict(cs, e) == cs[k](e)
    ensures k == |cs| ==> NodeVerdict(cs, e) == Unknown
  {
    if k > 0 {
      assert cs[0](e) == Unknown;
      FirstClassifierDecides(cs[1..], e, k - 1);
    }
  }

  function OwnVerdict(cs: seq<Classifier>, e: Error): (v: Verdict)
    ensures e.UserError? ==> v == User
    ensures e.InfraError? ==> (Retryable(v) <==> e.retryable) && (v.InfraDependency? || v.InfraDependencyRetryable? <==> e.dependency)
    ensures e.InfraError? ==> v != Unknown && v != User
    ensures !e.UserError? && !e.InfraError? ==> v == NodeVerdict(cs, e)
  {
    if WrapVerdict(e) != Unknown then WrapVerdict(e) else NodeVerdict(cs, e)
  }

  /** Down the causes the outermost node that says anything decides; and if none does, a Group at the end decides by its members. */
  lemma {:induction false} OutermostDecides(cs: seq<Classifier>, e: Error, k: nat)
    requires k <= |Spine(e)| && forall i :: 0 <= i < k ==> OwnVerdict(cs, Spine(e)[i]) == Unknown
    ensures k < |Spine(e)| && OwnVerdict(cs, Spine(e)[k]) != Unknown ==> Classify(cs, e) == OwnVerdict(cs, Spine(e)[k])
    ensures k == |Spine(e)| ==>
      var last := Spine(e)[|Spine(e)| - 1];
      Classify(cs, e) == if last.Grouped? then Heaviest(cs, last.members) else Unknown
    decreases e
  {
    SpineUnfolds(e);
    if k > 0 {
      assert OwnVerdict(cs, Spine(e)[0]) == Unknown;
      if Unwrap(e).Some? {
        var cause := Unwrap(e).value;
        assert forall i :: 0 <= i < k - 1 ==> Spine(cause)[i] == Spine(e)[i + 1];
        OutermostDecides(cs, cause, k - 1);
      }
    }
  }

  /** Some member of a Group was given this verdict. */
  ghost predicate SomeSays(cs: seq<Classifier>, ms: seq<Error>, v: Verdict) {
    exists i :: 0 <= i < |ms| && Classify(cs, ms[i]) == v
  }

  /**
   * What a Group comes to: retryable if any member is, without the dependency
   * if one such member has none; otherwise ours to fix before the user's, and
   * the user's before a dependency's.
   */
  lemma GroupComesTo(cs: seq<Classifier>, ms: seq<Error>)
    ensures Heaviest(cs, ms) ==
      if SomeSays(cs, ms, InfraRetryable) then InfraRetryable
      else if SomeSays(cs, ms, InfraDependencyRetryable) then InfraDependencyRetryable
      else if SomeSays(cs, ms, Infra) then Infra
      else if SomeSays(cs, ms, User) then User
      else if SomeSays(cs, ms, InfraDependency) then InfraDependency
      else Unknown
  {
    HeaviestIsMaximal(cs, ms);
    assert Heaviest(cs, ms) != Unknown ==> SomeSays(cs, ms, Heaviest(cs, ms));
    hide Classify, Heaviest;
    forall v | SomeSays(cs, ms, v) ensures VerdictRank(v) <= VerdictRank(Heaviest(cs, ms)) {
      var i :| 0 <= i < |ms| && Classify(cs, ms[i]) == v;
    }
  }

  /** An error with a framework wrap on its spine is left as it is; any other is wrapped in what its verdict says, and only that. */
  lemma {:induction false} ProcessWrapsByVerdict(cs: seq<Classifier>, e: Error)
    ensures (exists i :: 0 <= i < |Spine(e)| && (Spine(e)[i].UserError? || Spine(e)[i].InfraError?)) ==> Process(cs, e) == e
    ensures (forall i :: 0 <= i < |Spine(e)| ==> !Spine(e)[i].UserError? && !Spine(e)[i].InfraError?) ==>
      Process(cs, e) == match Classify(cs, e)
                        case User => UserError(e)
                        case InfraRetryable => InfraError(e, true, false)
                        case InfraDependency => InfraError(e, false, true)
                        case InfraDependencyRetryable => InfraError(e, true, true)
                        case _ => e
  {
    WrapOnSpine(e);
  }

  lemma {:induction false} WrapOnSpine(e: Error)
    ensures SpineWrap(e) != Unknown <==> exists i :: 0 <= i < |Spine(e)| && (Spine(e)[i].UserError? || Spine(e)[i].InfraError?)
    decreases e
  {
    SpineUnfolds(e);
    assert Spine(e)[0] == e;
    if Unwrap(e).Some? {
      var cause := Unwrap(e).value;
      WrapOnSpine(cause);
      assert forall i :: 0 <= i < |Spine(cause)| ==> Spine(cause)[i] == Spine(e)[i + 1];
    }
  }

  // ---- The code: walks with an updated cursor and a running verdict ----

  lemma {:induction false} HeaviestSplit(cs: seq<Classifier>, es: seq<Error>, i: nat)
    requires i <= |es|
    ensures Heaviest(cs, es) == Heavier(Heaviest(cs, es[..i]), Heaviest(cs, es[i..]))
  {
    if i > 0 {
      HeaviestSplit(cs, es[1..], i - 1);
      assert es[1..][..i - 1] == es[..i][1..] && es[1..][i - 1..] == es[i..];
    } else {
      assert es[..0] == [] && es[0..] == es;
    }
  }

  method ClassifyByWalk(cs: seq<Classifier>, err: Error) returns (v: Verdict)
    ensures v == Classify(cs, err)
    decreases err
  {
    var cur := Some(err);
    while cur.Some?
      invariant cur.Some? ==> cur.value == err || cur.value < err
      invariant Classify(cs, err) == if cur.Some? then Classify(cs, cur.value) else Unknown
      decreases cur.Some?, if cur.Some? then cur.value else err
    {
      var node := cur.value;
      var w := WrapVerdict(node);
      if w != Unknown { return w; }
      for i := 0 to |cs|
        invariant NodeVerdict(cs, node) == NodeVerdict(cs[i..], node)
      {
        var c := cs[i](node);
        if c != Unknown { return c; }
      }
      if node.Grouped? {
        var verdict := Unknown;
        for i := 0 to |node.members|
          invariant verdict == Heaviest(cs, node.members[..i])
        {
          var m := ClassifyByWalk(cs, node.members[i]);
          HeaviestSplit(cs, node.members[..i + 1], i);
          assert node.members[..i + 1][..i] == node.members[..i] && node.members[..i + 1][i..] == [node.members[i]];
          if VerdictRank(m) > VerdictRank(verdict) { verdict := m; }
        }
        assert node.members[..|node.members|] == node.members;
        return verdict;
      }
      cur := Unwrap(node);
    }
    return Unknown;
  }

  method ProcessError(cs: seq<Classifier>, err: Option<Error>) returns (out: Option<Error>)
    ensures out == if err.None? then None else Some(Process(cs, err.value))
  {
    if err.None? { return None; }
    var cur := err;
    while cur.Some?
      invariant SpineWrap(err.value) == if cur.Some? then SpineWrap(cur.value) else Unknown
      decreases cur.Some?, if cur.Some? then cur.value else err.value
    {
      if WrapVerdict(cur.value) != Unknown { return err; }
      cur := Unwrap(cur.value);
    }
    var v := ClassifyByWalk(cs, err.value);
    match v
    case User => return Some(NewUserError(err.value));
    case InfraRetryable => return Some(NewRetryableError(err.value));
    case InfraDependency => return Some(NewDependencyError(err.value));
    case InfraDependencyRetryable => return Some(NewRetryableDependencyError(err.value));
    case _ => return err;
  }

  function AlwaysRetryable(e: Error): Error { NewRetryableError(e) }

  /** Whatever an error carries, the always-retryable processor makes it
      retryable, and hides that it came from a dependency. */
  lemma AlwaysRetryableOverrides(e: Error)
    ensures IsRetryable(AlwaysRetryable(e)) && !IsDependencyError(AlwaysRetryable(e))
  {
  }

  // ---- Group order ----

  /** b is a with the members of Groups reordered, at any depth. */
  ghost predicate Reordered(a: Error, b: Error)
    decreases a
  {
    match (a, b)
    case (Wrap(f, g, q, c), Wrap(f', g', q', d)) => f == f' && g == g' && q == q' && Reordered(c, d)
    case (UserError(c), UserError(d)) => Reordered(c, d)
    case (InfraError(c, r, dep), InfraError(d, r', dep')) => r == r' && dep == dep' && Reordered(c, d)
    case (Attributed(c, s, m), Attributed(d, s', m')) => s == s' && m == m' && Reordered(c, d)
    case (Grouped(ms), Grouped(ns)) => Permuted(ms, ns)
    case (Joined(p, ms), Joined(p', ns)) => p == p' && Pointwise(ms, ns)
    case _ => a == b
  }

  /** ns is a permutation of ms, up to reordering inside each. */
  ghost predicate Permuted(ms: seq<Error>, ns: seq<Error>)
    decreases ms
  {
    if |ms| == 0 then |ns| == 0
    else exists k :: 0 <= k < |ns| && Reordered(ms[0], ns[k]) && Permuted(ms[1..], Drop(ns, k))
  }

  ghost predicate Pointwise(ms: seq<Error>, ns: seq<Error>)
    decreases ms
  {
    |ms| == |ns| && (|ms| > 0 ==> Reordered(ms[0], ns[0]) && Pointwise(ms[1..], ns[1..]))
  }

  function Drop(ns: seq<Error>, k: nat): seq<Error>
    requires k < |ns|
  {
    ns[..k] + ns[k + 1..]
  }

  ghost predicate IgnoresOrder(cs: seq<Classifier>) {
    forall a, b :: Reordered(a, b) ==> NodeVerdict(cs, a) == NodeVerdict(cs, b)
  }

  /** A group's verdict is a member's verdict that no other member outranks. */
  lemma {:induction false} HeaviestIsMaximal(cs: seq<Classifier>, es: seq<Error>)
    ensures forall i :: 0 <= i < |es| ==> VerdictRank(Classify(cs, es[i])) <= VerdictRank(Heaviest(cs, es))
    ensures Heaviest(cs, es) != Unknown ==> exists i :: 0 <= i < |es| && Classify(cs, es[i]) == Heaviest(cs, es)
  {
    if |es| > 0 {
      HeaviestIsMaximal(cs, es[1..]);
      assert forall i :: 1 <= i < |es| ==> es[i] == es[1..][i - 1];
      if Heaviest(cs, es[1..]) != Unknown {
        var i :| 0 <= i < |es[1..]| && Classify(cs, es[1..][i]) == Heaviest(cs, es[1..]);
        assert Classify(cs, es[i + 1]) == Heaviest(cs, es[1..]);
      }
    }
  }

  lemma HeaviestOfDrop(cs: seq<Classifier>, ns: seq<Error>, k: nat)
    requires k < |ns|
    ensures Heaviest(cs, ns) == Heavier(Classify(cs, ns[k]), Heaviest(cs, Drop(ns, k)))
  {
    HeaviestSplit(cs, ns, k);
    HeaviestSplit(cs, Drop(ns, k), k);
    assert Drop(ns, k)[..k] == ns[..k] && Drop(ns, k)[k..] == ns[k + 1..];
    assert ns[k..][0] == ns[k] && ns[k..][1..] == ns[k + 1..];
  }

  /** The verdict does not depend on the order in which members failed. */
  lemma {:induction false} ClassifyIgnoresOrder(cs: seq<Classifier>, a: Error, b: Error)
    requires IgnoresOrder(cs) && Reordered(a, b)
    ensures Classify(cs, a) == Classify(cs, b)
    decreases a
  {
    match a
    case Wrap(_, _, _, c) => ClassifyIgnoresOrder(cs, c, b.cause);
    case Attributed(c, _, _) => ClassifyIgnoresOrder(cs, c, b.cause);
    case Grouped(ms) => HeaviestIgnoresOrder(cs, ms, b.members);
    case _ =>
  }

  lemma {:induction false} HeaviestIgnoresOrder(cs: seq<Classifier>, ms: seq<Error>, ns: seq<Error>)
    requires IgnoresOrder(cs) && Permuted(ms, ns)
    ensures Heaviest(cs, ms) == Heaviest(cs, ns)
    decreases ms
  {
    if |ms| > 0 {
      var k :| 0 <= k < |ns| && Reordered(ms[0], ns[k]) && Permuted(ms[1..], Drop(ns, k));
      ClassifyIgnoresOrder(cs, ms[0], ns[k]);
      HeaviestIgnoresOrder(cs, ms[1..], Drop(ns, k));
      HeaviestOfDrop(cs, ns, k);
    }
  }

  // ---- What the transport sees of the verdict ----

  lemma {:induction false} SpineWrapSeen(e: Error)
    requires SpineWrap(e) != Unknown && SpineWrap(e) != User
    ensures IsRetryable(e) == Retryable(SpineWrap(e))
  {
    match e
    case Wrap(_, _, _, cause) => SpineWrapSeen(cause);
    case Attributed(cause, _, _) => SpineWrapSeen(cause);
    case _ =>
  }

  /** Exactly when the transport's test agrees with the verdict: unless the
      verdict adds no infra wrap of its own while the error already tested
      retryable before it was processed. */
  lemma RetryTestAgreesExactly(cs: seq<Classifier>, e: Error)
    ensures (IsRetryable(Process(cs, e)) <==> Retryable(VerdictOf(cs, e)))
      <==> !(IsRetryable(e) && VerdictOf(cs, e) in {Unknown, User, Infra})
  {
    if SpineWrap(e) != Unknown && SpineWrap(e) != User { SpineWrapSeen(e); }
  }

  /** A classified error is left alone, so processing twice changes nothing. */
  lemma ProcessIsIdempotent(cs: seq<Classifier>, e: Error)
    ensures Process(cs, Process(cs, e)) == Process(cs, e)
    ensures VerdictOf(cs, Process(cs, e)) == VerdictOf(cs, e)
  {
  }

  /** Every node carries at most one account of its failure: no framework wrap
      below another or below a node a classifier recognises, and none inside an
      error whose causes are not a Group's. */
  predicate Layered(cs: seq<Classifier>, e: Error)
    decreases e
  {
    && (NodeVerdict(cs, e) != Unknown && WrapVerdict(e) == Unknown ==> !HasWrap(e))
    && match e
       case Leaf(_) => true
       case Wrap(_, _, _, cause) => Layered(cs, cause)
       case UserError(cause) => !HasWrap(cause)
       case InfraError(cause, _, _) => !HasWrap(cause)
       case Attributed(cause, _, _) => Layered(cs, cause)
       case Grouped(members) => AllLayered(cs, members)
       case Joined(_, causes) => !AnyWrap(causes)
  }

  predicate AllLayered(cs: seq<Classifier>, es: seq<Error>)
    decreases es
  {
    |es| > 0 ==> Layered(cs, es[0]) && AllLayered(cs, es[1..])
  }

  lemma {:induction false} LayeredReachesWrap(cs: seq<Classifier>, e: Error)
    requires Layered(cs, e) && IsRetryable(e)
    ensures Retryable(Classify(cs, e)) && SpineWrap(e) != User
    decreases e
  {
    if !HasWrap(e) { NoWrapNoInfra(e); }
    match e
    case Wrap(_, _, _, cause) => LayeredReachesWrap(cs, cause);
    case Attributed(cause, _, _) => LayeredReachesWrap(cs, cause);
    case UserError(cause) => NoWrapNoInfra(cause);
    case Grouped(members) => LayeredReachesWrapIn(cs, members);
    case Joined(_, causes) => NoWrapNoInfraIn(causes);
    case _ =>
  }

  lemma {:induction false} LayeredReachesWrapIn(cs: seq<Classifier>, es: seq<Error>)
    requires AllLayered(cs, es)
    requires FirstInfraIn(es).Some? && FirstInfraIn(es).value.InfraError? && FirstInfraIn(es).value.retryable
    ensures Retryable(Heaviest(cs, es))
    decreases es
  {
    if FirstInfra(es[0]).Some? {
      LayeredReachesWrap(cs, es[0]);
    } else {
      LayeredReachesWrapIn(cs, es[1..]);
    }
  }

  /** For layered errors the transport retries exactly the retryable verdicts. */
  lemma LayeredRetryTestAgrees(cs: seq<Classifier>, e: Error)
    requires Layered(cs, e)
    ensures IsRetryable(Process(cs, e)) <==> Retryable(VerdictOf(cs, e))
  {
    RetryTestAgreesExactly(cs, e);
    if IsRetryable(e) {
      LayeredReachesWrap(cs, e);
      if SpineWrap(e) != Unknown { SpineWrapSeen(e); }
    }
  }

  /** No Group and no other error with several causes, anywhere. */
  predicate Linear(e: Error) {
    match e
    case Leaf(_) => true
    case Grouped(_) => false
    case Joined(_, _) => false
    case _ => Linear(Unwrap(e).value)
  }

  /** The outermost wrap is a user error and the outermost infra wrap below it
      is retryable. */
  predicate UserOverRetryable(e: Error) {
    SpineWrap(e) == User && IsRetryable(e)
  }

  lemma {:induction false} LinearInfraIsOnSpine(e: Error)
    requires Linear(e) && SpineWrap(e) == Unknown
    ensures !IsRetryable(e)
  {
    match e
    case Wrap(_, _, _, cause) => LinearInfraIsOnSpine(cause);
    case Attributed(cause, _, _) => LinearInfraIsOnSpine(cause);
    case _ =>
  }

  /** Along a single chain of causes the only disagreement, for any
      classifiers, is a user wrap put on top of a retryable one. */
  lemma LinearRetryTestAgreesExactly(cs: seq<Classifier>, e: Error)
    requires Linear(e)
    ensures (IsRetryable(Process(cs, e)) <==> Retryable(VerdictOf(cs, e))) <==> !UserOverRetryable(e)
  {
    RetryTestAgreesExactly(cs, e);
    if SpineWrap(e) == Unknown { LinearInfraIsOnSpine(e); }
    else if SpineWrap(e) != User { SpineWrapSeen(e); }
  }

  /** A user verdict on top of a retryable error is retried all the same. */
  lemma UserWrapAroundRetryableIsRetried(cs: seq<Classifier>, e: Error)
    ensures var err := NewUserError(NewRetryableError(e));
      VerdictOf(cs, err) == User && IsRetryable(Process(cs, err))
  {
  }

  function Recognises(e: Error, v: Verdict): Classifier { (x: Error) => if x == e then v else Unknown }

  /** And in a Group the outcome can depend on the order after all: a member
      whose verdict adds no wrap leaves it to the first infra wrap that
      errors.As meets, which may be one inside a user wrap. */
  lemma GroupOrderCanDecideRetry(e: Error, f: Error)
    requires e.Leaf? && f.Leaf?
    ensures var cs := [Recognises(e, Infra)];
      var user := NewUserError(NewRetryableError(f));
      var gone := NewDependencyError(f);
      && IsRetryable(Process(cs, Grouped([e, user, gone])))
      && !IsRetryable(Process(cs, Grouped([e, gone, user])))
      && VerdictOf(cs, Grouped([e, user, gone])) == Infra
      && VerdictOf(cs, Grouped([e, gone, user])) == Infra
  {
    var cs := [Recognises(e, Infra)];
    var user := NewUserError(NewRetryableError(f));
    var gone := NewDependencyError(f);
    var g, h := Grouped([e, user, gone]), Grouped([e, gone, user]);
    assert Classify(cs, e) == Infra && Classify(cs, user) == User && Classify(cs, gone) == InfraDependency;
    assert cs[1..] == [] && NodeVerdict(cs, g) == Unknown && NodeVerdict(cs, h) == Unknown;
    ThreeMembers(cs, e, user, gone);
    ThreeMembers(cs, e, gone, user);
    assert Classify(cs, g) == Infra && Classify(cs, h) == Infra;
    assert FirstInfra(g) == FirstInfra(user) && FirstInfra(h) == FirstInfra(gone);
    assert FirstInfra(user) == Some(NewRetryableError(f)) && FirstInfra(gone) == Some(gone);
  }

  lemma ThreeMembers(cs: seq<Classifier>, a: Error, b: Error, c: Error)
    ensures Heaviest(cs, [a, b, c]) == Heavier(Classify(cs, a), Heavier(Classify(cs, b), Heavier(Classify(cs, c), Unknown)))
    ensures FirstInfra(a).None? && FirstInfra(b).Some? ==> FirstInfraIn([a, b, c]) == FirstInfra(b)
  {
    assert [a, b, c][1..] == [b, c] && [b, c][1..] == [c];
    assert Heaviest(cs, [c]) == Heavier(Classify(cs, c), Unknown);
  }
}
