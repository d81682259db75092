// What a failure is about: the subjects and details that the layers of an
// error carry (platform/errs/failure.go).
module Attribution {
  import opened Wrappers
  import opened ErrorTrees
  import opened ErrorProcessor

  datatype Failure = Failure(message: string, subjects: seq<Subject>, detail: map<string, string>)

  /** Every subject named on the single-cause spine, outermost layer first. */
  function SpineSubjects(e: Error): seq<Subject> {
    match e
    case Attributed(cause, subjects, _) => subjects + SpineSubjects(cause)
    case Wrap(_, _, _, cause) => SpineSubjects(cause)
    case UserError(cause) => SpineSubjects(cause)
    case InfraError(cause, _, _) => SpineSubjects(cause)
    case _ => []
  }

  /** The details on the spine; an outer layer's keys override an inner one's. */
  function SpineDetail(e: Error): map<string, string> {
    match e
    case Attributed(cause, _, detail) => SpineDetail(cause) + detail
    case Wrap(_, _, _, cause) => SpineDetail(cause)
    case UserError(cause) => SpineDetail(cause)
    case InfraError(cause, _, _) => SpineDetail(cause)
    case _ => map[]
  }

  /** First occurrences only, except of what is in `seen`. */
  function Fresh(ss: seq<Subject>, seen: set<Subject>): seq<Subject> {
    if |ss| == 0 then []
    else if ss[0] in seen then Fresh(ss[1..], seen)
    else [ss[0]] + Fresh(ss[1..], seen + {ss[0]})
  }

  function AttributionOf(e: Error): Failure {
    Failure(Text(e), Fresh(SpineSubjects(e), {}), SpineDetail(e))
  }

  // ---- The loop ----

  function Elements(ss: seq<Subject>): set<Subject> { set s | s in ss }

  lemma {:induction false} FreshAppend(ss: seq<Subject>, ts: seq<Subject>, seen: set<Subject>)
    ensures Fresh(ss + ts, seen) == Fresh(ss, seen) + Fresh(ts, seen + Elements(ss))
  {
    if |ss| == 0 {
      assert ss + ts == ts && seen + Elements(ss) == seen;
    } else {
      assert (ss + ts)[1..] == ss[1..] + ts && (ss + ts)[0] == ss[0];
      var seen' := if ss[0] in seen then seen else seen + {ss[0]};
      FreshAppend(ss[1..], ts, seen');
      assert seen' + Elements(ss[1..]) == seen + Elements(ss) by {
        assert forall s :: s in ss <==> s == ss[0] || s in ss[1..];
      }
    }
  }

  method AddSubjects(subjects: seq<Subject>, result: seq<Subject>, seen: set<Subject>)
    returns (result': seq<Subject>, seen': set<Subject>)
    ensures result' == result + Fresh(subjects, seen)
    ensures seen' == seen + Elements(subjects)
  {
    result', seen' := result, seen;
    for i := 0 to |subjects|
      invariant result' == result + Fresh(subjects[..i], seen)
      invariant seen' == seen + Elements(subjects[..i])
    {
      var s := subjects[i];
      FreshAppend(subjects[..i], [s], seen);
      assert subjects[..i + 1] == subjects[..i] + [s];
      if s in seen' { continue; }
      seen' := seen' + {s};
      result' := result' + [s];
    }
    assert subjects[..|subjects|] == subjects;
  }

  method AddDetail(detail: map<string, string>, result: map<string, string>) returns (result': map<string, string>)
    ensures result' == detail + result
  {
    result' := result;
    var todo := detail.Keys;
    while todo != {}
      invariant todo <= detail.Keys
      invariant forall k :: k in result' <==> k in result || (k in detail && k !in todo)
      invariant forall k :: k in result' ==> result'[k] == if k in result then result[k] else detail[k]
      decreases todo
    {
      var k :| k in todo;
      todo := todo - {k};
      if k !in result' { result' := result'[k := detail[k]]; }
    }
  }

  /** Subjects accumulate outermost first without repeats, and an outer layer's
      detail keys win, in whatever order the keys are visited. */
  method Attribution(err: Option<Error>) returns (f: Failure)
    ensures f == if err.None? then Failure("", [], map[]) else AttributionOf(err.value)
  {
    if err.None? { return Failure("", [], map[]); }
    var subjects: seq<Subject>, detail: map<string, string>, seen: set<Subject> := [], map[], {};
    var node := err;
    while node.Some?
      invariant Fresh(SpineSubjects(err.value), {}) == subjects + Fresh(SubjectsFrom(node), seen)
      invariant SpineDetail(err.value) == DetailFrom(node) + detail
      decreases node.Some?, if node.Some? then node.value else err.value
    {
      var e := node.value;
      if e.Attributed? {
        LayerStep(e, subjects, seen, detail);
        subjects, seen := AddSubjects(e.subjects, subjects, seen);
        detail := AddDetail(e.detail, detail);
      }
      node := Unwrap(e);
    }
    return Failure(Text(err.value), subjects, detail);
  }

  function SubjectsFrom(node: Option<Error>): seq<Subject> {
    if node.Some? then SpineSubjects(node.value) else []
  }

  function DetailFrom(node: Option<Error>): map<string, string> {
    if node.Some? then SpineDetail(node.value) else map[]
  }

  lemma LayerStep(e: Error, subjects: seq<Subject>, seen: set<Subject>, detail: map<string, string>)
    requires e.Attributed?
    ensures subjects + Fresh(SpineSubjects(e), seen)
      == (subjects + Fresh(e.subjects, seen)) + Fresh(SpineSubjects(e.cause), seen + Elements(e.subjects))
    ensures SpineDetail(e) + detail == SpineDetail(e.cause) + (e.detail + detail)
  {
    FreshAppend(e.subjects, SpineSubjects(e.cause), seen);
  }

  // ---- What the result says ----

  function FirstIndex(ss: seq<Subject>, s: Subject): nat
    requires s in ss
  {
    if ss[0] == s then 0 else 1 + FirstIndex(ss[1..], s)
  }

  /** The subjects of the result are exactly those named on the spine, each
      once. */
  lemma {:induction false} FreshKeepsEachOnce(ss: seq<Subject>, seen: set<Subject>)
    ensures forall s :: s in Fresh(ss, seen) <==> s in ss && s !in seen
    ensures forall i, j :: 0 <= i < j < |Fresh(ss, seen)| ==> Fresh(ss, seen)[i] != Fresh(ss, seen)[j]
  {
    if |ss| > 0 {
      var seen' := if ss[0] in seen then seen else seen + {ss[0]};
      FreshKeepsEachOnce(ss[1..], seen');
      var rest := Fresh(ss[1..], seen');
      assert forall s :: s in ss <==> s == ss[0] || s in ss[1..];
      assert forall j :: 0 <= j < |rest| ==> rest[j] in rest;
    }
  }

  /** Of two subjects in the result, the one named first on the spine comes
      first. */
  lemma {:induction false} FreshKeepsOrder(ss: seq<Subject>, seen: set<Subject>, i: nat, j: nat)
    requires i < j < |Fresh(ss, seen)|
    ensures var r := Fresh(ss, seen);
      r[i] in ss && r[j] in ss && FirstIndex(ss, r[i]) < FirstIndex(ss, r[j])
  {
    FreshKeepsEachOnce(ss, seen);
    var r := Fresh(ss, seen);
    assert r[i] in r && r[j] in r;
    if ss[0] in seen {
      FreshKeepsOrder(ss[1..], seen, i, j);
    } else if i > 0 {
      FreshKeepsOrder(ss[1..], seen + {ss[0]}, i - 1, j - 1);
      assert r[0] == ss[0];
    }
  }

  // ---- Layer by layer ----

  /** Layer i of the spine names the subject. */
  predicate Names(e: Error, i: nat, s: Subject) {
    i < |Spine(e)| && Spine(e)[i].Attributed? && s in Spine(e)[i].subjects
  }

  predicate Details(e: Error, i: nat, key: string) {
    i < |Spine(e)| && Spine(e)[i].Attributed? && key in Spine(e)[i].detail
  }

  lemma BelowIsTheCause(e: Error, i: nat)
    requires Unwrap(e).Some?
    ensures i + 1 < |Spine(e)| <==> i < |Spine(Unwrap(e).value)|
    ensures i + 1 < |Spine(e)| ==> Spine(e)[i + 1] == Spine(Unwrap(e).value)[i]
  {
    SpineUnfolds(e);
  }

  /** A subject is attributed exactly if some attribution layer on the spine names it. */
  lemma {:induction false} EveryLayerCounts(e: Error, s: Subject)
    ensures s in SpineSubjects(e) <==> exists i: nat :: Names(e, i, s)
    decreases e
  {
    SpineUnfolds(e);
    if Unwrap(e).Some? {
      var cause := Unwrap(e).value;
      EveryLayerCounts(cause, s);
      if i: nat :| Names(cause, i, s) {
        BelowIsTheCause(e, i);
        assert Names(e, i + 1, s);
      }
      if i: nat :| Names(e, i, s) {
        if i > 0 {
          BelowIsTheCause(e, i - 1);
          assert Names(cause, i - 1, s);
        }
      }
      assert e.Attributed? && s in e.subjects ==> Names(e, 0, s);
    }
  }

  lemma {:induction false} FirstIndexOfConcat(a: seq<Subject>, b: seq<Subject>, s: Subject)
    requires s in a + b
    ensures if s in a then FirstIndex(a + b, s) == FirstIndex(a, s) < |a| else s in b && FirstIndex(a + b, s) == |a| + FirstIndex(b, s)
  {
    if |a| == 0 {
      assert a + b == b;
    } else if a[0] != s {
      assert (a + b)[1..] == a[1..] + b && a == [a[0]] + a[1..];
      assert s in (a + b)[1..];
      FirstIndexOfConcat(a[1..], b, s);
    }
  }

  /** A subject of an outer layer comes before one that only inner layers name; within one layer the order is the layer's. */
  lemma {:induction false} OuterLayersComeFirst(e: Error, k: nat, s: Subject, t: Subject)
    requires Names(e, k, s) && t in SpineSubjects(e) && s != t
    requires forall i: nat :: i < k ==> !Names(e, i, s) && !Names(e, i, t)
    requires Names(e, k, t) ==> FirstIndex(Spine(e)[k].subjects, s) < FirstIndex(Spine(e)[k].subjects, t)
    ensures s in SpineSubjects(e) && FirstIndex(SpineSubjects(e), s) < FirstIndex(SpineSubjects(e), t)
    decreases e
  {
    SpineUnfolds(e);
    EveryLayerCounts(e, s);
    if k == 0 {
      FirstIndexOfConcat(e.subjects, SpineSubjects(e.cause), s);
      FirstIndexOfConcat(e.subjects, SpineSubjects(e.cause), t);
    } else {
      var cause := Unwrap(e).value;
      BelowIsTheCause(e, k - 1);
      assert !Names(e, 0, s) && !Names(e, 0, t);
      forall i: nat | i < k - 1 ensures !Names(cause, i, s) && !Names(cause, i, t) {
        BelowIsTheCause(e, i);
        assert !Names(e, i + 1, s) && !Names(e, i + 1, t);
      }
      if e.Attributed? {
        var (a, b) := (e.subjects, SpineSubjects(cause));
        FirstIndexOfConcat(a, b, s);
        FirstIndexOfConcat(a, b, t);
      }
      OuterLayersComeFirst(cause, k - 1, s, t);
    }
  }

  /** A detail is there exactly if some layer gives its key, and it is the outermost such layer's. */
  lemma {:induction false} OutermostDetailWins(e: Error, k: nat, key: string)
    requires forall i: nat :: i < k ==> !Details(e, i, key)
    ensures Details(e, k, key) ==> key in SpineDetail(e) && SpineDetail(e)[key] == Spine(e)[k].detail[key]
    ensures k >= |Spine(e)| ==> key !in SpineDetail(e)
    decreases e
  {
    SpineUnfolds(e);
    if Unwrap(e).Some? && k > 0 {
      var cause := Unwrap(e).value;
      BelowIsTheCause(e, k - 1);
      assert !Details(e, 0, key);
      forall i: nat | i < k - 1 ensures !Details(cause, i, key) {
        BelowIsTheCause(e, i);
        assert !Details(e, i + 1, key);
      }
      OutermostDetailWins(cause, k - 1, key);
    }
  }

  /** Classifying an error never changes what it is attributed to, nor its
      message. */
  lemma ProcessKeepsAttribution(cs: seq<Classifier>, e: Error)
    ensures AttributionOf(Process(cs, e)) == AttributionOf(e)
    ensures AttributionOf(AlwaysRetryable(e)) == AttributionOf(e)
  {
  }

  // ---- Attribution layers do not classify ----

  /** e without any attribution layer, at any depth. */
  function Bare(e: Error): Error {
    match e
    case Leaf(_) => e
    case Wrap(before, after, quotes, cause) => Wrap(before, after, quotes, Bare(cause))
    case UserError(cause) => UserError(Bare(cause))
    case InfraError(cause, retryable, dependency) => InfraError(Bare(cause), retryable, dependency)
    case Attributed(cause, _, _) => Bare(cause)
    case Grouped(members) => Grouped(BareAll(members))
    case Joined(pieces, causes) => Joined(pieces, BareAll(causes))
  }

  function BareAll(es: seq<Error>): (r: seq<Error>)
    ensures |r| == |es|
  {
    if |es| == 0 then [] else [Bare(es[0])] + BareAll(es[1..])
  }

  /** The classifiers do not recognise attribution layers, nor do they look at
      the layers below a node. */
  ghost predicate IgnoresLayers(cs: seq<Classifier>) {
    forall e: Error :: NodeVerdict(cs, e) == if e.Attributed? then Unknown else NodeVerdict(cs, Bare(e))
  }

  lemma {:induction false} LayersDoNotClassify(cs: seq<Classifier>, e: Error)
    requires IgnoresLayers(cs)
    ensures Classify(cs, Bare(e)) == Classify(cs, e) && SpineWrap(Bare(e)) == SpineWrap(e)
    decreases e
  {
    assert NodeVerdict(cs, e) == if e.Attributed? then Unknown else NodeVerdict(cs, Bare(e));
    match e
    case Wrap(_, _, _, cause) => LayersDoNotClassify(cs, cause);
    case Attributed(cause, _, _) => LayersDoNotClassify(cs, cause);
    case Grouped(members) => LayersDoNotClassifyIn(cs, members);
    case _ =>
  }

  lemma {:induction false} LayersDoNotClassifyIn(cs: seq<Classifier>, es: seq<Error>)
    requires IgnoresLayers(cs)
    ensures Heaviest(cs, BareAll(es)) == Heaviest(cs, es)
    decreases es
  {
    if |es| > 0 {
      LayersDoNotClassify(cs, es[0]);
      LayersDoNotClassifyIn(cs, es[1..]);
      assert BareAll(es)[1..] == BareAll(es[1..]);
    }
  }

  lemma {:induction false} LayersDoNotHideWraps(e: Error)
    ensures FirstInfra(e).Some? <==> FirstInfra(Bare(e)).Some?
    ensures IsRetryable(Bare(e)) == IsRetryable(e)
    decreases e
  {
    match e
    case Wrap(_, _, _, cause) => LayersDoNotHideWraps(cause);
    case UserError(cause) => LayersDoNotHideWraps(cause);
    case Attributed(cause, _, _) => LayersDoNotHideWraps(cause);
    case Grouped(members) => LayersDoNotHideWrapsIn(members);
    case Joined(_, causes) => LayersDoNotHideWrapsIn(causes);
    case _ =>
  }

  lemma {:induction false} LayersDoNotHideWrapsIn(es: seq<Error>)
    ensures var (a, b) := (FirstInfraIn(es), FirstInfraIn(BareAll(es)));
      (a.Some? <==> b.Some?) &&
      (a.Some? && a.value.InfraError? && a.value.retryable <==> b.Some? && b.value.InfraError? && b.value.retryable)
    decreases es
  {
    if |es| > 0 {
      LayersDoNotHideWraps(es[0]);
      LayersDoNotHideWrapsIn(es[1..]);
      assert BareAll(es)[1..] == BareAll(es[1..]);
    }
  }

  /** Attribution layers change neither the verdict nor what the transport
      does with the processed error. */
  lemma LayersDoNotChangeOutcome(cs: seq<Classifier>, e: Error)
    requires IgnoresLayers(cs)
    ensures VerdictOf(cs, Bare(e)) == VerdictOf(cs, e)
    ensures IsRetryable(Process(cs, Bare(e))) == IsRetryable(Process(cs, e))
  {
    LayersDoNotClassify(cs, e);
    LayersDoNotHideWraps(e);
    RetryTestAgreesExactly(cs, e);
    RetryTestAgreesExactly(cs, Bare(e));
  }
}
