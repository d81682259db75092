// Error values as trees, and what errors.Unwrap, errors.As and the framework
// predicates see in them (platform/errs/errs.go, group.go, failure.go).
module ErrorTrees {
  import opened Wrappers
  import opened Selection

  datatype Subject = Subject(kind: string, id: string)

  /** An error: without a cause, around one cause (any other error type with
      Unwrap() error), a framework wrap, an attribution layer, a Group, or any
      other error with several causes. */
  datatype Error =
    | Leaf(text: string)
    | Wrap(before: string, after: string, quotes: bool, cause: Error)
    | UserError(cause: Error)
    | InfraError(cause: Error, retryable: bool, dependency: bool)
    | Attributed(cause: Error, subjects: seq<Subject>, detail: map<string, string>)
    | Grouped(members: seq<Error>)
    | Joined(pieces: seq<string>, causes: seq<Error>)

  // ---- Constructors ----

  function NewUserError(cause: Error): Error { UserError(cause) }

  function NewRetryableError(cause: Error): Error { InfraError(cause, true, false) }

  function NewDependencyError(cause: Error): Error { InfraError(cause, false, true) }

  function NewRetryableDependencyError(cause: Error): Error { InfraError(cause, true, true) }

  function NonNil(errs: seq<Option<Error>>): seq<Error> {
    if |errs| == 0 then []
    else if errs[0].None? then NonNil(errs[1..])
    else [errs[0].value] + NonNil(errs[1..])
  }

  lemma {:induction false} NonNilAppend(errs: seq<Option<Error>>, err: Option<Error>)
    ensures NonNil(errs + [err]) == NonNil(errs) + (if err.Some? then [err.value] else [])
  {
    if |errs| == 0 {
      assert errs + [err] == [err] && [err][1..] == [];
    } else {
      NonNilAppend(errs[1..], err);
      assert (errs + [err])[1..] == errs[1..] + [err];
    }
  }

  /** An argument that is there, as itself. */
  function Itself(): (Option<Error>, Error) -> bool { (err, member) => err == Some(member) }

  /** The arguments that are not nil and no others, in the order they were given. */
  lemma {:induction false} MembersAreSelected(errs: seq<Option<Error>>) returns (at: seq<nat>)
    ensures Selects(errs, NonNil(errs), Itself(), at)
  {
    at := [];
    if |errs| > 0 {
      hide Selects;
      var front, last := errs[..|errs| - 1], errs[|errs| - 1];
      at := MembersAreSelected(front);
      NonNilAppend(front, last);
      assert errs == front + [last];
      if last.Some? {
        SelectsOneMore(front, NonNil(front), Itself(), at, last, last.value);
        at := at + [|front|];
      } else {
        SelectsNoMore(front, NonNil(front), Itself(), at, last);
      }
    }
  }

  /** Group: nil arguments are dropped, and all of them nil means nil. */
  method Group(errs: seq<Option<Error>>) returns (r: Option<Error>)
    ensures r == if NonNil(errs) == [] then None else Some(Grouped(NonNil(errs)))
    ensures r.None? <==> forall i :: 0 <= i < |errs| ==> errs[i].None?
    ensures r.Some? ==> r.value.Grouped? && exists at: seq<nat> :: Selects(errs, r.value.members, Itself(), at)
  {
    ghost var at := MembersAreSelected(errs);
    var members: seq<Error> := [];
    for i := 0 to |errs|
      invariant members == NonNil(errs[..i])
      invariant |members| == 0 <==> forall j :: 0 <= j < i ==> errs[j].None?
    {
      NonNilAppend(errs[..i], errs[i]);
      assert errs[..i + 1] == errs[..i] + [errs[i]];
      if errs[i].Some? { members := members + [errs[i].value]; }
    }
    assert errs[..|errs|] == errs;
    if |members| == 0 { return None; }
    return Some(Grouped(members));
  }

  // ---- Looking inside ----

  /** errors.Unwrap: a Group or another error with several causes yields nil. */
  function Unwrap(e: Error): Option<Error> {
    match e
    case Leaf(_) => None
    case Wrap(_, _, _, cause) => Some(cause)
    case UserError(cause) => Some(cause)
    case InfraError(cause, _, _) => Some(cause)
    case Attributed(cause, _, _) => Some(cause)
    case Grouped(_) => None
    case Joined(_, _) => None
  }

  /** The error, its cause, the cause's cause, and so on: what repeated errors.Unwrap visits. */
  function Spine(e: Error): (nodes: seq<Error>)
    ensures |nodes| > 0 && nodes[0] == e
    ensures forall i :: 0 <= i < |nodes| - 1 ==> Unwrap(nodes[i]) == Some(nodes[i + 1])
    ensures Unwrap(nodes[|nodes| - 1]).None?
  {
    if Unwrap(e).None? then [e] else [e] + Spine(Unwrap(e).value)
  }

  lemma SpineUnfolds(e: Error)
    ensures Unwrap(e).None? ==> Spine(e) == [e]
    ensures Unwrap(e).Some? ==> Spine(e) == [e] + Spine(Unwrap(e).value)
  {
  }

  /** errors.As for *infraError: depth first, a node before its causes. */
  function FirstInfra(e: Error): Option<Error> {
    match e
    case InfraError(_, _, _) => Some(e)
    case Leaf(_) => None
    case Wrap(_, _, _, cause) => FirstInfra(cause)
    case UserError(cause) => FirstInfra(cause)
    case Attributed(cause, _, _) => FirstInfra(cause)
    case Grouped(members) => FirstInfraIn(members)
    case Joined(_, causes) => FirstInfraIn(causes)
  }

  function FirstInfraIn(es: seq<Error>): Option<Error> {
    if |es| == 0 then None
    else if FirstInfra(es[0]).Some? then FirstInfra(es[0])
    else FirstInfraIn(es[1..])
  }

  function IsRetryable(e: Error): bool {
    FirstInfra(e).Some? && FirstInfra(e).value.InfraError? && FirstInfra(e).value.retryable
  }

  function IsDependencyError(e: Error): bool {
    FirstInfra(e).Some? && FirstInfra(e).value.InfraError? && FirstInfra(e).value.dependency
  }

  predicate HasWrap(e: Error) {
    match e
    case InfraError(_, _, _) => true
    case UserError(_) => true
    case Leaf(_) => false
    case Wrap(_, _, _, cause) => HasWrap(cause)
    case Attributed(cause, _, _) => HasWrap(cause)
    case Grouped(members) => AnyWrap(members)
    case Joined(_, causes) => AnyWrap(causes)
  }

  predicate AnyWrap(es: seq<Error>) {
    |es| > 0 && (HasWrap(es[0]) || AnyWrap(es[1..]))
  }

  /** Without a framework wrap there is nothing for errors.As to find. */
  lemma {:induction false} NoWrapNoInfra(e: Error)
    requires !HasWrap(e)
    ensures FirstInfra(e).None?
  {
    match e
    case Wrap(_, _, _, cause) => NoWrapNoInfra(cause);
    case Attributed(cause, _, _) => NoWrapNoInfra(cause);
    case Grouped(members) => NoWrapNoInfraIn(members);
    case Joined(_, causes) => NoWrapNoInfraIn(causes);
    case _ =>
  }

  lemma {:induction false} NoWrapNoInfraIn(es: seq<Error>)
    requires !AnyWrap(es)
    ensures FirstInfraIn(es).None?
  {
    if |es| > 0 {
      NoWrapNoInfra(es[0]);
      NoWrapNoInfraIn(es[1..]);
    }
  }

  /** Along the spine errors.As finds the outermost infra wrap, before any below it; without one it goes on where the spine ends. */
  lemma {:induction false} OutermostInfraIsFound(e: Error, k: nat)
    requires k <= |Spine(e)| && forall i :: 0 <= i < k ==> !Spine(e)[i].InfraError?
    ensures k < |Spine(e)| && Spine(e)[k].InfraError? ==>
      && FirstInfra(e) == Some(Spine(e)[k])
      && IsRetryable(e) == Spine(e)[k].retryable && IsDependencyError(e) == Spine(e)[k].dependency
    ensures k == |Spine(e)| ==> FirstInfra(e) == FirstInfra(Spine(e)[|Spine(e)| - 1])
    decreases e
  {
    SpineUnfolds(e);
    if k > 0 {
      assert !Spine(e)[0].InfraError?;
      if Unwrap(e).Some? {
        var cause := Unwrap(e).value;
        assert forall i :: 0 <= i < k - 1 ==> Spine(cause)[i] == Spine(e)[i + 1];
        OutermostInfraIsFound(cause, k - 1);
      }
    }
  }

  /** Where an error has several causes, of a Group or not, it is the first cause's that has one. */
  lemma {:induction false} FirstCauseIsFound(es: seq<Error>, k: nat, pieces: seq<string>)
    requires k <= |es| && forall i :: 0 <= i < k ==> FirstInfra(es[i]).None?
    ensures FirstInfra(Grouped(es)) == FirstInfra(Joined(pieces, es)) == FirstInfraIn(es)
    ensures k < |es| && FirstInfra(es[k]).Some? ==> FirstInfra(Grouped(es)) == FirstInfra(es[k])
    ensures k == |es| ==> FirstInfra(Grouped(es)).None?
  {
    if k > 0 {
      assert forall i :: 0 <= i < k - 1 ==> es[1..][i] == es[i + 1];
      FirstCauseIsFound(es[1..], k - 1, pieces);
    }
  }

  // ---- Error() ----

  function Text(e: Error): string {
    match e
    case Leaf(text) => text
    case Wrap(before, after, quotes, cause) => if quotes then before + Text(cause) + after else before
    case UserError(cause) => Text(cause)
    case InfraError(cause, _, _) => Text(cause)
    case Attributed(cause, _, _) => Text(cause)
    case Grouped(members) => Texts(members, "; ")
    case Joined(pieces, causes) => Weave(pieces, causes)
  }

  /** The framework's own layers add nothing to a message; a Group's is its members' messages, one after the other. */
  lemma {:induction false} TextsOfLayersAndGroups(e: Error, ms: seq<Error>, ns: seq<Error>)
    requires |ms| > 0 && |ns| > 0
    ensures e.UserError? || e.InfraError? || e.Attributed? ==> Text(e) == Text(e.cause)
    ensures Text(Grouped([e])) == Text(e)
    ensures Text(Grouped(ms + ns)) == Text(Grouped(ms)) + "; " + Text(Grouped(ns))
    decreases |ms|
  {
    if |ms| == 1 {
      assert ms + ns == [ms[0]] + ns && (ms + ns)[1..] == ns;
    } else {
      TextsOfLayersAndGroups(e, ms[1..], ns);
      assert (ms + ns)[1..] == ms[1..] + ns;
      var (a, b, c) := (Text(ms[0]), Text(Grouped(ms[1..])), Text(Grouped(ns)));
      assert a + "; " + (b + "; " + c) == (a + "; " + b) + "; " + c;
    }
  }

  function Texts(es: seq<Error>, separator: string): string {
    if |es| == 0 then ""
    else if |es| == 1 then Text(es[0])
    else Text(es[0]) + separator + Texts(es[1..], separator)
  }

  function Weave(pieces: seq<string>, es: seq<Error>): string
    decreases es
  {
    var piece := if |pieces| == 0 then "" else pieces[0];
    if |es| == 0 then piece
    else piece + Text(es[0]) + Weave(if |pieces| == 0 then [] else pieces[1..], es[1..])
  }
}
