// What it means for a list to be a selection of another: which places it was
// taken from, in order, and that no other place had anything to give.
module Selection {

  /**
   * Each element of r is what the element of s at the corresponding place gives;
   * the places ascend, and the elements at all other places give nothing.
   */
  ghost predicate Selects<A(!new), B(!new)>(s: seq<A>, r: seq<B>, gives: (A, B) -> bool, at: seq<nat>) {
    && |at| == |r|
    && (forall i, j :: 0 <= i < j < |at| ==> at[i] < at[j])
    && (forall i :: 0 <= i < |at| ==> at[i] < |s| && gives(s[at[i]], r[i]))
    && (forall n, b :: 0 <= n < |s| && gives(s[n], b) ==> n in at)
  }

  lemma SelectsOneMore<A(!new), B(!new)>(s: seq<A>, r: seq<B>, gives: (A, B) -> bool, at: seq<nat>, a: A, b: B)
    requires Selects(s, r, gives, at) && gives(a, b)
    ensures Selects(s + [a], r + [b], gives, at + [|s|])
  {
    var (all, at') := (s + [a], at + [|s|]);
    forall n, c | 0 <= n < |all| && gives(all[n], c) ensures n in at' {
      if n < |s| { assert all[n] == s[n] && n in at; } else { assert at'[|at|] == n; }
    }
  }

  lemma SelectsNoMore<A(!new), B(!new)>(s: seq<A>, r: seq<B>, gives: (A, B) -> bool, at: seq<nat>, a: A)
    requires Selects(s, r, gives, at) && forall b :: !gives(a, b)
    ensures Selects(s + [a], r, gives, at)
  {
    var all := s + [a];
    forall n, c | 0 <= n < |all| && gives(all[n], c) ensures n in at { assert n < |s| && all[n] == s[n]; }
  }

  /** A selection is no longer than what it is taken from. */
  lemma SelectsAtMost<A(!new), B(!new)>(s: seq<A>, r: seq<B>, gives: (A, B) -> bool, at: seq<nat>)
    requires Selects(s, r, gives, at)
    ensures |r| <= |s|
  {
    IncreasingIsShort(at, |s|);
  }

  lemma {:induction false} IncreasingIsShort(at: seq<nat>, n: nat)
    requires forall i, j :: 0 <= i < j < |at| ==> at[i] < at[j]
    requires forall i :: 0 <= i < |at| ==> at[i] < n
    ensures |at| <= n
  {
    if |at| > 0 {
      IncreasingIsShort(at[..|at| - 1], at[|at| - 1]);
    }
  }
}
