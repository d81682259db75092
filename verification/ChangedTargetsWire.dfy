// The numbered form in which changed targets are sent, and that reading it
// back gives the change set again (service/tangofake/tangofake.go).
module ChangedTargetsWire {
  import opened Wrappers
  import opened Selection
  import opened TargetGraph
  import opened ImpactDistance
  import opened ChangedTargets
  import Bytewise

  datatype Node = Node(id: nat, directDependencies: seq<nat>)

  datatype WireTarget = WireTarget(kind: ChangeType, distance: nat, oldTarget: Option<Node>, newTarget: Option<Node>)

  datatype Wire = Wire(targets: seq<WireTarget>, mapping: map<nat, string>)

  // ---- Reading it back ----

  function NodeOf(t: WireTarget): Node {
    if t.newTarget.Some? then t.newTarget.value
    else if t.oldTarget.Some? then t.oldTarget.value
    else Node(0, [])
  }

  function NameOf(mapping: map<nat, string>, id: nat): string { if id in mapping then mapping[id] else "" }

  function Names(mapping: map<nat, string>, ids: seq<nat>): seq<string> {
    if |ids| == 0 then [] else Names(mapping, ids[..|ids| - 1]) + [NameOf(mapping, ids[|ids| - 1])]
  }

  lemma {:induction false} NamesAre(mapping: map<nat, string>, ids: seq<nat>)
    ensures |Names(mapping, ids)| == |ids|
    ensures forall j :: 0 <= j < |ids| ==> Names(mapping, ids)[j] == NameOf(mapping, ids[j])
  {
    if |ids| > 0 {
      NamesAre(mapping, ids[..|ids| - 1]);
    }
  }

  function TargetAt(w: Wire, i: nat): string
    requires i < |w.targets|
  {
    NameOf(w.mapping, NodeOf(w.targets[i]).id)
  }

  /** What a client learns of the target at one position. */
  datatype Decoded = Decoded(name: string, kind: ChangeType, distance: nat, deps: seq<string>, inOld: bool, inNew: bool)

  function DecodeAt(w: Wire, i: nat): Decoded
    requires i < |w.targets|
  {
    var t := w.targets[i];
    Decoded(TargetAt(w, i), t.kind, t.distance, Names(w.mapping, NodeOf(t).directDependencies), t.oldTarget.Some?, t.newTarget.Some?)
  }

  // ---- Numbering ----

  /** Numbers the labels from 1 on, in their order. */
  predicate Numbers(labels: seq<string>, ids: map<string, nat>) {
    && (forall i :: 0 <= i < |labels| ==> labels[i] in ids && ids[labels[i]] == i + 1)
    && (forall t :: t in ids ==> t in labels)
  }

  predicate NumbersBack(labels: seq<string>, mapping: map<nat, string>) {
    forall i :: 0 <= i < |labels| ==> i + 1 in mapping && mapping[i + 1] == labels[i]
  }

  method NumberLabels(labels: seq<string>) returns (ids: map<string, nat>)
    requires Ascending(labels)
    ensures Numbers(labels, ids)
  {
    ids := map[];
    for i := 0 to |labels|
      invariant forall j :: 0 <= j < i ==> labels[j] in ids && ids[labels[j]] == j + 1
      invariant forall t :: t in ids ==> t in labels[..i]
    {
      forall j | 0 <= j < i ensures labels[j] != labels[i] { Bytewise.Irreflexive(labels[i]); }
      ids := ids[labels[i] := i + 1];
    }
  }

  lemma NoNames(mapping: map<nat, string>, deps: seq<string>, targets: set<string>)
    ensures Names(mapping, []) == Known(deps[..0], targets) == []
  {
  }

  /** The number of a label reads back as the label. */
  lemma NamesMore(labels: seq<string>, ids: map<string, nat>, mapping: map<nat, string>, numbered: seq<nat>, t: string)
    requires Numbers(labels, ids) && NumbersBack(labels, mapping) && t in ids
    ensures 1 <= ids[t] <= |labels|
    ensures Names(mapping, numbered + [ids[t]]) == Names(mapping, numbered) + [t]
  {
    var k :| 0 <= k < |labels| && labels[k] == t;
    assert (numbered + [ids[t]])[..|numbered|] == numbered;
  }

  /** The numbered dependencies, without those that did not change. */
  method Optimized(ids: map<string, nat>, name: string, deps: Graph, ghost labels: seq<string>, ghost mapping: map<nat, string>)
    returns (node: Node)
    requires name in ids && Numbers(labels, ids) && NumbersBack(labels, mapping)
    ensures node.id == ids[name]
    ensures Names(mapping, node.directDependencies) == Known(DepsOf(deps, name), ids.Keys)
    ensures forall d :: d in node.directDependencies ==> 1 <= d <= |labels|
  {
    hide Names, Known, DepsOf, NameOf;
    var numbered: seq<nat> := [];
    var ds := DepsOf(deps, name);
    NoNames(mapping, ds, ids.Keys);
    for i := 0 to |ds|
      invariant forall d :: d in numbered ==> 1 <= d <= |labels|
      invariant Names(mapping, numbered) == Known(ds[..i], ids.Keys)
    {
      KnownPrefix(ds, i, ids.Keys);
      if ds[i] in ids {
        NamesMore(labels, ids, mapping, numbered, ds[i]);
        numbered := numbered + [ids[ds[i]]];
      }
    }
    assert ds[..|ds|] == ds;
    return Node(ids[name], numbered);
  }

  /** The dependencies of a changed target that changed too. */
  function KnownDeps(c: ChangeSet, t: string): seq<string> { Known(DepsOf(c.deps, t), set u | u in c.labels) }

  /** The message built for a change set: which position tells what. */
  predicate TellsAt(c: ChangeSet, w: Wire, i: nat)
    requires i < |c.labels| && i < |w.targets|
  {
    var t := c.labels[i];
    && t in c.kinds && t in c.distances
    && DecodeAt(w, i) == Decoded(t, c.kinds[t], c.distances[t], KnownDeps(c, t), !c.kinds[t].New?, !c.kinds[t].Deleted?)
    && Numbered(c, w.targets[i].oldTarget, i) && Numbered(c, w.targets[i].newTarget, i)
    && (w.targets[i].oldTarget.Some? && w.targets[i].newTarget.Some? ==> w.targets[i].oldTarget == w.targets[i].newTarget)
  }

  /** A node sent at position i has the number i + 1, and its dependencies have numbers too. */
  predicate Numbered(c: ChangeSet, node: Option<Node>, i: nat) {
    node.Some? ==> node.value.id == i + 1 && forall d :: d in node.value.directDependencies ==> 1 <= d <= |c.labels|
  }

  predicate Tells(c: ChangeSet, w: Wire) {
    |w.targets| == |c.labels| && forall i :: 0 <= i < |c.labels| ==> TellsAt(c, w, i)
  }

  /** TargetIdMapping. */
  function Mapping(labels: seq<string>): (m: map<nat, string>)
    ensures NumbersBack(labels, m)
    ensures forall id :: id in m <==> 1 <= id <= |labels|
  {
    if |labels| == 0 then map[] else Mapping(labels[..|labels| - 1])[|labels| := labels[|labels| - 1]]
  }

  lemma TellsMore(c: ChangeSet, targets: seq<WireTarget>, target: WireTarget, mapping: map<nat, string>, i: nat)
    requires |targets| == i < |c.labels|
    requires TellsUpTo(c, targets, mapping, i) && TellsAt(c, Wire(targets + [target], mapping), i)
    ensures TellsUpTo(c, targets + [target], mapping, i + 1)
  {
    hide Known, Names;
    forall j | 0 <= j < i ensures TellsAt(c, Wire(targets + [target], mapping), j) {
      assert TellsAt(c, Wire(targets, mapping), j);
    }
  }

  predicate TellsUpTo(c: ChangeSet, targets: seq<WireTarget>, mapping: map<nat, string>, n: nat) {
    |targets| == n <= |c.labels| && forall i :: 0 <= i < n ==> TellsAt(c, Wire(targets, mapping), i)
  }

  lemma TargetTells(c: ChangeSet, targets: seq<WireTarget>, target: WireTarget, node: Node, mapping: map<nat, string>, i: nat)
    requires |targets| == i < |c.labels| && NumbersBack(c.labels, mapping)
    requires c.labels[i] in c.kinds && c.labels[i] in c.distances
    requires node.id == i + 1
    requires Names(mapping, node.directDependencies) == KnownDeps(c, c.labels[i])
    requires forall d :: d in node.directDependencies ==> 1 <= d <= |c.labels|
    requires var (name, kind) := (c.labels[i], c.kinds[c.labels[i]]);
      target == WireTarget(kind, c.distances[name], if kind.New? then None else Some(node), if kind.Deleted? then None else Some(node))
    ensures TellsAt(c, Wire(targets + [target], mapping), i)
  {
    hide Known, Names;
    assert (targets + [target])[i] == target;
  }

  /** GetChangedTargets, from the change set to the two messages it sends. */
  method Encode(c: ChangeSet) returns (w: Wire)
    requires Ascending(c.labels) && (forall t :: t in c.labels <==> t in c.distances) && c.kinds.Keys == c.distances.Keys
    ensures Tells(c, w) && w.mapping == Mapping(c.labels)
  {
    hide Known, Names, TellsAt, TellsUpTo, Ascending;
    var ids := NumberLabels(c.labels);
    ghost var all := Mapping(c.labels);
    assert ids.Keys == set u | u in c.labels;
    var targets: seq<WireTarget> := [];
    var mapping: map<nat, string> := map[];
    NothingTold(c, all);
    for i := 0 to |c.labels|
      invariant |targets| == i && TellsUpTo(c, targets, all, i)
      invariant mapping == Mapping(c.labels[..i])
    {
      var name := c.labels[i];
      assert c.labels[..i + 1][..i] == c.labels[..i];
      mapping := mapping[ids[name] := name];
      var target := WireTarget(c.kinds[name], c.distances[name], None, None);
      var node := Optimized(ids, name, c.deps, c.labels, all);
      if c.kinds[name] != Deleted {
        target := target.(newTarget := Some(node));
      }
      if c.kinds[name] != New {
        target := target.(oldTarget := Some(node));
      }
      TargetTells(c, targets, target, node, all, i);
      TellsMore(c, targets, target, all, i);
      targets := targets + [target];
    }
    assert c.labels[..|c.labels|] == c.labels;
    w := Wire(targets, mapping);
    AllTold(c, targets, all);
  }

  lemma NothingTold(c: ChangeSet, mapping: map<nat, string>)
    ensures TellsUpTo(c, [], mapping, 0)
  {
  }

  lemma AllTold(c: ChangeSet, targets: seq<WireTarget>, mapping: map<nat, string>)
    requires TellsUpTo(c, targets, mapping, |c.labels|)
    ensures Tells(c, Wire(targets, mapping))
  {
  }

  /** What one node says: its number, and the numbers of its changed dependencies in their order. */
  ghost predicate NodeSays(c: ChangeSet, node: Node, i: nat, deps: seq<string>) {
    && node.id == i + 1
    && |node.directDependencies| == |deps|
    && forall j :: 0 <= j < |deps| ==>
         1 <= node.directDependencies[j] <= |c.labels| && c.labels[node.directDependencies[j] - 1] == deps[j]
  }

  /**
   * The messages in plain terms: the labels are numbered from 1 on; a target is
   * sent with an old node unless it is NEW and a new node unless it is DELETED,
   * each with its number and, by number, those of its dependencies that changed.
   */
  lemma MessageSays(c: ChangeSet, w: Wire, i: nat) returns (deps: seq<string>, at: seq<nat>)
    requires Tells(c, w) && w.mapping == Mapping(c.labels) && i < |c.labels|
    ensures c.labels[i] in c.kinds && c.labels[i] in c.distances && |w.targets| == |c.labels|
    ensures forall id :: id in w.mapping <==> 1 <= id <= |c.labels|
    ensures w.mapping[i + 1] == c.labels[i]
    ensures w.targets[i].kind == c.kinds[c.labels[i]] && w.targets[i].distance == c.distances[c.labels[i]]
    ensures w.targets[i].oldTarget.None? <==> c.kinds[c.labels[i]] == New
    ensures w.targets[i].newTarget.None? <==> c.kinds[c.labels[i]] == Deleted
    ensures Selects(DepsOf(c.deps, c.labels[i]), deps, ChangedToo(c), at)
    ensures forall node :: w.targets[i].oldTarget == Some(node) || w.targets[i].newTarget == Some(node) ==>
      NodeSays(c, node, i, deps)
  {
    hide Names, Known, DepsOf, NameOf, Selects;
    assert TellsAt(c, w, i);
    deps := KnownDeps(c, c.labels[i]);
    at := KnownDepsAreSelected(c, c.labels[i]);
    forall node | w.targets[i].oldTarget == Some(node) || w.targets[i].newTarget == Some(node)
      ensures NodeSays(c, node, i, deps)
    {
      NodeSpeaks(c, w, i, node);
    }
  }

  function ChangedToo(c: ChangeSet): (string, string) -> bool { (dep, kept) => kept == dep && dep in c.labels }

  lemma KnownDepsAreSelected(c: ChangeSet, t: string) returns (at: seq<nat>)
    ensures Selects(DepsOf(c.deps, t), KnownDeps(c, t), ChangedToo(c), at)
  {
    var (deps, changed) := (DepsOf(c.deps, t), set u | u in c.labels);
    var known := (dep: string, kept: string) => kept == dep && dep in changed;
    at := KnownAreSelected(deps, changed);
    assert Selects(deps, KnownDeps(c, t), known, at);
    forall n, b | 0 <= n < |deps| && ChangedToo(c)(deps[n], b) ensures n in at { assert known(deps[n], b); }
  }

  lemma NodeSpeaks(c: ChangeSet, w: Wire, i: nat, node: Node)
    requires w.mapping == Mapping(c.labels) && i < |c.labels| && i < |w.targets| && TellsAt(c, w, i)
    requires w.targets[i].oldTarget == Some(node) || w.targets[i].newTarget == Some(node)
    ensures NodeSays(c, node, i, KnownDeps(c, c.labels[i]))
  {
    hide Names, KnownDeps;
    NamesAre(w.mapping, node.directDependencies);
    assert NodeOf(w.targets[i]) == node;
    assert NumbersBack(c.labels, w.mapping);
    forall j | 0 <= j < |node.directDependencies|
      ensures 1 <= node.directDependencies[j] <= |c.labels|
      ensures c.labels[node.directDependencies[j] - 1] == Names(w.mapping, node.directDependencies)[j]
    {
      var d := node.directDependencies[j];
      assert d in node.directDependencies;
      assert (d - 1) + 1 in w.mapping;
    }
  }

  // ---- Round trip ----

  /** A client's reading of the first n targets of the message. */
  function DecodeUpTo(w: Wire, n: nat): ChangeSet
    requires n <= |w.targets|
  {
    if n == 0 then ChangeSet([], map[], map[], map[])
    else
      var (c, d) := (DecodeUpTo(w, n - 1), DecodeAt(w, n - 1));
      ChangeSet(c.labels + [d.name], c.kinds[d.name := d.kind], c.distances[d.name := d.distance], c.deps[d.name := d.deps])
  }

  function Decode(w: Wire): ChangeSet { DecodeUpTo(w, |w.targets|) }

  /** The part of a change set about some targets, with the edges among all the changed ones. */
  function Restricted(c: ChangeSet, labels: seq<string>): ChangeSet
    requires forall t :: t in labels ==> t in c.kinds && t in c.distances
  {
    ChangeSet(labels, map t | t in labels :: c.kinds[t], map t | t in labels :: c.distances[t],
              map t | t in labels :: KnownDeps(c, t))
  }

  lemma RestrictedToOneMore(c: ChangeSet, labels: seq<string>, t: string)
    requires t in c.kinds && t in c.distances && forall u :: u in labels ==> u in c.kinds && u in c.distances
    ensures var (r, all) := (Restricted(c, labels), labels + [t]);
      && r.labels == labels
      && (forall u :: u in all ==> u in c.kinds && u in c.distances)
      && Restricted(c, all) ==
           ChangeSet(all, r.kinds[t := c.kinds[t]], r.distances[t := c.distances[t]], r.deps[t := KnownDeps(c, t)])
  {
    hide KnownDeps;
    var (r, s) := (Restricted(c, labels), Restricted(c, labels + [t]));
    assert forall u :: u in labels + [t] <==> u in labels || u == t;
    assert s.kinds == r.kinds[t := c.kinds[t]];
    assert s.distances == r.distances[t := c.distances[t]];
    assert s.deps == r.deps[t := KnownDeps(c, t)];
  }

  lemma NothingRestricted(c: ChangeSet)
    ensures Restricted(c, []) == ChangeSet([], map[], map[], map[])
  {
    var r := Restricted(c, []);
    assert r.kinds == map[] && r.distances == map[] && r.deps == map[];
  }

  lemma {:induction false} DecodesUpTo(c: ChangeSet, w: Wire, n: nat)
    requires Tells(c, w) && n <= |c.labels|
    requires forall t :: t in c.labels ==> t in c.kinds && t in c.distances
    ensures DecodeUpTo(w, n) == Restricted(c, c.labels[..n])
  {
    hide KnownDeps, DecodeAt, Restricted;
    if n > 0 {
      DecodesUpTo(c, w, n - 1);
      assert TellsAt(c, w, n - 1);
      assert c.labels[..n] == c.labels[..n - 1] + [c.labels[n - 1]];
      RestrictedToOneMore(c, c.labels[..n - 1], c.labels[n - 1]);
    } else {
      NothingRestricted(c);
      assert c.labels[..0] == [];
    }
  }

  /**
   * Reading the message back gives the labels, kinds and distances, and of the
   * union graph exactly the edges among the changed targets, in their order.
   */
  lemma RoundTrip(c: ChangeSet, w: Wire)
    requires Tells(c, w) && c.kinds.Keys == c.distances.Keys && forall t :: t in c.labels <==> t in c.distances
    ensures var d := Decode(w);
      && d.labels == c.labels && d.kinds == c.kinds && d.distances == c.distances
      && d.deps.Keys == c.kinds.Keys
      && forall t :: t in d.deps ==> forall dep :: dep in d.deps[t] <==> (dep in DepsOf(c.deps, t) && dep in c.kinds)
  {
    hide KnownDeps, Tells, DecodeUpTo, DepsOf;
    DecodesUpTo(c, w, |c.labels|);
    TellsAll(c, w);
    assert c.labels[..|c.labels|] == c.labels;
    var d := Decode(w);
    assert d == Restricted(c, c.labels);
    assert d.kinds == c.kinds && d.distances == c.distances;
    forall t | t in d.deps
      ensures forall dep :: dep in d.deps[t] <==> (dep in DepsOf(c.deps, t) && dep in c.kinds)
    {
      KnownDepsMeans(c, t);
      assert d.deps[t] == KnownDeps(c, t);
    }
  }

  lemma TellsAll(c: ChangeSet, w: Wire)
    requires Tells(c, w)
    ensures |w.targets| == |c.labels|
  {
  }

  lemma KnownDepsMeans(c: ChangeSet, t: string)
    ensures forall dep :: dep in KnownDeps(c, t) <==> (dep in DepsOf(c.deps, t) && dep in c.labels)
  {
  }
}
