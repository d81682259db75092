// The target graph of the fake Tango server: which dependencies are kept, how
// the graphs of several commits are merged, and which target owns a file
// (service/tangofake/tangofake.go).
module TargetGraph {
  import opened Wrappers
  import opened Selection

  /** Maps a target label to the labels it depends on. */
  type Graph = map<string, seq<string>>

  ghost predicate Closed(g: Graph) {
    forall t, dep :: t in g && dep in g[t] ==> dep in g
  }

  // ---- Paths and owners ----

  /** Where the last slash is, or -1. */
  function LastSlash(s: string): (i: int)
    ensures -1 <= i < |s|
    ensures i >= 0 ==> s[i] == '/'
    ensures forall j :: i < j < |s| ==> s[j] != '/'
  {
    if |s| == 0 then -1
    else if s[|s| - 1] == '/' then |s| - 1
    else LastSlash(s[..|s| - 1])
  }

  /** path.Dir and path.Base on a relative path without empty components, as git lists them. */
  function Dir(s: string): string {
    if LastSlash(s) < 0 then "." else s[..LastSlash(s)]
  }

  function Base(s: string): string { s[LastSlash(s) + 1..] }

  /** The last component, and what is before it. */
  lemma PathSplits(dir: string, name: string)
    requires forall i :: 0 <= i < |name| ==> name[i] != '/'
    ensures Base(dir + "/" + name) == name && Dir(dir + "/" + name) == dir
    ensures Base(name) == name && Dir(name) == "."
  {
    var s := dir + "/" + name;
    assert s[|dir|] == '/';
    assert forall j :: |dir| < j < |s| ==> s[j] == name[j - |dir| - 1];
    assert LastSlash(s) == |dir|;
    assert LastSlash(name) == -1;
  }

  predicate Listed(file: string) {
    && |file| > 0 && file[0] != '/' && file[|file| - 1] != '/'
    && (forall i :: 0 <= i < |file| - 1 ==> !(file[i] == '/' && file[i + 1] == '/'))
    && (forall i :: 0 <= i < |file| ==> !DotComponent(file, i))
  }

  predicate DotComponent(file: string, i: nat)
    requires i < |file|
  {
    && file[i] == '.'
    && (i == 0 || file[i - 1] == '/')
    && (i == |file| - 1 || file[i + 1] == '/')
  }

  function LabelOf(dir: string): string { if dir == "." then "//" else "//" + dir }

  /** The root's label is "//", and different directories have different labels. */
  lemma LabelsAreDistinct(a: string, b: string)
    requires a != "" && b != ""
    ensures LabelOf(a) == LabelOf(b) <==> a == b
    ensures LabelOf(a) == "//" <==> a == "."
    ensures a != "." ==> |LabelOf(a)| == |a| + 2 && LabelOf(a)[..2] == "//" && LabelOf(a)[2..] == a
  {
    assert LabelOf(a)[2..] == (if a == "." then "" else a);
    assert LabelOf(b)[2..] == (if b == "." then "" else b);
  }

  /** A directory that holds the file, at any depth. */
  predicate Above(dir: string, file: string) {
    dir == "." || (|dir| < |file| && file[..|dir|] == dir && file[|dir|] == '/')
  }

  function Depth(dir: string): nat { if dir == "." then 0 else |dir| }

  /** The directory of the nearest target at or above a file, if there is one. */
  ghost predicate Nearest(targets: set<string>, file: string, dir: string) {
    && Above(dir, file) && LabelOf(dir) in targets
    && forall other :: Above(other, file) && LabelOf(other) in targets ==> Depth(other) <= Depth(dir)
  }

  lemma AboveMeans(dir: string, file: string)
    ensures Above(dir, file) <==> dir == "." || exists rest :: file == dir + "/" + rest
  {
    if Above(dir, file) && dir != "." {
      assert file == dir + "/" + file[|dir| + 1..];
    }
    if rest :| file == dir + "/" + rest {
      assert file[|dir|] == '/' && file[..|dir|] == dir;
    }
  }

  /**
   * The owner's directory holds the file, and any other target directory that
   * holds it holds the owner's directory too: no target is nearer.
   */
  lemma NearestMeans(targets: set<string>, file: string, dir: string, other: string)
    requires Listed(file) && Nearest(targets, file, dir)
    ensures LabelOf(dir) in targets && (dir == "." || exists rest :: file == dir + "/" + rest)
    ensures LabelOf(other) in targets && (other == "." || exists rest :: file == other + "/" + rest) ==>
      other == dir || other == "." || exists rest :: dir == other + "/" + rest
  {
    AboveMeans(dir, file);
    AboveMeans(other, file);
    if LabelOf(other) in targets && Above(other, file) && other != dir && other != "." {
      assert |other| < |dir|;
      assert file[..|other|] == other && file[|other|] == '/' && file[..|dir|] == dir;
      assert dir == other + "/" + dir[|other| + 1..];
    }
  }

  /** The walk up the directories ends at the deepest target directory above the file. */
  method Owner(targets: set<string>, file: string) returns (owner: Option<string>)
    requires Listed(file)
    ensures owner.Some? ==> exists dir :: Nearest(targets, file, dir) && owner.value == LabelOf(dir)
    ensures owner.None? ==> forall dir :: Above(dir, file) ==> LabelOf(dir) !in targets
  {
    var dir := Dir(file);
    while true
      invariant Above(dir, file)
      invariant dir != "." ==> dir != "" && LastSlash(dir) != 0
      invariant dir == "." || dir == file[..|dir|]
      invariant forall other :: Above(other, file) && LabelOf(other) in targets ==> Depth(other) <= Depth(dir)
      decreases Depth(dir)
    {
      if LabelOf(dir) in targets {
        assert Nearest(targets, file, dir);
        return Some(LabelOf(dir));
      }
      if dir == "." {
        return None;
      }
      dir := Dir(dir);
    }
  }

  /** A file has at most one owner. */
  lemma NearestIsUnique(targets: set<string>, file: string, a: string, b: string)
    requires Listed(file) && Nearest(targets, file, a) && Nearest(targets, file, b)
    ensures a == b
  {
    assert Depth(a) == Depth(b);
    assert a != "." ==> a == file[..|a|];
    assert b != "." ==> b == file[..|b|];
  }

  // ---- Reading a graph: dependencies on unknown targets are dropped ----

  function Known(deps: seq<string>, targets: set<string>): (r: seq<string>)
    ensures forall dep :: dep in r <==> dep in deps && dep in targets
  {
    if |deps| == 0 then []
    else
      var last := deps[|deps| - 1];
      var r := Known(deps[..|deps| - 1], targets);
      assert deps == deps[..|deps| - 1] + [last];
      if last in targets then r + [last] else r
  }

  lemma KnownPrefix(deps: seq<string>, i: nat, targets: set<string>)
    requires i < |deps|
    ensures Known(deps[..i + 1], targets) ==
      Known(deps[..i], targets) + (if deps[i] in targets then [deps[i]] else [])
    ensures |Known(deps[..i], targets)| <= i
  {
    assert deps[..i + 1][..i] == deps[..i];
    KnownLength(deps[..i], targets);
  }

  /** The dependencies that are targets and no others, each as often and in the order it is listed. */
  lemma {:induction false} KnownAreSelected(deps: seq<string>, targets: set<string>) returns (at: seq<nat>)
    ensures Selects(deps, Known(deps, targets), (dep, kept) => kept == dep && dep in targets, at)
  {
    at := [];
    if |deps| > 0 {
      hide Selects;
      var front, last := deps[..|deps| - 1], deps[|deps| - 1];
      var keeps := (dep: string, kept: string) => kept == dep && dep in targets;
      at := KnownAreSelected(front, targets);
      assert deps == front + [last];
      if last in targets {
        SelectsOneMore(front, Known(front, targets), keeps, at, last, last);
        at := at + [|front|];
      } else {
        SelectsNoMore(front, Known(front, targets), keeps, at, last);
      }
    } else {
      assert deps == [];
    }
  }

  lemma {:induction false} KnownLength(deps: seq<string>, targets: set<string>)
    ensures |Known(deps, targets)| <= |deps|
  {
    if |deps| > 0 {
      KnownLength(deps[..|deps| - 1], targets);
    }
  }

  /** Keeps the known dependencies in the array they were read into: known := deps[:0] and appends. */
  method FilterInPlace(deps: array<string>, targets: set<string>) returns (n: nat)
    modifies deps
    ensures n <= deps.Length && deps[..n] == Known(old(deps[..]), targets)
  {
    n := 0;
    ghost var was := deps[..];
    for i := 0 to deps.Length
      invariant n <= i
      invariant deps[..n] == Known(was[..i], targets)
      invariant forall k :: i <= k < deps.Length ==> deps[k] == was[k]
    {
      KnownPrefix(was, i, targets);
      if deps[i] in targets {
        deps[n] := deps[i];
        n := n + 1;
      }
    }
    assert was[..deps.Length] == was;
  }

  /** The targets of one tree, each with the dependencies listed in its file. */
  function KnownGraph(listed: Graph): Graph {
    map t | t in listed :: Known(listed[t], listed.Keys)
  }

  lemma KnownGraphIsClosed(listed: Graph)
    ensures Closed(KnownGraph(listed)) && KnownGraph(listed).Keys == listed.Keys
    ensures forall t, dep :: t in listed ==>
      (dep in KnownGraph(listed)[t] <==> dep in listed[t] && dep in listed)
  {
  }

  ghost function Listing(files: map<string, array<string>>): Graph
    reads set t | t in files :: files[t]
  {
    map t | t in files :: files[t][..]
  }

  /** The last loop of readGraph, over arrays that no two targets share, in any order. */
  method ReadGraph(files: map<string, array<string>>) returns (targets: Graph)
    requires forall t, u :: t in files && u in files && t != u ==> files[t] != files[u]
    modifies set t | t in files :: files[t]
    ensures targets == KnownGraph(old(Listing(files)))
    ensures Closed(targets)
  {
    hide Known;
    ghost var listed := Listing(files);
    targets := map[];
    var todo := files.Keys;
    while todo != {}
      invariant todo <= files.Keys && targets.Keys == files.Keys - todo
      invariant forall t :: t in todo ==> files[t][..] == listed[t]
      invariant forall t :: t in targets ==> targets[t] == Known(listed[t], files.Keys)
    {
      var t :| t in todo;
      var n := FilterInPlace(files[t], files.Keys);
      targets := targets[t := files[t][..n]];
      todo := todo - {t};
    }
    assert listed.Keys == files.Keys;
    assert targets == KnownGraph(listed);
    KnownGraphIsClosed(listed);
  }

  // ---- Merging the graphs of the base and the heads ----

  function WithDeps(deps: seq<string>, extra: seq<string>): (r: seq<string>)
    ensures forall dep :: dep in r <==> dep in deps || dep in extra
  {
    if |extra| == 0 then deps
    else
      var last := extra[|extra| - 1];
      var r := WithDeps(deps, extra[..|extra| - 1]);
      assert extra == extra[..|extra| - 1] + [last];
      if last in r then r else r + [last]
  }

  method MergeDeps(deps: seq<string>, extra: seq<string>) returns (merged: seq<string>)
    ensures merged == WithDeps(deps, extra)
  {
    merged := deps;
    for i := 0 to |extra|
      invariant merged == WithDeps(deps, extra[..i])
    {
      assert extra[..i + 1][..i] == extra[..i];
      if extra[i] !in merged {
        merged := merged + [extra[i]];
      }
    }
    assert extra[..|extra|] == extra;
  }

  /** Nothing a target already depends on is listed again, and its own list stays in front. */
  lemma {:induction false} WithDepsExtends(deps: seq<string>, extra: seq<string>)
    ensures deps <= WithDeps(deps, extra)
    ensures (forall i, j :: 0 <= i < j < |deps| ==> deps[i] != deps[j]) ==>
      (forall i, j :: 0 <= i < j < |WithDeps(deps, extra)| ==> WithDeps(deps, extra)[i] != WithDeps(deps, extra)[j])
  {
    if |extra| > 0 {
      WithDepsExtends(deps, extra[..|extra| - 1]);
    }
  }

  function DepsOf(g: Graph, t: string): seq<string> { if t in g then g[t] else [] }

  /** The union of a graph and another, target by target. */
  function Merge(g: Graph, h: Graph): Graph {
    map t | t in g.Keys + h.Keys :: if t in h then WithDeps(DepsOf(g, t), h[t]) else g[t]
  }

  function MergeAll(g: Graph, heads: seq<Graph>): Graph {
    if |heads| == 0 then g else Merge(MergeAll(g, heads[..|heads| - 1]), heads[|heads| - 1])
  }

  lemma MergeEdges(g: Graph, h: Graph, t: string, dep: string)
    ensures t in Merge(g, h) <==> t in g || t in h
    ensures dep in DepsOf(Merge(g, h), t) <==> dep in DepsOf(g, t) || dep in DepsOf(h, t)
  {
  }

  /** The union has an edge exactly where the base or a head has it. */
  lemma {:induction false} MergedEdges(g: Graph, heads: seq<Graph>, t: string, dep: string)
    ensures t in MergeAll(g, heads) <==> t in g || exists h :: h in heads && t in h
    ensures dep in DepsOf(MergeAll(g, heads), t) <==>
      dep in DepsOf(g, t) || exists h :: h in heads && dep in DepsOf(h, t)
  {
    hide Merge, DepsOf;
    if |heads| > 0 {
      var front, last := heads[..|heads| - 1], heads[|heads| - 1];
      MergedEdges(g, front, t, dep);
      MergeEdges(MergeAll(g, front), last, t, dep);
      assert forall h :: h in heads <==> h in front || h == last;
    }
  }

  /** Merging closed graphs gives a closed graph. */
  lemma {:induction false} MergedIsClosed(g: Graph, heads: seq<Graph>)
    requires Closed(g) && forall h :: h in heads ==> Closed(h)
    ensures Closed(MergeAll(g, heads))
  {
    if |heads| > 0 {
      MergedIsClosed(g, heads[..|heads| - 1]);
      assert heads[|heads| - 1] in heads;
    }
  }
}
