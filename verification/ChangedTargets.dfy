// Which targets a set of changes affects, and the numbered form they are sent
// in (service/tangofake/tangofake.go).
module ChangedTargets {
  import opened Wrappers
  import opened TargetGraph
  import opened ImpactDistance
  import Bytewise

  datatype TouchedFile = TouchedFile(path: string, deleted: bool)

  const TARGET_FILE := "TARGET"

  // ---- The kinds of the seeds ----

  ghost predicate IsNew(base: Graph, heads: seq<Graph>, t: string) {
    t !in base && exists h :: h in heads && t in h
  }

  predicate DeletesTarget(f: TouchedFile, t: string) {
    f.deleted && Base(f.path) == TARGET_FILE && t == LabelOf(Dir(f.path))
  }

  /** The file that made t a target was deleted by a change. */
  ghost predicate IsDeleted(touched: seq<TouchedFile>, t: string) {
    exists f :: f in touched && DeletesTarget(f, t)
  }

  ghost predicate Owns(targets: set<string>, file: string, t: string) {
    exists dir :: Nearest(targets, file, dir) && t == LabelOf(dir)
  }

  ghost predicate IsTouched(targets: set<string>, touched: seq<TouchedFile>, t: string) {
    exists f :: f in touched && Owns(targets, f.path, t)
  }

  /** The kind of a seed, if t is one: new before deleted before changed. */
  ghost function SeedKind(base: Graph, heads: seq<Graph>, touched: seq<TouchedFile>, t: string): Option<ChangeType> {
    var union := MergeAll(base, heads);
    if IsNew(base, heads, t) then Some(New)
    else if t in union && IsDeleted(touched, t) then Some(Deleted)
    else if IsTouched(union.Keys, touched, t) then Some(Changed)
    else None
  }

  function KindOf(kinds: map<string, ChangeType>, t: string): Option<ChangeType> {
    if t in kinds then Some(kinds[t]) else None
  }

  ghost predicate AreSeeds(base: Graph, heads: seq<Graph>, touched: seq<TouchedFile>, kinds: map<string, ChangeType>) {
    forall t :: KindOf(kinds, t) == SeedKind(base, heads, touched, t)
  }

  function Part(g: Graph, targets: set<string>): Graph { map t | t in g && t in targets :: g[t] }

  /** Which targets of a head, merged so far, were not in the graph before it. */
  ghost predicate NewIn(kinds: map<string, ChangeType>, kinds': map<string, ChangeType>, union: Graph, part: Graph) {
    forall t :: KindOf(kinds', t) == (if t in part && t !in union then Some(New) else KindOf(kinds, t))
  }

  lemma MergeOne(union: Graph, head: Graph, done: set<string>, t: string)
    requires t in head && t !in done
    ensures Merge(union, Part(head, done + {t})) == Merge(union, Part(head, done))[t := WithDeps(DepsOf(union, t), head[t])]
    ensures DepsOf(Merge(union, Part(head, done)), t) == DepsOf(union, t)
    ensures t in Merge(union, Part(head, done)) <==> t in union
  {
    hide WithDeps;
  }

  /** One head merged into the graph so far, target by target in any order. */
  method MergeHead(union: Graph, kinds: map<string, ChangeType>, head: Graph)
    returns (union': Graph, kinds': map<string, ChangeType>)
    ensures union' == Merge(union, head)
    ensures NewIn(kinds, kinds', union, head)
  {
    hide Merge, DepsOf, WithDeps, Part, NewIn;
    union', kinds' := union, kinds;
    var todo := head.Keys;
    NothingMerged(union, kinds, head);
    while todo != {}
      invariant todo <= head.Keys
      invariant union' == Merge(union, Part(head, head.Keys - todo)) && NewIn(kinds, kinds', union, Part(head, head.Keys - todo))
    {
      var t :| t in todo;
      MergeOne(union, head, head.Keys - todo, t);
      NewOne(kinds, kinds', union, head, head.Keys - todo, t);
      if t !in union' {
        kinds' := kinds'[t := New];
      }
      var merged := MergeDeps(DepsOf(union', t), head[t]);
      union' := union'[t := merged];
      assert head.Keys - (todo - {t}) == head.Keys - todo + {t};
      todo := todo - {t};
    }
    assert head.Keys - todo == head.Keys;
    WholePart(head);
  }

  lemma NewOne(kinds: map<string, ChangeType>, kinds': map<string, ChangeType>, union: Graph, head: Graph, done: set<string>, t: string)
    requires NewIn(kinds, kinds', union, Part(head, done)) && t in head
    ensures NewIn(kinds, if t in union then kinds' else kinds'[t := New], union, Part(head, done + {t}))
  {
  }

  lemma WholePart(head: Graph)
    ensures Part(head, head.Keys) == head
  {
  }

  lemma NothingMerged(union: Graph, kinds: map<string, ChangeType>, head: Graph)
    ensures Merge(union, Part(head, head.Keys - head.Keys)) == union
    ensures NewIn(kinds, kinds, union, Part(head, head.Keys - head.Keys))
  {
    assert head.Keys - head.Keys == {};
    assert Part(head, {}) == map[];
  }

  method BuildUnion(base: Graph, heads: seq<Graph>) returns (union: Graph, kinds: map<string, ChangeType>)
    ensures union == MergeAll(base, heads)
    ensures forall t :: KindOf(kinds, t) == if IsNew(base, heads, t) then Some(New) else None
  {
    union, kinds := base, map[];
    for i := 0 to |heads|
      invariant union == MergeAll(base, heads[..i])
      invariant forall t :: KindOf(kinds, t) == if IsNew(base, heads[..i], t) then Some(New) else None
    {
      assert heads[..i + 1] == heads[..i] + [heads[i]];
      assert heads[..i + 1][..i] == heads[..i];
      forall t ensures IsNew(base, heads[..i + 1], t) <==> IsNew(base, heads[..i], t) || (t in heads[i] && t !in union) {
        MergedEdges(base, heads[..i], t, t);
      }
      union, kinds := MergeHead(union, kinds, heads[i]);
    }
    assert heads[..|heads|] == heads;
  }

  /** What the deletions so far make of the kinds. */
  ghost predicate MarkedDeleted(kinds: map<string, ChangeType>, union: Graph, touched: seq<TouchedFile>,
                                kinds': map<string, ChangeType>) {
    forall t :: KindOf(kinds', t) == (
      if t in kinds then Some(New) else if t in union && IsDeleted(touched, t) then Some(Deleted) else None)
  }

  /** What the owners of the touched files so far make of the kinds. */
  ghost predicate MarkedChanged(kinds: map<string, ChangeType>, targets: set<string>, touched: seq<TouchedFile>,
                                kinds': map<string, ChangeType>) {
    forall t :: KindOf(kinds', t) == (
      if t in kinds then Some(kinds[t]) else if IsTouched(targets, touched, t) then Some(Changed) else None)
  }

  lemma OneMoreDeleted(touched: seq<TouchedFile>, i: nat, t: string)
    requires i < |touched|
    ensures IsDeleted(touched[..i + 1], t) <==> (IsDeleted(touched[..i], t) || DeletesTarget(touched[i], t))
  {
    hide DeletesTarget;
    assert touched[..i + 1] == touched[..i] + [touched[i]];
  }

  lemma MarkOneDeleted(kinds: map<string, ChangeType>, union: Graph, touched: seq<TouchedFile>, i: nat,
                       kinds': map<string, ChangeType>)
    requires i < |touched| && MarkedDeleted(kinds, union, touched[..i], kinds')
    ensures var (f, target) := (touched[i], LabelOf(Dir(touched[i].path)));
      MarkedDeleted(kinds, union, touched[..i + 1],
        if f.deleted && Base(f.path) == TARGET_FILE && target in union && KindOf(kinds', target) != Some(New)
        then kinds'[target := Deleted] else kinds')
  {
    hide IsDeleted, LabelOf, Dir, Base, LastSlash;
    forall t ensures IsDeleted(touched[..i + 1], t) <==> (IsDeleted(touched[..i], t) || DeletesTarget(touched[i], t)) {
      OneMoreDeleted(touched, i, t);
    }
  }

  lemma MarkOneChanged(kinds: map<string, ChangeType>, targets: set<string>, touched: seq<TouchedFile>, i: nat,
                       owner: Option<string>, kinds': map<string, ChangeType>)
    requires i < |touched| && MarkedChanged(kinds, targets, touched[..i], kinds') && Listed(touched[i].path)
    requires owner.Some? ==> Owns(targets, touched[i].path, owner.value)
    requires owner.None? ==> forall dir :: Above(dir, touched[i].path) ==> LabelOf(dir) !in targets
    ensures MarkedChanged(kinds, targets, touched[..i + 1],
      if owner.Some? && owner.value !in kinds' then kinds'[owner.value := Changed] else kinds')
  {
    assert touched[..i + 1] == touched[..i] + [touched[i]];
    forall t ensures IsTouched(targets, touched[..i + 1], t) <==> (IsTouched(targets, touched[..i], t) || owner == Some(t)) {
      OwnerIsTheOwner(targets, touched[i].path, owner, t);
    }
    hide IsTouched, Owns;
  }

  lemma OwnerIsTheOwner(targets: set<string>, file: string, owner: Option<string>, t: string)
    requires Listed(file)
    requires owner.Some? ==> Owns(targets, file, owner.value)
    requires owner.None? ==> forall dir :: Above(dir, file) ==> LabelOf(dir) !in targets
    ensures Owns(targets, file, t) <==> owner == Some(t)
  {
    if Owns(targets, file, t) {
      var dir :| Nearest(targets, file, dir) && t == LabelOf(dir);
      if owner.Some? {
        var other :| Nearest(targets, file, other) && owner.value == LabelOf(other);
        NearestIsUnique(targets, file, dir, other);
      }
    }
  }

  lemma NothingMarked(kinds: map<string, ChangeType>, union: Graph)
    requires forall t :: t in kinds ==> kinds[t] == New
    ensures MarkedDeleted(kinds, union, [], kinds)
  {
  }

  lemma NothingTouched(kinds: map<string, ChangeType>, targets: set<string>)
    ensures MarkedChanged(kinds, targets, [], kinds)
  {
  }

  method MarkDeleted(union: Graph, kinds: map<string, ChangeType>, touched: seq<TouchedFile>)
    returns (kinds': map<string, ChangeType>)
    requires forall t :: t in kinds ==> kinds[t] == New
    ensures MarkedDeleted(kinds, union, touched, kinds')
  {
    hide MarkedDeleted;
    kinds' := kinds;
    NothingMarked(kinds, union);
    for i := 0 to |touched|
      invariant MarkedDeleted(kinds, union, touched[..i], kinds')
    {
      MarkOneDeleted(kinds, union, touched, i, kinds');
      if Base(touched[i].path) == TARGET_FILE && touched[i].deleted {
        var target := LabelOf(Dir(touched[i].path));
        if target in union && KindOf(kinds', target) != Some(New) {
          kinds' := kinds'[target := Deleted];
        }
      }
    }
    assert touched[..|touched|] == touched;
  }

  method MarkChanged(union: Graph, kinds: map<string, ChangeType>, touched: seq<TouchedFile>)
    returns (kinds': map<string, ChangeType>)
    requires forall f :: f in touched ==> Listed(f.path)
    ensures MarkedChanged(kinds, union.Keys, touched, kinds')
  {
    hide MarkedChanged;
    kinds' := kinds;
    NothingTouched(kinds, union.Keys);
    for i := 0 to |touched|
      invariant MarkedChanged(kinds, union.Keys, touched[..i], kinds')
    {
      var owner := Owner(union.Keys, touched[i].path);
      MarkOneChanged(kinds, union.Keys, touched, i, owner, kinds');
      if owner.Some? && owner.value !in kinds' {
        kinds' := kinds'[owner.value := Changed];
      }
    }
    assert touched[..|touched|] == touched;
  }

  // ---- The change set ----

  datatype ChangeSet = ChangeSet(labels: seq<string>, kinds: map<string, ChangeType>, distances: map<string, nat>, deps: Graph)

  predicate Ascending(s: seq<string>) {
    forall i, j :: 0 <= i < j < |s| ==> Bytewise.Less(s[i], s[j])
  }

  ghost predicate IsChangeSet(base: Graph, heads: seq<Graph>, touched: seq<TouchedFile>, c: ChangeSet) {
    && c.deps == MergeAll(base, heads)
    && Ascending(c.labels) && (forall t :: t in c.labels <==> t in c.distances)
    && exists seeds :: IsSpread(base, heads, touched, c, seeds)
  }

  ghost predicate IsSpread(base: Graph, heads: seq<Graph>, touched: seq<TouchedFile>, c: ChangeSet,
                           seeds: map<string, ChangeType>) {
    AreSeeds(base, heads, touched, seeds) && AreDistances(c.deps, seeds.Keys, c.distances) && AreKinds(seeds, c.distances, c.kinds)
  }

  /** There is only one change set: none of the map walks can show in it. */
  lemma ChangeSetIsUnique(base: Graph, heads: seq<Graph>, touched: seq<TouchedFile>, a: ChangeSet, b: ChangeSet)
    requires IsChangeSet(base, heads, touched, a) && IsChangeSet(base, heads, touched, b)
    ensures a == b
  {
    hide AreSeeds, AreDistances, AreKinds, Ascending;
    var sa :| IsSpread(base, heads, touched, a, sa);
    var sb :| IsSpread(base, heads, touched, b, sb);
    SameSeeds(base, heads, touched, sa, sb);
    DistancesAreUnique(a.deps, sa.Keys, a.distances, b.distances);
    SameKinds(sa, a.distances, a.kinds, b.kinds);
    AscendingIsUnique(a.labels, b.labels);
  }

  lemma SameSeeds(base: Graph, heads: seq<Graph>, touched: seq<TouchedFile>, a: map<string, ChangeType>, b: map<string, ChangeType>)
    requires AreSeeds(base, heads, touched, a) && AreSeeds(base, heads, touched, b)
    ensures a == b
  {
    hide SeedKind;
    forall t ensures KindOf(a, t) == KindOf(b, t) {
      assert KindOf(a, t) == SeedKind(base, heads, touched, t);
    }
    forall t ensures t in a <==> t in b {
      assert KindOf(a, t) == KindOf(b, t);
    }
    forall t | t in a ensures a[t] == b[t] {
      assert KindOf(a, t) == KindOf(b, t);
    }
  }

  lemma SameKinds(seeds: map<string, ChangeType>, distances: map<string, nat>, a: map<string, ChangeType>, b: map<string, ChangeType>)
    requires AreKinds(seeds, distances, a) && AreKinds(seeds, distances, b)
    ensures a == b
  {
  }

  lemma {:induction false} AscendingIsUnique(a: seq<string>, b: seq<string>)
    requires Ascending(a) && Ascending(b) && forall t :: t in a <==> t in b
    ensures a == b
  {
    assert |a| > 0 ==> a[0] in b;
    assert |b| > 0 ==> b[0] in a;
    if |a| > 0 {
      FirstIsLeast(a, b);
      forall t ensures t in a[1..] <==> t in b[1..] {
        TailHas(a, t);
        TailHas(b, t);
      }
      AscendingIsUnique(a[1..], b[1..]);
      assert a == [a[0]] + a[1..] && b == [b[0]] + b[1..];
    }
  }

  lemma FirstIsLeast(a: seq<string>, b: seq<string>)
    requires Ascending(a) && Ascending(b) && |a| > 0 && |b| > 0 && a[0] in b && b[0] in a
    ensures a[0] == b[0]
  {
    var i :| 0 <= i < |b| && b[i] == a[0];
    var j :| 0 <= j < |a| && a[j] == b[0];
    if i > 0 {
      Bytewise.Asymmetric(b[0], a[0]);
    }
  }

  lemma TailHas(s: seq<string>, t: string)
    requires |s| > 0 && Ascending(s)
    ensures t in s[1..] <==> t in s && t != s[0]
  {
    Bytewise.Irreflexive(s[0]);
    assert s == [s[0]] + s[1..];
  }

  /** Inserts into a sorted list; sorting is not the source's own. */
  method Insert(s: seq<string>, t: string) returns (r: seq<string>)
    requires Ascending(s) && t !in s
    ensures Ascending(r) && forall u :: u in r <==> u in s || u == t
  {
    var i := 0;
    while i < |s| && Bytewise.Less(s[i], t)
      invariant 0 <= i <= |s| && forall j :: 0 <= j < i ==> Bytewise.Less(s[j], t)
    {
      i := i + 1;
    }
    if i < |s| {
      Bytewise.Total(s[i], t);
      forall j | i < j < |s| ensures Bytewise.Less(t, s[j]) { Bytewise.Transitive(t, s[i], s[j]); }
    }
    r := s[..i] + [t] + s[i..];
    assert s == s[..i] + s[i..];
  }

  method Sorted(targets: set<string>) returns (labels: seq<string>)
    ensures Ascending(labels) && forall t :: t in labels <==> t in targets
  {
    labels := [];
    var todo := targets;
    while todo != {}
      invariant todo <= targets && Ascending(labels) && forall t :: t in labels <==> t in targets - todo
    {
      var t :| t in todo;
      labels := Insert(labels, t);
      todo := todo - {t};
    }
  }

  // ---- changedTargets ----

  /** The repository: the graph at each commit, and what each head changed since it left the base. */
  datatype Workspace = Workspace(trees: map<string, Graph>, diffs: map<string, seq<TouchedFile>>)

  ghost predicate Readable(w: Workspace) {
    && (forall c :: c in w.trees ==> Closed(w.trees[c]))
    && (forall c, f :: c in w.diffs && f in w.diffs[c] ==> Listed(f.path))
  }

  datatype Failure = NotACommit(uri: string) | Unreadable(commit: string)

  predicate IsHex(c: char) { '0' <= c <= '9' || 'a' <= c <= 'f' }

  predicate IsCommit(sha: string) {
    (|sha| == 40 || |sha| == 64) && forall i :: 0 <= i < |sha| ==> IsHex(sha[i])
  }

  method CommitOf(uri: string) returns (r: Result<string, Failure>)
    ensures r == if IsCommit(Base(uri)) then Ok(Base(uri)) else Err(NotACommit(uri))
    ensures r.Ok? <==> (
      && (|Base(uri)| == 40 || |Base(uri)| == 64)
      && forall i :: 0 <= i < |Base(uri)| ==> '0' <= Base(uri)[i] <= '9' || 'a' <= Base(uri)[i] <= 'f')
  {
    var sha := Base(uri);
    if |sha| != 40 && |sha| != 64 {
      return Err(NotACommit(uri));
    }
    for i := 0 to |sha|
      invariant forall j :: 0 <= j < i ==> IsHex(sha[j])
    {
      if (sha[i] < '0' || sha[i] > '9') && (sha[i] < 'a' || sha[i] > 'f') {
        return Err(NotACommit(uri));
      }
    }
    return Ok(sha);
  }

  predicate Usable(w: Workspace, uri: string) {
    IsCommit(Base(uri)) && Base(uri) in w.trees && Base(uri) in w.diffs
  }

  function TreeAt(w: Workspace, uri: string): Graph { if Usable(w, uri) then w.trees[Base(uri)] else map[] }

  function DiffAt(w: Workspace, uri: string): seq<TouchedFile> { if Usable(w, uri) then w.diffs[Base(uri)] else [] }

  function Heads(w: Workspace, uris: seq<string>): seq<Graph> {
    if |uris| == 0 then [] else Heads(w, uris[..|uris| - 1]) + [TreeAt(w, uris[|uris| - 1])]
  }

  function Touched(w: Workspace, uris: seq<string>): seq<TouchedFile> {
    if |uris| == 0 then [] else Touched(w, uris[..|uris| - 1]) + DiffAt(w, uris[|uris| - 1])
  }

  lemma OneMoreHead(w: Workspace, uris: seq<string>, i: nat)
    requires i < |uris|
    ensures Heads(w, uris[..i + 1]) == Heads(w, uris[..i]) + [TreeAt(w, uris[i])]
    ensures Touched(w, uris[..i + 1]) == Touched(w, uris[..i]) + DiffAt(w, uris[i])
  {
    assert uris[..i + 1][..i] == uris[..i];
  }

  lemma NoHeads(w: Workspace, uris: seq<string>)
    ensures Heads(w, uris[..0]) == [] && Touched(w, uris[..0]) == []
  {
  }

  lemma ReadableAt(w: Workspace, uri: string)
    requires Readable(w)
    ensures Closed(TreeAt(w, uri)) && forall f :: f in DiffAt(w, uri) ==> Listed(f.path)
  {
    hide Base, IsCommit, Listed, Closed;
    ClosedEmpty();
  }

  lemma ClosedEmpty()
    ensures Closed(map[])
  {
  }

  lemma {:induction false} InputsAreReadable(w: Workspace, uris: seq<string>)
    requires Readable(w)
    ensures forall h :: h in Heads(w, uris) ==> Closed(h)
    ensures forall f :: f in Touched(w, uris) ==> Listed(f.path)
  {
    hide Readable, Closed, Listed, TreeAt, DiffAt;
    if |uris| > 0 {
      InputsAreReadable(w, uris[..|uris| - 1]);
      ReadableAt(w, uris[|uris| - 1]);
    }
  }

  /** The heads are the trees of the commits the uris end in, one for each, in order. */
  lemma {:induction false} HeadsAreTheTrees(w: Workspace, uris: seq<string>)
    requires forall u :: u in uris ==> Usable(w, u)
    ensures |Heads(w, uris)| == |uris|
    ensures forall i :: 0 <= i < |uris| ==> Base(uris[i]) in w.trees && Heads(w, uris)[i] == w.trees[Base(uris[i])]
  {
    hide Base, IsCommit;
    if |uris| > 0 {
      assert uris[|uris| - 1] in uris;
      HeadsAreTheTrees(w, uris[..|uris| - 1]);
    }
    forall i | 0 <= i < |uris| ensures Base(uris[i]) in w.trees { assert uris[i] in uris; }
  }

  /** The touched files are those of every change. */
  lemma {:induction false} TouchedAreTheDiffs(w: Workspace, uris: seq<string>, f: TouchedFile)
    requires forall u :: u in uris ==> Usable(w, u)
    ensures f in Touched(w, uris) <==> exists u :: u in uris && Base(u) in w.diffs && f in w.diffs[Base(u)]
  {
    hide Base, IsCommit;
    if |uris| > 0 {
      var front, last := uris[..|uris| - 1], uris[|uris| - 1];
      assert last in uris && uris == front + [last];
      TouchedAreTheDiffs(w, front, f);
    }
  }

  predicate FirstBad(w: Workspace, uris: seq<string>, i: nat) {
    i < |uris| && !Usable(w, uris[i]) && forall j :: 0 <= j < i ==> Usable(w, uris[j])
  }

  /** The graphs and the touched files of the changes, or why the first bad one cannot be read. */
  method ReadChanges(w: Workspace, uris: seq<string>) returns (r: Result<(seq<Graph>, seq<TouchedFile>), Failure>)
    ensures r.Ok? <==> forall u :: u in uris ==> Usable(w, u)
    ensures r.Ok? ==> r.value == (Heads(w, uris), Touched(w, uris))
    ensures r.Err? ==> exists i: nat :: (
      && FirstBad(w, uris, i)
      && r.error == if IsCommit(Base(uris[i])) then Unreadable(Base(uris[i])) else NotACommit(uris[i]))
  {
    hide Heads, Touched, Base, IsCommit;
    var heads: seq<Graph> := [];
    var touched: seq<TouchedFile> := [];
    NoHeads(w, uris);
    for i := 0 to |uris|
      invariant forall j :: 0 <= j < i ==> Usable(w, uris[j])
      invariant heads == Heads(w, uris[..i]) && touched == Touched(w, uris[..i])
    {
      OneMoreHead(w, uris, i);
      assert Usable(w, uris[i]) || FirstBad(w, uris, i);
      var commit := CommitOf(uris[i]);
      if commit.Err? {
        return Err(commit.error);
      }
      var head := commit.value;
      if head !in w.trees || head !in w.diffs {
        return Err(Unreadable(head));
      }
      heads := heads + [w.trees[head]];
      touched := touched + w.diffs[head];
    }
    assert uris[..|uris|] == uris;
    return Ok((heads, touched));
  }

  /**
   * The affected targets of the changes on top of base. Every map is walked in
   * an arbitrary order; the answer is the one change set there is.
   */
  method ComputeChangedTargets(w: Workspace, base: string, uris: seq<string>) returns (r: Result<ChangeSet, Failure>)
    requires Readable(w)
    ensures r.Ok? <==> base in w.trees && forall u :: u in uris ==> (
      && Base(u) in w.trees && Base(u) in w.diffs && (|Base(u)| == 40 || |Base(u)| == 64)
      && forall i :: 0 <= i < |Base(u)| ==> '0' <= Base(u)[i] <= '9' || 'a' <= Base(u)[i] <= 'f')
    ensures base !in w.trees ==> r == Err(Unreadable(base))
    ensures base in w.trees && r.Err? ==> exists i: nat :: (
      && FirstBad(w, uris, i)
      && r.error == if IsCommit(Base(uris[i])) then Unreadable(Base(uris[i])) else NotACommit(uris[i]))
    ensures r.Ok? ==> IsChangeSet(w.trees[base], Heads(w, uris), Touched(w, uris), r.value)
    ensures r.Ok? ==> Closed(r.value.deps)
    ensures r.Ok? ==> forall t :: t in r.value.distances ==> r.value.distances[t] < |r.value.distances|
  {
    hide Heads, Touched, IsChangeSet, Readable, Listed, Closed, Base, FirstBad;
    if base !in w.trees {
      return Err(Unreadable(base));
    }
    var changes := ReadChanges(w, uris);
    if changes.Err? {
      return Err(changes.error);
    }
    var (heads, touched) := changes.value;
    InputsAreReadable(w, uris);
    ReadableTree(w, base);
    MergedIsClosed(w.trees[base], heads);
    var c := AffectedTargets(w.trees[base], heads, touched);
    DepsOfChangeSet(w.trees[base], heads, touched, c);
    return Ok(c);
  }

  lemma ReadableTree(w: Workspace, c: string)
    requires Readable(w) && c in w.trees
    ensures Closed(w.trees[c])
  {
  }

  lemma DepsOfChangeSet(base: Graph, heads: seq<Graph>, touched: seq<TouchedFile>, c: ChangeSet)
    requires IsChangeSet(base, heads, touched, c)
    ensures c.deps == MergeAll(base, heads)
  {
  }

  method AffectedTargets(base: Graph, heads: seq<Graph>, touched: seq<TouchedFile>) returns (c: ChangeSet)
    requires forall f :: f in touched ==> Listed(f.path)
    ensures IsChangeSet(base, heads, touched, c)
    ensures forall t :: t in c.distances ==> c.distances[t] < |c.distances|
  {
    hide AreSeeds, AreDistances, AreKinds, Ascending, MarkedDeleted, MarkedChanged, IsNew;
    var union, added := BuildUnion(base, heads);
    OnlyNew(base, heads, added);
    var marked := MarkDeleted(union, added, touched);
    var seeds := MarkChanged(union, marked, touched);
    SeedsMarked(base, heads, touched, added, marked, seeds);
    var distances, kinds := Spread(union, seeds);
    var labels := Sorted(distances.Keys);
    c := ChangeSet(labels, kinds, distances, union);
    assert IsSpread(base, heads, touched, c, seeds);
  }

  lemma OnlyNew(base: Graph, heads: seq<Graph>, kinds: map<string, ChangeType>)
    requires forall t :: KindOf(kinds, t) == if IsNew(base, heads, t) then Some(New) else None
    ensures forall t :: t in kinds ==> kinds[t] == New
  {
    hide IsNew;
    forall t | t in kinds ensures kinds[t] == New { assert KindOf(kinds, t) == Some(kinds[t]); }
  }

  lemma SeedsMarked(base: Graph, heads: seq<Graph>, touched: seq<TouchedFile>,
                    added: map<string, ChangeType>, marked: map<string, ChangeType>, seeds: map<string, ChangeType>)
    requires forall t :: KindOf(added, t) == if IsNew(base, heads, t) then Some(New) else None
    requires MarkedDeleted(added, MergeAll(base, heads), touched, marked)
    requires MarkedChanged(marked, MergeAll(base, heads).Keys, touched, seeds)
    ensures AreSeeds(base, heads, touched, seeds)
  {
    hide IsNew, IsDeleted, IsTouched, MergeAll;
    forall t ensures KindOf(seeds, t) == SeedKind(base, heads, touched, t) {
      assert KindOf(added, t) == (if IsNew(base, heads, t) then Some(New) else None);
      assert KindOf(marked, t) == KindOf(marked, t) && KindOf(seeds, t) == KindOf(seeds, t);
    }
  }

  // ---- What a change set says, in terms of the repository ----

  /** A file some change touched. */
  ghost predicate TouchedBy(w: Workspace, uris: seq<string>, f: TouchedFile) {
    exists u :: u in uris && Base(u) in w.diffs && f in w.diffs[Base(u)]
  }

  /** A target of some change. */
  ghost predicate InSomeHead(w: Workspace, uris: seq<string>, t: string) {
    exists u :: u in uris && Base(u) in w.trees && t in w.trees[Base(u)]
  }

  ghost predicate EdgeInSomeHead(w: Workspace, uris: seq<string>, t: string, dep: string) {
    exists u :: u in uris && Base(u) in w.trees && dep in DepsOf(w.trees[Base(u)], t)
  }

  lemma InHeads(w: Workspace, uris: seq<string>, t: string, dep: string)
    requires forall u :: u in uris ==> Usable(w, u)
    ensures (exists h :: h in Heads(w, uris) && t in h) <==> InSomeHead(w, uris, t)
    ensures (exists h :: h in Heads(w, uris) && dep in DepsOf(h, t)) <==> EdgeInSomeHead(w, uris, t, dep)
  {
    hide Base, IsCommit, DepsOf, Usable, Heads;
    HeadsAreTheTrees(w, uris);
    var heads := Heads(w, uris);
    forall h | h in heads ensures exists i :: 0 <= i < |uris| && Base(uris[i]) in w.trees && h == w.trees[Base(uris[i])] {
      var i :| 0 <= i < |heads| && heads[i] == h;
    }
    forall u | u in uris ensures Base(u) in w.trees && w.trees[Base(u)] in heads {
      var i :| 0 <= i < |uris| && uris[i] == u;
      assert heads[i] in heads;
    }
  }

  /** The targets at distance 0. */
  function Seeds(c: ChangeSet): set<string> { set t | t in c.distances && c.distances[t] == 0 }

  lemma SeedsAreAtZero(c: ChangeSet, seeds: map<string, ChangeType>)
    requires AreDistances(c.deps, seeds.Keys, c.distances)
    ensures Seeds(c) == seeds.Keys
  {
    hide Reaches;
    forall t ensures t in Seeds(c) <==> t in seeds {
      SeedReached(c.deps, seeds.Keys, t);
      assert t in c.distances ==> Shortest(c.deps, seeds.Keys, t, c.distances[t]);
    }
  }

  /** The seeds and their kinds, from the facts about the inputs. */
  lemma SeedsMean(base: Graph, heads: seq<Graph>, touched: seq<TouchedFile>, seeds: map<string, ChangeType>, t: string)
    requires AreSeeds(base, heads, touched, seeds)
    ensures KindOf(seeds, t) == Some(New) <==> t !in base && exists h :: h in heads && t in h
    ensures KindOf(seeds, t) == Some(Deleted) <==> t in base && IsDeleted(touched, t)
    ensures t in seeds <==>
      || KindOf(seeds, t) == Some(New) || KindOf(seeds, t) == Some(Deleted)
      || IsTouched(MergeAll(base, heads).Keys, touched, t)
  {
    hide IsDeleted, IsTouched, MergeAll;
    MergedEdges(base, heads, t, t);
    assert KindOf(seeds, t) == SeedKind(base, heads, touched, t);
  }

  lemma TouchedMeans(w: Workspace, uris: seq<string>, targets: set<string>, t: string)
    requires forall u :: u in uris ==> Usable(w, u)
    ensures IsDeleted(Touched(w, uris), t) <==>
      exists f :: TouchedBy(w, uris, f) && f.deleted && Base(f.path) == "TARGET" && t == LabelOf(Dir(f.path))
    ensures IsTouched(targets, Touched(w, uris), t) <==> exists f :: TouchedBy(w, uris, f) && Owns(targets, f.path, t)
  {
    hide Base, Dir, LabelOf, Owns, Touched, Usable, TouchedBy;
    forall f ensures f in Touched(w, uris) <==> TouchedBy(w, uris, f) { TouchedIs(w, uris, f); }
  }

  lemma TouchedIs(w: Workspace, uris: seq<string>, f: TouchedFile)
    requires forall u :: u in uris ==> Usable(w, u)
    ensures f in Touched(w, uris) <==> TouchedBy(w, uris, f)
  {
    hide Base, Usable, Touched;
    TouchedAreTheDiffs(w, uris, f);
  }

  /**
   * An edge of the answer is one of the base or of some change. NEW is what the
   * base lacks and some change has; DELETED is what the base has and some change
   * took the file of; and the targets at distance 0 are these and the owners of
   * the touched files. All others are CHANGED, and every distance is the
   * shortest from there.
   */
  lemma ChangeSetMeans(w: Workspace, base: string, uris: seq<string>, c: ChangeSet, t: string, dep: string)
    requires base in w.trees && forall u :: u in uris ==> Usable(w, u)
    requires IsChangeSet(w.trees[base], Heads(w, uris), Touched(w, uris), c)
    ensures t in c.deps <==> t in w.trees[base] || InSomeHead(w, uris, t)
    ensures dep in DepsOf(c.deps, t) <==> dep in DepsOf(w.trees[base], t) || EdgeInSomeHead(w, uris, t, dep)
    ensures KindOf(c.kinds, t) == Some(New) <==> t !in w.trees[base] && InSomeHead(w, uris, t)
    ensures KindOf(c.kinds, t) == Some(Deleted) <==> (
      && t in w.trees[base]
      && exists f :: TouchedBy(w, uris, f) && f.deleted && Base(f.path) == "TARGET" && t == LabelOf(Dir(f.path)))
    ensures t in Seeds(c) <==> (
      || KindOf(c.kinds, t) == Some(New) || KindOf(c.kinds, t) == Some(Deleted)
      || exists f :: TouchedBy(w, uris, f) && Owns(c.deps.Keys, f.path, t))
    ensures AreDistances(c.deps, Seeds(c), c.distances)
    ensures Ascending(c.labels) && (t in c.labels <==> t in c.distances) && (t in c.kinds <==> t in c.distances)
  {
    hide Base, Dir, LabelOf, Usable, Heads, Touched, AreDistances, AreSeeds, AreKinds, InSomeHead, EdgeInSomeHead, DepsOf,
         TouchedBy, Owns, IsDeleted, IsTouched, MergeAll, Seeds, KindOf, Ascending;
    var heads, touched := Heads(w, uris), Touched(w, uris);
    var seeds :| IsSpread(w.trees[base], heads, touched, c, seeds);
    InHeads(w, uris, t, dep);
    MergedEdges(w.trees[base], heads, t, dep);
    TouchedMeans(w, uris, c.deps.Keys, t);
    SeedsMean(w.trees[base], heads, touched, seeds, t);
    SeedsAreAtZero(c, seeds);
    SeedKindsStay(c, seeds, t);
  }

  /** A seed keeps its kind; what is not a seed is neither NEW nor DELETED. */
  lemma SeedKindsStay(c: ChangeSet, seeds: map<string, ChangeType>, t: string)
    requires AreKinds(seeds, c.distances, c.kinds)
    ensures forall k :: k != Changed ==> (KindOf(c.kinds, t) == Some(k) <==> KindOf(seeds, t) == Some(k))
    ensures t in c.kinds <==> t in c.distances
  {
  }
}
