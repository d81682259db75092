// The strings that name messages, events and speculation paths, and why two
// different occasions never share one (platform/publish/publish.go,
// api/base/hook/event.go, submitqueue/entity/speculation.go).
module MessageIdentity {
  import ResourceIds

  predicate Lacks(s: string, c: char) { c !in s }

  predicate AllLack(parts: seq<string>, c: char) {
    forall i :: 0 <= i < |parts| ==> Lacks(parts[i], c)
  }

  /** strings.Join(parts, "/"). */
  function Join(parts: seq<string>): string {
    if |parts| == 0 then ""
    else if |parts| == 1 then parts[0]
    else parts[0] + "/" + Join(parts[1..])
  }

  /** strconv.Itoa. */
  function Itoa(n: int): string {
    if n < 0 then "-" + ResourceIds.Decimal(-n) else ResourceIds.Decimal(n)
  }

  function IntentID(entityID: string, cause: seq<string>): string {
    if |cause| == 0 then entityID else entityID + "/" + Join(cause)
  }

  function NewEventID(source: string, eventType: string, subjectID: string, version: int): string {
    Join([source, eventType, subjectID, Itoa(version)])
  }

  function NewUnversionedEventID(source: string, eventType: string, subjectID: string, causeID: string, ordinal: int): string {
    Join([source, eventType, subjectID, causeID, Itoa(ordinal)])
  }

  // ---- Cutting a string at its first or last separator ----

  /** Two separator-free heads followed by nothing or by a separator. */
  lemma {:induction false} CutFirst(a: string, x: string, b: string, y: string, c: char)
    requires Lacks(a, c) && Lacks(b, c)
    requires |x| > 0 ==> x[0] == c
    requires |y| > 0 ==> y[0] == c
    requires a + x == b + y
    ensures a == b && x == y
  {
    var s := a + x;
    assert forall i :: 0 <= i < |a| ==> s[i] == a[i];
    assert forall i :: 0 <= i < |b| ==> s[i] == b[i];
    assert |a| < |s| ==> s[|a|] == x[0];
    assert |b| < |s| ==> s[|b|] == (b + y)[|b|] == y[0];
    assert |a| == |b|;
    assert a == (a + x)[..|a|] && b == (b + y)[..|b|];
    assert x == (a + x)[|a|..] && y == (b + y)[|b|..];
  }

  lemma {:induction false} CutLast(x: string, a: string, y: string, b: string, c: char)
    requires Lacks(a, c) && Lacks(b, c)
    requires x + [c] + a == y + [c] + b
    ensures x == y && a == b
  {
    var s := x + [c] + a;
    assert s == y + [c] + b && s[|x|] == c && s[|y|] == c;
    assert forall i :: |x| < i < |s| ==> s[i] == a[i - |x| - 1];
    assert forall i :: |y| < i < |s| ==> s[i] == b[i - |y| - 1];
    assert |x| == |y|;
    assert x == s[..|x|] && y == s[..|y|] && a == s[|x| + 1..] && b == s[|y| + 1..];
  }

  lemma ItoaFacts(m: int, n: int)
    ensures Lacks(Itoa(m), '/')
    ensures Itoa(m) == Itoa(n) ==> m == n
  {
    ResourceIds.DecimalShape(if m < 0 then -m else m);
    ResourceIds.DecimalShape(if n < 0 then -n else n);
    assert !ResourceIds.IsDigit('/') && !ResourceIds.IsDigit('-');
    if m < 0 && n < 0 { assert Itoa(m)[1..] == ResourceIds.Decimal(-m) && Itoa(n)[1..] == ResourceIds.Decimal(-n); }
  }

  lemma {:induction false} JoinInjective(p: seq<string>, q: seq<string>)
    requires |p| > 0 && |q| > 0 && AllLack(p, '/') && AllLack(q, '/')
    requires Join(p) == Join(q)
    ensures p == q
  {
    var x := if |p| == 1 then "" else "/" + Join(p[1..]);
    var y := if |q| == 1 then "" else "/" + Join(q[1..]);
    assert Join(p) == p[0] + x && Join(q) == q[0] + y;
    CutFirst(p[0], x, q[0], y, '/');
    if |p| > 1 {
      assert x[1..] == Join(p[1..]) && y[1..] == Join(q[1..]);
      JoinInjective(p[1..], q[1..]);
    }
    assert p == [p[0]] + p[1..] && q == [q[0]] + q[1..];
  }

  // ---- Message ids ----

  /** An intent id determines its entity and every cause segment. */
  lemma IntentIDInjective(e1: string, c1: seq<string>, e2: string, c2: seq<string>)
    requires Lacks(e1, '/') && Lacks(e2, '/') && AllLack(c1, '/') && AllLack(c2, '/')
    ensures IntentID(e1, c1) == IntentID(e2, c2) <==> e1 == e2 && c1 == c2
  {
    if IntentID(e1, c1) == IntentID(e2, c2) {
      assert ([e1] + c1)[1..] == c1 && ([e2] + c2)[1..] == c2;
      JoinInjective([e1] + c1, [e2] + c2);
    }
  }

  // ---- Event ids ----

  function Prefix3(source: string, eventType: string, subjectID: string, rest: string): string {
    source + ("/" + (eventType + ("/" + (subjectID + ("/" + rest)))))
  }

  lemma Prefix3Injective(s1: string, t1: string, u1: string, r1: string, s2: string, t2: string, u2: string, r2: string)
    requires AllLack([s1, t1, u1], '/') && AllLack([s2, t2, u2], '/')
    requires Prefix3(s1, t1, u1, r1) == Prefix3(s2, t2, u2, r2)
    ensures s1 == s2 && t1 == t2 && u1 == u2 && r1 == r2
  {
    assert [s1, t1, u1][0] == s1 && [s1, t1, u1][1] == t1 && [s1, t1, u1][2] == u1;
    assert [s2, t2, u2][0] == s2 && [s2, t2, u2][1] == t2 && [s2, t2, u2][2] == u2;
    var z1, z2 := "/" + r1, "/" + r2;
    var y1, y2 := "/" + (u1 + z1), "/" + (u2 + z2);
    var x1, x2 := "/" + (t1 + y1), "/" + (t2 + y2);
    CutFirst(s1, x1, s2, x2, '/');
    assert x1[1..] == t1 + y1 && x2[1..] == t2 + y2;
    CutFirst(t1, y1, t2, y2, '/');
    assert y1[1..] == u1 + z1 && y2[1..] == u2 + z2;
    CutFirst(u1, z1, u2, z2, '/');
    assert z1[1..] == r1 && z2[1..] == r2;
  }

  lemma EventIDShapes(s: string, t: string, u: string, v: int, c: string)
    ensures NewEventID(s, t, u, v) == Prefix3(s, t, u, Itoa(v))
    ensures NewUnversionedEventID(s, t, u, c, v) == Prefix3(s, t, u, c + "/" + Itoa(v))
  {
    assert Join([s, t, u, Itoa(v)]) == s + "/" + Join([t, u, Itoa(v)]);
    assert Join([t, u, Itoa(v)]) == t + "/" + Join([u, Itoa(v)]);
    assert Join([s, t, u, c, Itoa(v)]) == s + "/" + Join([t, u, c, Itoa(v)]);
    assert Join([t, u, c, Itoa(v)]) == t + "/" + Join([u, c, Itoa(v)]);
    assert Join([u, c, Itoa(v)]) == u + "/" + Join([c, Itoa(v)]);
    assert Join([c, Itoa(v)]) == c + "/" + Itoa(v);
    assert Join([u, Itoa(v)]) == u + "/" + Itoa(v);
  }

  lemma VersionedEventIDInjective(s1: string, t1: string, u1: string, v1: int, s2: string, t2: string, u2: string, v2: int)
    requires AllLack([s1, t1, u1], '/') && AllLack([s2, t2, u2], '/')
    ensures NewEventID(s1, t1, u1, v1) == NewEventID(s2, t2, u2, v2)
      <==> s1 == s2 && t1 == t2 && u1 == u2 && v1 == v2
  {
    if NewEventID(s1, t1, u1, v1) == NewEventID(s2, t2, u2, v2) {
      EventIDShapes(s1, t1, u1, v1, "");
      EventIDShapes(s2, t2, u2, v2, "");
      Prefix3Injective(s1, t1, u1, Itoa(v1), s2, t2, u2, Itoa(v2));
      ItoaFacts(v1, v2);
    }
  }

  /** The cause id may itself hold slashes, as an intent id does. */
  lemma UnversionedEventIDInjective(
    s1: string, t1: string, u1: string, c1: string, o1: int,
    s2: string, t2: string, u2: string, c2: string, o2: int)
    requires AllLack([s1, t1, u1], '/') && AllLack([s2, t2, u2], '/')
    ensures NewUnversionedEventID(s1, t1, u1, c1, o1) == NewUnversionedEventID(s2, t2, u2, c2, o2)
      <==> s1 == s2 && t1 == t2 && u1 == u2 && c1 == c2 && o1 == o2
  {
    if NewUnversionedEventID(s1, t1, u1, c1, o1) == NewUnversionedEventID(s2, t2, u2, c2, o2) {
      EventIDShapes(s1, t1, u1, o1, c1);
      EventIDShapes(s2, t2, u2, o2, c2);
      Prefix3Injective(s1, t1, u1, c1 + "/" + Itoa(o1), s2, t2, u2, c2 + "/" + Itoa(o2));
      ItoaFacts(o1, o2);
      ItoaFacts(o2, o1);
      CutLast(c1, Itoa(o1), c2, Itoa(o2), '/');
    }
  }

  /** A versioned event and an unversioned one never share an id. */
  lemma EventIDKindsDisjoint(s1: string, t1: string, u1: string, v1: int, s2: string, t2: string, u2: string, c2: string, o2: int)
    requires AllLack([s1, t1, u1], '/') && AllLack([s2, t2, u2], '/')
    ensures NewEventID(s1, t1, u1, v1) != NewUnversionedEventID(s2, t2, u2, c2, o2)
  {
    var rest := c2 + "/" + Itoa(o2);
    assert rest[|c2|] == '/';
    ItoaFacts(v1, v1);
    EventIDShapes(s1, t1, u1, v1, "");
    EventIDShapes(s2, t2, u2, o2, c2);
    if NewEventID(s1, t1, u1, v1) == NewUnversionedEventID(s2, t2, u2, c2, o2) {
      Prefix3Injective(s1, t1, u1, Itoa(v1), s2, t2, u2, rest);
    }
  }

  /** With a slash in the subject the two kinds do collide. */
  lemma SlashInSubjectCollides()
    ensures NewEventID("s", "t", "a/b", 1) == NewUnversionedEventID("s", "t", "a", "b", 1)
  {
    EventIDShapes("s", "t", "a/b", 1, "");
    EventIDShapes("s", "t", "a", 1, "b");
    assert "a/b" + ("/" + Itoa(1)) == "a" + ("/" + ("b" + "/" + Itoa(1)));
  }

  // ---- Speculation paths ----

  datatype Assumption = Unknown | Succeeds | Fails {
    function Text(): string {
      match this
      case Unknown => ""
      case Succeeds => "succeeds"
      case Fails => "fails"
    }
  }

  datatype PathDependency = PathDependency(batch: string, assumption: Assumption)

  datatype SpeculationPath = SpeculationPath(head: string, dependencies: seq<PathDependency>)

  function Line(dep: PathDependency): string { dep.batch + "=" + dep.assumption.Text() }

  function Lines(deps: seq<PathDependency>): string {
    if |deps| == 0 then "" else "\n" + (Line(deps[0]) + Lines(deps[1..]))
  }

  /** The text SpeculationPath.ID hashes. */
  function PreHash(p: SpeculationPath): string { p.head + Lines(p.dependencies) }

  lemma Regroup(a: string, b: string, c: string, d: string)
    ensures a + (b + (c + d)) == (a + (b + c)) + d
  {
  }

  lemma {:induction false} LinesAppend(deps: seq<PathDependency>, dep: PathDependency)
    ensures Lines(deps + [dep]) == Lines(deps) + ("\n" + Line(dep))
  {
    if |deps| == 0 {
      assert deps + [dep] == [dep] && Lines([dep][1..]) == "";
      assert "\n" + (Line(dep) + "") == "" + ("\n" + Line(dep));
    } else {
      LinesAppend(deps[1..], dep);
      assert (deps + [dep])[1..] == deps[1..] + [dep] && (deps + [dep])[0] == deps[0];
      Regroup("\n", Line(deps[0]), Lines(deps[1..]), "\n" + Line(dep));
    }
  }

  // strings.Builder, written to in a loop.
  method WritePath(p: SpeculationPath) returns (b: string)
    ensures b == PreHash(p)
  {
    b := p.head;
    for i := 0 to |p.dependencies|
      invariant b == p.head + Lines(p.dependencies[..i])
    {
      var dep := p.dependencies[i];
      ghost var before := p.dependencies[..i];
      LinesAppend(before, dep);
      assert p.dependencies[..i + 1] == before + [dep];
      WrittenLine(p.head, Lines(before), dep);
      b := b + "\n";
      b := b + dep.batch;
      b := b + "=";
      b := b + dep.assumption.Text();
    }
    assert p.dependencies[..|p.dependencies|] == p.dependencies;
  }

  lemma WrittenLine(head: string, lines: string, dep: PathDependency)
    ensures (((head + lines) + "\n") + dep.batch) + "=" + dep.assumption.Text()
      == head + (lines + ("\n" + Line(dep)))
  {
  }

  predicate NewlineFree(p: SpeculationPath) {
    Lacks(p.head, '\n') && forall i :: 0 <= i < |p.dependencies| ==> Lacks(p.dependencies[i].batch, '\n')
  }

  lemma LineInjective(d: PathDependency, e: PathDependency)
    requires Line(d) == Line(e)
    ensures d == e
  {
    CutLast(d.batch, d.assumption.Text(), e.batch, e.assumption.Text(), '=');
    assert |d.assumption.Text()| == |e.assumption.Text()|;
  }

  lemma CutLine(d: PathDependency, x: string, e: PathDependency, y: string)
    requires Lacks(d.batch, '\n') && Lacks(e.batch, '\n')
    requires |x| > 0 ==> x[0] == '\n'
    requires |y| > 0 ==> y[0] == '\n'
    requires "\n" + (Line(d) + x) == "\n" + (Line(e) + y)
    ensures d == e && x == y
  {
    assert ("\n" + (Line(d) + x))[1..] == Line(d) + x && ("\n" + (Line(e) + y))[1..] == Line(e) + y;
    CutFirst(Line(d), x, Line(e), y, '\n');
    LineInjective(d, e);
  }

  lemma {:induction false} LinesInjective(d: seq<PathDependency>, e: seq<PathDependency>)
    requires forall i :: 0 <= i < |d| ==> Lacks(d[i].batch, '\n')
    requires forall i :: 0 <= i < |e| ==> Lacks(e[i].batch, '\n')
    requires Lines(d) == Lines(e)
    ensures d == e
  {
    if |d| > 0 && |e| > 0 {
      CutLine(d[0], Lines(d[1..]), e[0], Lines(e[1..]));
      LinesInjective(d[1..], e[1..]);
      assert d == [d[0]] + d[1..] && e == [e[0]] + e[1..];
    }
  }

  /** Batch ids may hold '='; only a newline could make two paths share a text. */
  lemma PreHashInjective(p: SpeculationPath, q: SpeculationPath)
    requires NewlineFree(p) && NewlineFree(q)
    ensures PreHash(p) == PreHash(q) <==> p == q
  {
    if PreHash(p) == PreHash(q) {
      CutFirst(p.head, Lines(p.dependencies), q.head, Lines(q.dependencies), '\n');
      LinesInjective(p.dependencies, q.dependencies);
    }
  }
}
