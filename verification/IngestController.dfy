// The ingest controller as the loop-and-branch code it is
// (stovepipe/controller/ingest.go), run as one process of the protocol: before
// each of its store operations everybody else may take any number of steps.
// Each operation changes the stores itself and is shown to be the protocol's
// step, so what holds of every run holds of every execution of this code.
module IngestController {
  import opened Wrappers
  import opened ResourceIds
  import opened IngestProtocol
  import opened IngestInvariant
  import opened IngestBookmark
  import opened IngestRuns
  import MessageIdentity

  datatype IngestError = CounterFailed

  predicate Draws(a: Action, draw: int) { a.Step? && a.minted == draw }

  lemma IssuedByDraws(s: State, a: Action)
    requires Enabled(s, a)
    ensures forall d :: d in Next(s, a).store.issued ==> d in s.store.issued || Draws(a, d)
  {
  }

  lemma GrownKeepsMapping(st: Store, t: Store, uri: Uri)
    requires Grows(st, t)
    ensures uri in st.uris ==> Mapped(t, uri, st.uris[uri])
  {
  }

  class Controller {
    const me: Pid
    var world: State
    var others: seq<seq<Action>>
    ghost var trace: seq<State>
    ghost var acts: seq<Action>

    ghost predicate Valid()
      reads this
    {
      IsRun(trace, acts) && |trace| == |acts| + 1 && world == trace[|acts|] && me in world.procs
    }

    ghost predicate Standing(pc: Pc)
      reads this
    {
      Valid() && world.procs[me] == pc
    }

    /** Nobody has drawn this counter value, and nobody else is going to. */
    ghost predicate Undrawn(draw: int)
      reads this
    {
      draw !in world.store.issued && forall b, a :: b in others && a in b ==> !Draws(a, draw)
    }

    lemma StoresAreSound()
      requires Valid()
      ensures Stored(world.store) && PcInv(world.store, world.procs[me])
    {
      hide IsRun;
      RunKeepsInv(trace, acts, |acts|);
    }

    /** Whatever was stored at an earlier moment of the run is still stored. */
    lemma GrewSince(earlier: seq<State>, k: nat)
      requires Valid() && earlier <= trace && k < |earlier|
      ensures Grows(earlier[k].store, world.store)
    {
      hide Grows;
      RunGrows(trace, acts, k, |acts|);
    }

    // ---- Taking steps ----

    /** Somebody takes a step; the run grows by it. */
    method Take(a: Action)
      requires Valid() && Enabled(world, a)
      modifies this`world, this`trace, this`acts
      ensures Valid() && world == Next(old(world), a)
      ensures acts == old(acts) + [a] && old(trace) <= trace
    {
      hide Next, Enabled;
      world := Next(world, a);
      acts := acts + [a];
      trace := trace + [world];
      assert me in world.procs by { KeepsProcs(old(world), a); }
    }

    lemma KeepsProcs(s: State, a: Action)
      requires Enabled(s, a)
      ensures forall p :: p in s.procs ==> p in Next(s, a).procs
      ensures forall p :: p in s.procs && !(a.Collect?) && a.p != p ==> Next(s, a).procs[p] == s.procs[p]
      ensures a.Collect? ==> Next(s, a).procs == s.procs
    {
    }

    /** Everybody else takes the next burst of steps, if one is left. */
    method Interfere()
      requires Valid()
      modifies this`world, this`trace, this`acts, this`others
      ensures Valid() && old(trace) <= trace
      ensures world.procs[me] == old(world.procs[me])
      ensures others == if old(others) == [] then [] else old(others)[1..]
      ensures old(others) == [] ==> world == old(world)
      ensures Grows(old(world.store), world.store)
      ensures forall d :: old(Undrawn(d)) ==> Undrawn(d)
    {
      hide Next, Enabled, Grows, IsRun;
      if others == [] {
        GrewSince(old(trace), |old(acts)|);
        return;
      }
      var burst := others[0];
      others := others[1..];
      for i := 0 to |burst|
        invariant Valid() && old(trace) <= trace && others == old(others)[1..]
        invariant world.procs[me] == old(world.procs[me])
        invariant forall d :: old(Undrawn(d)) ==> d !in world.store.issued
      {
        var a := burst[i];
        assert burst in old(others) && a in burst;
        if (a.Collect? || a.p != me) && Enabled(world, a) {
          ghost var before := world;
          Take(a);
          KeepsProcs(before, a);
          IssuedByDraws(before, a);
        }
      }
      GrewSince(old(trace), |old(acts)|);
    }

    /** This call's own step: it left the stores at st and itself at pc. */
    method Commit(st: Store, pc: Pc, minted: Int64)
      requires Valid() && InCall(world.procs[me]) && (world.procs[me].Mint? ==> minted !in world.store.issued)
      requires Stored(world.store) && CallStep(world.store, world.procs[me], minted) == (st, pc)
      modifies this`world, this`trace, this`acts
      ensures Standing(pc) && world.store == st && old(trace) <= trace
    {
      hide CallStep;
      ghost var next := Next(world, Step(me, minted));
      world := State(st, world.procs[me := pc]);
      assert world == next;
      acts := acts + [Step(me, minted)];
      trace := trace + [world];
    }

    /** The call gives up. */
    method GiveUp()
      requires Valid() && !world.procs[me].Done?
      modifies this`world, this`trace, this`acts
      ensures Standing(Stopped) && old(trace) <= trace && world.store == old(world.store)
    {
      StoresAreSound();
      Take(Action.Stop(me));
    }

    // ---- Store operations ----

    method GetIDByURI(uri: Uri) returns (found: Option<ReqId>)
      requires Standing(Lookup(uri)) || Standing(Reread(uri))
      modifies this`world, this`trace, this`acts, this`others
      ensures old(trace) <= trace
      ensures found.Some? ==> Standing(Load(uri, found.value))
      ensures found.None? ==> Standing(Mint(uri))
      ensures found == if uri in world.store.uris then Some(world.store.uris[uri]) else None
      ensures old(world.procs[me]).Reread? ==> found.Some?
      ensures Grows(old(world.store), world.store) && |others| <= |old(others)|
      ensures forall d :: old(Undrawn(d)) ==> Undrawn(d)
      ensures old(others) == [] ==> world.store == old(world.store)
    {
      hide IsRun, Grows;
      Interfere();
      StoresAreSound();
      var st := world.store;
      found := if uri in st.uris then Some(st.uris[uri]) else None;
      Commit(st, if found.Some? then Load(uri, found.value) else Mint(uri), 0);
    }

    /** counter.Next then id.FromCounter; `draw` is what the counter returns,
        and a value it returned before counts as a failure of the counter. */
    method MintID(uri: Uri, draw: Int64) returns (id: Option<ReqId>)
      requires Standing(Mint(uri))
      modifies this`world, this`trace, this`acts, this`others
      ensures old(trace) <= trace
      ensures id.Some? ==> Standing(Claim(uri, id.value)) && draw > 0 && id.value == Decimal(draw)
      ensures id.None? ==> Standing(Stopped)
      ensures draw > 0 && old(Undrawn(draw)) ==> id.Some?
      ensures draw <= 0 || draw in old(world.store.issued) ==> id.None?
      ensures Grows(old(world.store), world.store) && |others| <= |old(others)|
      ensures old(others) == [] ==> others == [] && world.store.uris == old(world.store.uris)
    {
      hide IsRun;
      Interfere();
      StoresAreSound();
      if draw in world.store.issued {
        id := None;
        GiveUp();
        return;
      }
      var st := world.store.(issued := world.store.issued + {draw});
      match FromCounter(draw)
      case Ok(minted) =>
        id := Some(minted);
        Commit(st, Claim(uri, minted), draw);
      case Err(_) =>
        id := None;
        Commit(st, Stopped, draw);
    }

    method CreateURI(uri: Uri, id: ReqId) returns (created: bool)
      requires Standing(Claim(uri, id))
      modifies this`world, this`trace, this`acts, this`others
      ensures old(trace) <= trace
      ensures Standing(if created then Load(uri, id) else Reread(uri))
      ensures Mapped(world.store, uri, id) || !created
      ensures Grows(old(world.store), world.store) && |others| <= |old(others)|
      ensures old(others) == [] ==> (created <==> uri !in old(world.store.uris))
    {
      hide IsRun, Compare, Grows;
      Interfere();
      StoresAreSound();
      var st := world.store;
      created := uri !in st.uris;
      if created { st := st.(uris := st.uris[uri := id]); }
      Commit(st, if created then Load(uri, id) else Reread(uri), 0);
      GrewSince(old(trace), |old(acts)|);
    }

    method GetRequest(uri: Uri, id: ReqId) returns (got: Option<Request>, ghost start: nat)
      requires Standing(Load(uri, id)) || Standing(Reload(uri, id))
      modifies this`world, this`trace, this`acts, this`others
      ensures old(trace) <= trace
      ensures got.Some? ==> Standing(ReadQueue(Advance(uri, id, got.value.state == Accepted, start, 0)))
      ensures got.None? ==> Standing(Insert(uri, id))
      ensures got == if id in world.store.requests then Some(world.store.requests[id]) else None
      ensures old(world.procs[me]).Reload? ==> got.Some?
    {
      hide IsRun, Grows;
      Interfere();
      StoresAreSound();
      var st := world.store;
      start := |st.hist|;
      got := if id in st.requests then Some(st.requests[id]) else None;
      var next :=
        if got.Some? then ReadQueue(Advance(uri, id, got.value.state == Accepted, |st.hist|, 0))
        else Insert(uri, id);
      Commit(st, next, 0);
    }

    method CreateRequest(request: Request) returns (created: bool, ghost start: nat)
      requires request.state == Accepted && Standing(Insert(request.uri, request.id))
      modifies this`world, this`trace, this`acts, this`others
      ensures old(trace) <= trace
      ensures created ==> Standing(ReadQueue(Advance(request.uri, request.id, true, start, 0)))
      ensures !created ==> Standing(Reload(request.uri, request.id))
      ensures created ==> request.id in world.store.requests && world.store.requests[request.id] == request
    {
      hide IsRun, Grows;
      Interfere();
      StoresAreSound();
      var st := world.store;
      start := |st.hist|;
      created := request.id !in st.requests;
      if created {
        st := st.(requests := st.requests[request.id := request]);
        Commit(st, ReadQueue(Advance(request.uri, request.id, true, |st.hist|, 0)), 0);
      } else {
        Commit(st, Reload(request.uri, request.id), 0);
      }
    }

    method GetQueue(ghost a: Advance) returns (got: Option<QueueRow>, ghost seen: nat)
      requires Standing(ReadQueue(a)) || Standing(RereadQueue(a))
      modifies this`world, this`trace, this`acts, this`others
      ensures old(trace) <= trace
      ensures got.Some? ==> Standing(AfterRead(a, Read(got.value, seen)))
      ensures got.None? ==> Standing(InsertQueue(a))
      ensures got.Some? ==> world.store.queue == got && |world.store.hist| == seen + 1
      ensures old(world.procs[me]).RereadQueue? ==> got.Some?
      ensures |others| <= |old(others)|
    {
      hide IsRun, Grows, Compare;
      Interfere();
      StoresAreSound();
      var st := world.store;
      var pc := world.procs[me];
      got := st.queue;
      seen := if got.Some? then |st.hist| - 1 else 0;
      Commit(st, if got.Some? then AfterRead(pc.a, Read(got.value, |st.hist| - 1)) else InsertQueue(pc.a), 0);
    }

    method CreateQueue(ghost a: Advance, row: QueueRow) returns (created: bool, ghost seen: nat)
      requires row == QueueRow("", 0, 1) && Standing(InsertQueue(a))
      modifies this`world, this`trace, this`acts, this`others
      ensures old(trace) <= trace
      ensures created ==> Standing(AfterRead(a, Read(row, seen)))
      ensures created ==> world.store.queue == Some(row) && |world.store.hist| == seen + 1
      ensures !created ==> Standing(RereadQueue(a))
      ensures |others| <= |old(others)|
    {
      hide IsRun, Grows, Compare;
      Interfere();
      StoresAreSound();
      var st := world.store;
      var pc := world.procs[me];
      created := st.queue.None?;
      seen := |st.hist|;
      if created {
        st := PutQueue(st, row);
        Commit(st, AfterRead(pc.a, Read(row, |st.hist| - 1)), 0);
      } else {
        Commit(st, RereadQueue(pc.a), 0);
      }
    }

    /** The conditional write; it fails only if somebody wrote the row since it
        was read, which uses up a burst of the others. */
    method UpdateQueue(ghost a: Advance, ghost read: Read, updated: QueueRow, oldVersion: int) returns (ok: bool)
      requires Standing(Update(a, read)) && oldVersion == read.row.version
      requires updated == Bumped(read.row.(latest := a.id))
      modifies this`world, this`trace, this`acts, this`others
      ensures old(trace) <= trace
      ensures Standing(if ok then Publish(a.uri, a.id, a.announce) else ReadQueue(a.(fails := a.fails + 1)))
      ensures !ok && old(world.store.queue) == Some(read.row) ==> |others| < |old(others)|
      ensures |others| <= |old(others)|
    {
      hide IsRun, Compare, Grows;
      Interfere();
      StoresAreSound();
      var st := world.store;
      var pc := world.procs[me];
      ok := st.queue.Some? && st.queue.value.version == oldVersion;
      if ok {
        Commit(PutQueue(st, updated), Publish(pc.a.uri, pc.a.id, pc.a.announce), 0);
      } else {
        Commit(st, ReadQueue(pc.a.(fails := pc.a.fails + 1)), 0);
      }
    }

    // ---- The controller ----

    /**
     * The id the URI maps to, whoever claimed it. The only failure is the
     * counter's: none is possible if the URI was mapped before, or if the value
     * drawn is positive and is nobody else's; without others it fails exactly
     * then, and otherwise returns the id already mapped or the one just drawn.
     */
    method ResolveID(uri: Uri, draw: Int64) returns (r: Result<ReqId, IngestError>)
      requires Standing(Lookup(uri))
      modifies this`world, this`trace, this`acts, this`others
      ensures old(trace) <= trace
      ensures r.Ok? ==> Standing(Load(uri, r.value)) && Mapped(world.store, uri, r.value)
      ensures r.Err? ==> Standing(Stopped) && r.error == CounterFailed
      ensures uri in old(world.store.uris) ==> r == Ok(old(world.store.uris[uri]))
      ensures draw > 0 && old(Undrawn(draw)) ==> r.Ok?
      ensures old(others) == [] && uri !in old(world.store.uris) ==>
        if draw > 0 && draw !in old(world.store.issued) then r == Ok(Decimal(draw)) else r == Err(CounterFailed)
    {
      hide IsRun, Compare, Grows, Undrawn, Valid, Decimal, PcInv, Stored;
      NobodyDraws(draw);
      var known := GetIDByURI(uri);
      GrownKeepsMapping(old(world.store), world.store, uri);
      if known.Some? { return Ok(known.value); }
      var minted := MintID(uri, draw);
      if minted.None? { return Err(CounterFailed); }
      var claimed := CreateURI(uri, minted.value);
      if !claimed {
        // A claim is lost only to another, so the winner's id is there to be read.
        var existing := GetIDByURI(uri);
        return Ok(existing.value);
      }
      return Ok(minted.value);
    }

    lemma NobodyDraws(draw: int)
      ensures others == [] ==> (Undrawn(draw) <==> draw !in world.store.issued)
    {
    }

    lemma StillMapped(earlier: seq<State>, k: nat, uri: Uri)
      requires Valid() && earlier <= trace && k < |earlier| && uri in earlier[k].store.uris
      ensures Mapped(world.store, uri, earlier[k].store.uris[uri])
    {
      hide IsRun, Grows;
      GrewSince(earlier, k);
      GrownKeepsMapping(earlier[k].store, world.store, uri);
    }

    /** The request row as it is stored; the row is there whoever created it. */
    method EnsureRequest(uri: Uri, id: ReqId) returns (request: Request, ghost start: nat)
      requires Standing(Load(uri, id))
      modifies this`world, this`trace, this`acts, this`others
      ensures old(trace) <= trace
      ensures Standing(ReadQueue(Advance(uri, id, request.state == Accepted, start, 0)))
      ensures id in world.store.requests && world.store.requests[id] == request
    {
      hide IsRun, Compare;
      var got;
      got, start := GetRequest(uri, id);
      if got.Some? { return got.value, start; }
      request := Request(id, uri, Accepted);
      var created;
      created, start := CreateRequest(request);
      if !created {
        // Raced with a concurrent creator; the canonical row is there to be read.
        got, start := GetRequest(uri, id);
        return got.value, start;
      }
    }

    /** The queue row as it is stored; the row is there whoever created it. */
    method EnsureQueue(ghost a: Advance) returns (queue: QueueRow, ghost seen: nat)
      requires Standing(ReadQueue(a))
      modifies this`world, this`trace, this`acts, this`others
      ensures old(trace) <= trace && |others| <= |old(others)|
      ensures Standing(AfterRead(a, Read(queue, seen))) && world.store.queue == Some(queue)
    {
      hide IsRun, Compare;
      var got;
      got, seen := GetQueue(a);
      if got.Some? { return got.value, seen; }
      queue := QueueRow("", 0, 1);
      var created;
      created, seen := CreateQueue(a, queue);
      if !created {
        // Raced with a concurrent creator; the canonical row is there to be read.
        got, seen := GetQueue(a);
        return got.value, seen;
      }
    }

    /** The bookmark of a queue holds an id that can be compared. */
    lemma BookmarkIsComparable(uri: Uri, id: ReqId)
      requires Valid() && Mapped(world.store, uri, id)
      requires world.store.queue.Some? && world.store.queue.value.latest != ""
      ensures Compare(id, world.store.queue.value.latest).Ok?
    {
      hide IsRun;
      RunKeepsInv(trace, acts, |acts|);
      RunKeepsNames(trace, acts, |acts|);
      NamedIsMinted(world.store, id);
      CompareIsNumeric(id, world.store.queue.value.latest);
    }

    /** The retry loop ends because every failed round was caused by somebody
        else's write, and it always ends well. */
    method AdvanceQueueLatestRequestID(uri: Uri, id: ReqId, announce: bool, ghost start: nat)
      requires Standing(ReadQueue(Advance(uri, id, announce, start, 0)))
      modifies this`world, this`trace, this`acts, this`others
      ensures old(trace) <= trace
      ensures Standing(Publish(uri, id, announce))
    {
      hide IsRun, Compare, Grows;
      ghost var a := Advance(uri, id, announce, start, 0);
      StoresAreSound();
      while true
        invariant old(trace) <= trace && Standing(ReadQueue(a))
        invariant a.uri == uri && a.id == id && a.announce == announce
        decreases |others|
      {
        ghost var burstsLeft := |others|;
        var queueRow, seen := EnsureQueue(a);
        StillMapped(old(trace), |old(acts)|, uri);
        if queueRow.latest != "" {
          // Both are minted, so the comparison does not fail.
          BookmarkIsComparable(uri, id);
          var cmp := Compare(id, queueRow.latest);
          if cmp.value <= 0 { return; }
        }
        var updated := queueRow.(latest := id, version := Int32(queueRow.version + 1));
        var ok := UpdateQueue(a, Read(queueRow, seen), updated, queueRow.version);
        if ok { return; }
        a := a.(fails := a.fails + 1);
      }
    }

    /** The message id is the request id with no cause. */
    method PublishProcess(uri: Uri, id: ReqId, announce: bool)
      requires Standing(Publish(uri, id, announce))
      modifies this`world, this`trace, this`acts, this`others
      ensures old(trace) <= trace && Standing(Done(uri, id))
    {
      hide IsRun, Compare, Grows;
      Interfere();
      StoresAreSound();
      var st := world.store;
      if announce {
        var messageID := MessageIdentity.IntentID(id, []);
        if messageID !in st.topic { st := st.(topic := st.topic + [messageID]); }
        st := st.(published := st.published + {messageID});
      }
      Commit(st, Done(uri, id), 0);
    }

    lemma ReturnedIsInPlace(uri: Uri, id: ReqId)
      requires Standing(Done(uri, id))
      ensures Mapped(world.store, uri, id) && id in world.store.requests && id in world.store.published
    {
      ReturnedIsMapped(trace, acts, |acts|, me);
    }

    /**
     * Whatever the others do in between, a call that returns an id leaves the
     * mapping, the request row and the message behind, and its execution is a
     * run of the protocol. It fails only if the counter fails it, which cannot
     * happen if the URI was mapped before or the value drawn is positive and
     * nobody else's; and it returns the id that was mapped, if there was one.
     */
    method Ingest(uri: Uri, draw: Int64) returns (r: Result<ReqId, IngestError>)
      requires Standing(Lookup(uri))
      modifies this`world, this`trace, this`acts, this`others
      ensures old(trace) <= trace
      ensures r.Ok? ==> Standing(Done(uri, r.value))
      ensures r.Ok? ==> Mapped(world.store, uri, r.value) && r.value in world.store.requests && r.value in world.store.published
      ensures r.Err? ==> Standing(Stopped) && r.error == CounterFailed
      ensures draw > 0 && old(Undrawn(draw)) ==> r.Ok?
      ensures uri in old(world.store.uris) ==> r == Ok(old(world.store.uris[uri]))
      ensures old(others) == [] && uri !in old(world.store.uris) ==>
        if draw > 0 && draw !in old(world.store.issued) then r == Ok(Decimal(draw)) else r == Err(CounterFailed)
    {
      hide *;
      var resolved := ResolveID(uri, draw);
      if resolved.Err? { return Err(resolved.error); }
      var id := resolved.value;
      var request, start := EnsureRequest(uri, id);
      var announce := request.state == Accepted;
      AdvanceQueueLatestRequestID(uri, id, announce, start);
      PublishProcess(uri, id, announce);
      ReturnedIsInPlace(uri, id);
      return Ok(id);
    }
  }
}
