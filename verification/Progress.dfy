// That the operations of Fleet come to an end over the lock table of Locks, with
// registering and giving up a reference as steps of their own: no deadlock, no
// endless run, nothing left in the table.

module Progress {
  import Locks
  import Fleet
  import Lima
  import opened Composition

  // ---------------------------------------------------------------------
  // Where the calls stand
  // ---------------------------------------------------------------------

  /** A call is made no earlier than where its goroutine takes the lock, and waits
      exactly as long as the goroutine is there. */
  ghost predicate CallPlaced<E>(s: Locks.State<E>, id: nat, before: bool, at: bool) {
    && (before ==> id !in s.calls)
    && (id in s.calls ==> (at <==> s.calls[id].Waiting?))
  }

  predicate BeforeObject(pc: Fleet.Pc) { Fleet.Before(pc) && !pc.WaitObject? }

  ghost predicate Placed<E>(j: Joint<E>, i: nat)
    requires i < |j.fleet.threads|
  {
    var pc := j.fleet.threads[i].pc;
    && CallPlaced(j.table, HomeCall(i), pc.ReadReady?, pc.WaitHome?)
    && CallPlaced(j.table, ObjectCall(i), BeforeObject(pc), pc.WaitObject?)
  }

  ghost predicate Inv<E>(j: Joint<E>) {
    Composition.Inv(j) && forall i: nat | i < |j.fleet.threads| :: Placed(j, i)
  }

  /** What a step of the table does to a call. */
  lemma CallMoves<E>(s: Locks.State<E>, l: Locks.Event<E>, id: nat)
    requires Locks.Enabled(s, l)
    ensures l.id != id ==> (id in Locks.Step(s, l).calls <==> id in s.calls)
    ensures l.id != id && id in s.calls ==> Locks.Step(s, l).calls[id] == s.calls[id]
    ensures id in s.calls && !s.calls[id].Waiting? ==> !Locks.Step(s, l).calls[id].Waiting?
    ensures l.id == id ==> id in Locks.Step(s, l).calls && (Locks.Step(s, l).calls[id].Waiting? <==> l.Register?)
  {
  }

  lemma InnerPlaces<E>(j: Joint<E>, ev: Event<E>, i: nat)
    requires Inv(j) && Enabled(j, ev) && ev.Inner? && i < |j.fleet.threads|
    ensures Placed(Step(j, ev), i)
  {
    assert Placed(j, i);
    OtherCalls(i, i);
    CallMoves(j.table, ev.lock, HomeCall(i));
    CallMoves(j.table, ev.lock, ObjectCall(i));
  }

  /** How a goroutine passes the two places where it takes a lock. */
  lemma AdvancePlaces(t: Fleet.Thread, c: Fleet.Choice, w: Lima.World, ready: bool)
    requires Fleet.Open(t, c, w)
    ensures var u := Fleet.Advance(t, c, w, ready);
      && !u.pc.ReadReady?
      && (u.pc.WaitHome? ==> t.pc.ReadReady?)
      && (u.pc.WaitObject? ==> BeforeObject(t.pc))
      && (BeforeObject(u.pc) ==> BeforeObject(t.pc))
  {
    if Fleet.Reads(t.pc) { Fleet.ObservedGate(t, w, c.Go?); }
  }

  lemma ActPlaces<E>(j: Joint<E>, ev: Event<E>, i: nat)
    requires Inv(j) && Enabled(j, ev) && !ev.Inner? && i < |j.fleet.threads|
    ensures Placed(Step(j, ev), i)
  {
    var m := ev.act.thread;
    assert Placed(j, i);
    OtherCalls(i, m);
    OtherCalls(m, i);
    if ev.Act? {
      CallMoves(j.table, ev.with, HomeCall(i));
      CallMoves(j.table, ev.with, ObjectCall(i));
    }
    if m == i { MoverPlaced(j, ev); }
  }

  lemma MoverPlaced<E>(j: Joint<E>, ev: Event<E>)
    requires Inv(j) && Enabled(j, ev) && !ev.Inner?
    ensures Placed(Step(j, ev), ev.act.thread)
  {
    var m := ev.act.thread;
    assert Placed(j, m);
    OtherCalls(m, m);
    AdvancePlaces(j.fleet.threads[m], ev.act.choice, j.fleet.world, j.fleet.ready);
    if ev.Act? {
      CallMoves(j.table, ev.with, HomeCall(m));
      CallMoves(j.table, ev.with, ObjectCall(m));
    }
  }

  lemma StepKeeps<E>(j: Joint<E>, ev: Event<E>)
    requires Inv(j) && Enabled(j, ev)
    ensures Inv(Step(j, ev))
  {
    Composition.StepKeeps(j, ev);
    forall i: nat | i < |j.fleet.threads| ensures Placed(Step(j, ev), i) {
      if ev.Inner? { InnerPlaces(j, ev, i); } else { ActPlaces(j, ev, i); }
    }
  }

  // ---------------------------------------------------------------------
  // What is left to do
  // ---------------------------------------------------------------------

  /** A call is registered or refused once, and finished once. */
  ghost function CallRank<E>(s: Locks.State<E>, id: nat): nat {
    if id !in s.calls then 2 else if s.calls[id].Finished? then 0 else 1
  }

  ghost function CallsLeft<E>(s: Locks.State<E>, n: nat): nat {
    if n == 0 then 0 else CallRank(s, n - 1) + CallsLeft(s, n - 1)
  }

  ghost function Left<E>(j: Joint<E>): nat {
    Fleet.TotalRank(j.fleet.threads) + CallsLeft(j.table, 2 * |j.fleet.threads|)
  }

  /** Running an unlock function again. */
  predicate Repeats<E>(ev: Event<E>) { ev.Inner? && ev.lock.Unlock? }

  /** Somebody's context is done. */
  predicate Cancels<E>(ev: Event<E>) { !ev.Inner? && ev.act.choice.Cancel? }

  lemma {:induction false} CallsDrop<E>(s: Locks.State<E>, l: Locks.Event<E>, n: nat)
    requires Locks.Enabled(s, l)
    ensures CallsLeft(Locks.Step(s, l), n) <= CallsLeft(s, n)
    ensures l.id < n && (l.Register? || l.Release?) ==> CallsLeft(Locks.Step(s, l), n) < CallsLeft(s, n)
  {
    if n > 0 { CallsDrop(s, l, n - 1); }
  }

  /** Every step brings the whole closer to its end, except running an unlock
      function again, which changes nothing. */
  lemma StepDrops<E>(j: Joint<E>, ev: Event<E>)
    requires Inv(j) && Enabled(j, ev)
    ensures if Repeats(ev) then Step(j, ev) == j else Left(Step(j, ev)) < Left(j)
  {
    var n := 2 * |j.fleet.threads|;
    if ev.Inner? {
      CallsDrop(j.table, ev.lock, n);
      assert CallOk(j, ev.lock.id);
    } else {
      ActEnabled(j, ev);
      Fleet.StepDrops(j.fleet, ev.act);
      if ev.Act? { CallsDrop(j.table, ev.with, n); }
    }
  }

  // ---------------------------------------------------------------------
  // No deadlock
  // ---------------------------------------------------------------------

  /** The goroutine can register for the lock it has come to. */
  lemma CanRegister<E>(j: Joint<E>, id: nat, e: E) returns (ev: Event<E>)
    requires Inv(j) && AtLock(j.fleet, id) && id !in j.table.calls && e !in j.table.table.cells
    ensures Enabled(j, ev) && ev.Inner? && ev.lock.Register?
  {
    var key := KeyOfCall(j.fleet, id);
    if key in j.table.table.locks { assert Locks.Live(j.table.table, key); }
    ev := Inner(Locks.Register(id, key, if key in j.table.table.locks then j.table.table.locks[key] else e));
  }

  /** While a goroutine is unfinished one of them can register or take a step. */
  lemma GoroutineMoves<E>(j: Joint<E>, i: nat, e: E) returns (ev: Event<E>)
    requires Inv(j) && i < |j.fleet.threads| && !j.fleet.threads[i].pc.Finished? && e !in j.table.table.cells
    ensures Enabled(j, ev) && !Cancels(ev) && !Repeats(ev)
  {
    var act := Fleet.Unblocked(j.fleet, i);
    var m, pc := act.thread, j.fleet.threads[act.thread].pc;
    var id := if pc.WaitHome? then HomeCall(m) else ObjectCall(m);
    OtherCalls(m, m);
    if !UsesLock(pc) {
      ev := Plain(act);
    } else if (pc.WaitHome? || pc.WaitObject?) && id !in j.table.calls {
      ev := CanRegister(j, id, e);
    } else {
      assert Placed(j, m);
      var l := TableAllows(j, act);
      ev := Act(act, l);
    }
  }

  /** A reference that nobody waits with or owns with can be given up. */
  lemma ReleaseMoves<E>(j: Joint<E>, id: nat) returns (ev: Event<E>)
    requires Inv(j) && id in j.table.calls
    requires j.table.calls[id].GivingUp? || j.table.calls[id].Returning?
    ensures Enabled(j, ev) && !Cancels(ev) && !Repeats(ev)
  {
    assert Locks.Agrees(j.table, id) && Locks.Live(j.table.table, j.table.calls[id].key);
    ev := Inner(Locks.Release(id));
  }

  /** Once all goroutines have finished, a call that has not can only have its
      reference to give up. */
  lemma OnlyReleases<E>(j: Joint<E>, id: nat)
    requires Inv(j) && (forall t | t in j.fleet.threads :: t.pc.Finished?)
    requires id in j.table.calls && Locks.Interested(j.table.calls[id])
    ensures j.table.calls[id].GivingUp? || j.table.calls[id].Returning?
  {
    var i := id / 2;
    OtherCalls(i, i);
    assert CallOk(j, id);
    assert id == if id % 2 == 0 then HomeCall(i) else ObjectCall(i);
    assert Placed(j, i) && Tied(j, i) && j.fleet.threads[i] in j.fleet.threads;
    assert Fleet.ThreadOk(j.fleet, i);
    var k := if id % 2 == 0 then Fleet.HomeKey else j.fleet.threads[i].op.Key();
    assert Fleet.OwnerOk(j.fleet, k);
  }

  /** Some goroutine is unfinished, or some call. */
  ghost predicate Unfinished<E>(j: Joint<E>) {
    || (exists t :: t in j.fleet.threads && !t.pc.Finished?)
    || (exists id :: id in j.table.calls && Locks.Interested(j.table.calls[id]))
  }

  /** What an unfinished state can do, given an entry that was never used. */
  lemma Moves<E>(j: Joint<E>, e: E) returns (ev: Event<E>)
    requires Inv(j) && Unfinished(j) && e !in j.table.table.cells
    ensures Enabled(j, ev) && !Cancels(ev) && Left(Step(j, ev)) < Left(j)
  {
    if i: nat :| i < |j.fleet.threads| && !j.fleet.threads[i].pc.Finished? {
      ev := GoroutineMoves(j, i, e);
    } else {
      assert forall t | t in j.fleet.threads :: t.pc.Finished?;
      var id :| id in j.table.calls && Locks.Interested(j.table.calls[id]);
      OnlyReleases(j, id);
      ev := ReleaseMoves(j, id);
    }
    StepDrops(j, ev);
  }

  // ---------------------------------------------------------------------
  // Every run from the start
  // ---------------------------------------------------------------------

  lemma {:induction false} RunKeeps<E>(j: Joint<E>, trace: seq<Event<E>>)
    requires Inv(j) && Runs(j, trace)
    ensures Inv(After(j, trace))
    decreases |trace|
  {
    if trace != [] {
      StepKeeps(j, trace[0]);
      RunKeeps(Step(j, trace[0]), trace[1..]);
    }
  }

  lemma StartsPlaced<E>(ops: seq<Fleet.Op>, w: Lima.World)
    ensures Inv(Start<E>(ops, w))
  {
    StartInv<E>(ops, w);
  }

  lemma Reached<E>(ops: seq<Fleet.Op>, w: Lima.World, trace: seq<Event<E>>)
    requires Runs(Start<E>(ops, w), trace)
    ensures Inv(After(Start<E>(ops, w), trace))
  {
    StartsPlaced<E>(ops, w);
    RunKeeps(Start<E>(ops, w), trace);
  }

  /** No deadlock over the lock table: as long as any goroutine or any Lock call
      is unfinished, something can happen, without anybody's context being
      cancelled, that brings the whole closer to its end. */
  lemma NoDeadlock<E>(ops: seq<Fleet.Op>, w: Lima.World, trace: seq<Event<E>>, e: E) returns (ev: Event<E>)
    requires Runs(Start<E>(ops, w), trace) && Unfinished(After(Start<E>(ops, w), trace))
    requires e !in After(Start<E>(ops, w), trace).table.table.cells
    ensures var j := After(Start<E>(ops, w), trace);
      Enabled(j, ev) && !Cancels(ev) && Left(Step(j, ev)) < Left(j)
  {
    Reached(ops, w, trace);
    ev := Moves(After(Start<E>(ops, w), trace), e);
  }

  /** The steps of a run, repeated unlocks aside. */
  function Steps<E>(trace: seq<Event<E>>): nat {
    if trace == [] then 0 else (if Repeats(trace[0]) then 0 else 1) + Steps(trace[1..])
  }

  lemma {:induction false} StepsArePaidFor<E>(j: Joint<E>, trace: seq<Event<E>>)
    requires Inv(j) && Runs(j, trace)
    ensures Steps(trace) + Left(After(j, trace)) <= Left(j)
    decreases |trace|
  {
    if trace != [] {
      StepDrops(j, trace[0]);
      StepKeeps(j, trace[0]);
      StepsArePaidFor(Step(j, trace[0]), trace[1..]);
    }
  }

  lemma {:induction false} NoCallsYet<E>(s: Locks.State<E>, n: nat)
    requires s.calls == map[]
    ensures CallsLeft(s, n) == 2 * n
  {
    if n > 0 { NoCallsYet(s, n - 1); }
  }

  /** Every run over the table ends: apart from unlock functions that are run
      again, n operations take at most 25 n steps, of goroutines and of the table
      together. */
  lemma EveryRunEnds<E>(ops: seq<Fleet.Op>, w: Lima.World, trace: seq<Event<E>>)
    requires Runs(Start<E>(ops, w), trace)
    ensures Steps(trace) <= 25 * |ops|
  {
    StartsPlaced<E>(ops, w);
    StepsArePaidFor(Start<E>(ops, w), trace);
    NoCallsYet(Start<E>(ops, w).table, 2 * |ops|);
    Fleet.StartRank(Start<E>(ops, w).fleet.threads);
  }

  /** Where it ends the lock map is empty and nobody owns a key: it is enough that
      all goroutines have finished and no reference is still to be given up. */
  lemma NothingLeft<E>(ops: seq<Fleet.Op>, w: Lima.World, trace: seq<Event<E>>)
    requires Runs(Start<E>(ops, w), trace)
    requires var j := After(Start<E>(ops, w), trace);
      && (forall t | t in j.fleet.threads :: t.pc.Finished?)
      && (forall id | id in j.table.calls :: !j.table.calls[id].GivingUp? && !j.table.calls[id].Returning?)
    ensures var j := After(Start<E>(ops, w), trace);
      j.table.table.locks == map[] && j.fleet.owner == map[] && !Unfinished(j)
  {
    var j := After(Start<E>(ops, w), trace);
    Reached(ops, w, trace);
    forall id | id in j.table.calls ensures !Locks.Interested(j.table.calls[id]) {
      if Locks.Interested(j.table.calls[id]) { OnlyReleases(j, id); }
    }
    forall key | key in j.table.table.locks ensures false { Locks.Wanted(j.table, key); }
    Refines(ops, w, trace);
    Fleet.AllLocksReturned(ops, w, Acts(trace));
  }
}
