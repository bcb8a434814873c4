// The operations of Fleet over the lock table of Locks: goroutines that take
// and give up locks by the table's own steps instead of by an owner map.

module Composition {
  import Locks
  import Fleet
  import Lima

  /** `fleet.owner` is carried along and never asked: what a goroutine may do
      about locks is up to the table. */
  datatype Joint<!E(==)> = Joint(table: Locks.State<E>, fleet: Fleet.State)

  /** A step of the table alone, or one of a goroutine together with the step of
      the table it consists of, if any. */
  datatype Event<E> =
    | Inner(lock: Locks.Event<E>)
    | Act(act: Fleet.Event, with: Locks.Event<E>)
    | Plain(act: Fleet.Event)

  // A goroutine calls Lock at most once for the home and once for its object.

  function HomeCall(i: nat): nat { 2 * i }

  function ObjectCall(i: nat): nat { 2 * i + 1 }

  function KeyOfCall(f: Fleet.State, id: nat): string
    requires id / 2 < |f.threads|
  {
    Fleet.KeyString(if id % 2 == 0 then Fleet.HomeKey else f.threads[id / 2].op.Key())
  }

  /** The goroutine is about to take the lock the call is for. */
  predicate AtLock(f: Fleet.State, id: nat) {
    id / 2 < |f.threads|
    && if id % 2 == 0 then f.threads[id / 2].pc.WaitHome? else f.threads[id / 2].pc.WaitObject?
  }

  /** Registering, and giving up a reference, are not visible to the goroutines;
      neither is running an unlock function again. */
  ghost predicate InnerOk<E>(j: Joint<E>, l: Locks.Event<E>) {
    match l
    case Register(id, key, _) => AtLock(j.fleet, id) && key == KeyOfCall(j.fleet, id)
    case Release(_) => true
    case Unlock(id) => id in j.table.calls && !j.table.calls[id].Owning?
    case _ => false
  }

  predicate UsesLock(pc: Fleet.Pc) {
    pc.WaitHome? || pc.WaitObject? || pc.DropHome? || pc.UnlockHome? || pc.Unlock?
  }

  /** Taking the token, or leaving the wait, before or after registering. */
  ghost predicate Takes<E>(id: nat, c: Fleet.Choice, l: Locks.Event<E>) {
    if c.Go? then l == Locks.Receive(id) else l == Locks.Refuse(id) || l == Locks.Cancel(id)
  }

  /** The step of the table that a goroutine's step is. */
  ghost predicate Fits<E>(t: Fleet.Thread, i: nat, c: Fleet.Choice, l: Locks.Event<E>) {
    match t.pc
    case WaitHome => Takes(HomeCall(i), c, l)
    case WaitObject => Takes(ObjectCall(i), c, l)
    case DropHome => l == Locks.Unlock(HomeCall(i))
    case UnlockHome => l == Locks.Unlock(HomeCall(i))
    case Unlock => l == Locks.Unlock(ObjectCall(i))
    case _ => false
  }

  ghost predicate Enabled<E>(j: Joint<E>, ev: Event<E>) {
    if ev.Inner? then Locks.Enabled(j.table, ev.lock) && InnerOk(j, ev.lock)
    else
      && ev.act.thread < |j.fleet.threads|
      && var t := j.fleet.threads[ev.act.thread];
         && Fleet.Open(t, ev.act.choice, j.fleet.world)
         && (if ev.Act? then Fits(t, ev.act.thread, ev.act.choice, ev.with) && Locks.Enabled(j.table, ev.with)
             else !UsesLock(t.pc))
  }

  ghost function Step<E>(j: Joint<E>, ev: Event<E>): Joint<E>
    requires Enabled(j, ev)
  {
    match ev
    case Inner(l) => j.(table := Locks.Step(j.table, l))
    case Act(f, l) => Joint(Locks.Step(j.table, l), Fleet.Step(j.fleet, f))
    case Plain(f) => j.(fleet := Fleet.Step(j.fleet, f))
  }

  ghost predicate Runs<E>(j: Joint<E>, trace: seq<Event<E>>)
    decreases |trace|
  {
    trace == [] || (Enabled(j, trace[0]) && Runs(Step(j, trace[0]), trace[1..]))
  }

  ghost function After<E>(j: Joint<E>, trace: seq<Event<E>>): Joint<E>
    requires Runs(j, trace)
    decreases |trace|
  {
    if trace == [] then j else After(Step(j, trace[0]), trace[1..])
  }

  /** What the goroutines did. */
  function Acts<E>(trace: seq<Event<E>>): seq<Fleet.Event>
    decreases |trace|
  {
    if trace == [] then []
    else if trace[0].Inner? then Acts(trace[1..])
    else [trace[0].act] + Acts(trace[1..])
  }

  // ---------------------------------------------------------------------
  // The table keeps what the owner map says
  // ---------------------------------------------------------------------

  ghost predicate Owns<E>(s: Locks.State<E>, id: nat) { id in s.calls && s.calls[id].Owning? }

  /** A live call is for the key its goroutine takes it for. */
  ghost predicate CallOk<E>(j: Joint<E>, id: nat) {
    id in j.table.calls && !j.table.calls[id].Finished? ==>
      id / 2 < |j.fleet.threads| && j.table.calls[id].key == KeyOfCall(j.fleet, id)
  }

  /** A goroutine's call owns its key exactly when the map names the goroutine. */
  ghost predicate TiedCall<E>(j: Joint<E>, i: nat, id: nat, k: Fleet.Key) {
    Owns(j.table, id) <==> k in j.fleet.owner && j.fleet.owner[k] == i
  }

  ghost predicate Tied<E>(j: Joint<E>, i: nat)
    requires i < |j.fleet.threads|
  {
    TiedCall(j, i, HomeCall(i), Fleet.HomeKey) && TiedCall(j, i, ObjectCall(i), j.fleet.threads[i].op.Key())
  }

  ghost predicate Inv<E>(j: Joint<E>) {
    && Locks.Inv(j.table) && Fleet.Inv(j.fleet)
    && (forall id :: CallOk(j, id))
    && (forall i: nat | i < |j.fleet.threads| :: Tied(j, i))
  }

  lemma OtherCalls(i: nat, m: nat)
    ensures HomeCall(i) / 2 == i && HomeCall(i) % 2 == 0 && ObjectCall(i) / 2 == i && ObjectCall(i) % 2 == 1
    ensures HomeCall(i) != ObjectCall(m) && (i != m ==> HomeCall(i) != HomeCall(m) && ObjectCall(i) != ObjectCall(m))
  {
  }

  /** A key with an owner in the map is owned in the table. */
  lemma OwnerOwns<E>(j: Joint<E>, k: Fleet.Key) returns (id: nat)
    requires Inv(j) && k in j.fleet.owner
    ensures Owns(j.table, id) && j.table.calls[id].key == Fleet.KeyString(k)
  {
    assert Fleet.OwnerOk(j.fleet, k);
    var m := j.fleet.owner[k];
    id := if k == Fleet.HomeKey then HomeCall(m) else ObjectCall(m);
    OtherCalls(m, m);
    assert Tied(j, m) && CallOk(j, id);
  }

  /** A goroutine takes a key from the table only when the map has no owner for
      it. */
  lemma TakenWhenFree<E>(j: Joint<E>, id: nat, k: Fleet.Key)
    requires Inv(j) && Locks.Enabled(j.table, Locks.Receive(id))
    requires id / 2 < |j.fleet.threads|
    requires k == if id % 2 == 0 then Fleet.HomeKey else j.fleet.threads[id / 2].op.Key()
    ensures k !in j.fleet.owner
  {
    assert CallOk(j, id);
    Locks.AcquirableWhenFree(j.table, id);
    if k in j.fleet.owner { var other := OwnerOwns(j, k); }
  }

  /** What a goroutine's step asks of the owner map is true. */
  lemma ActEnabled<E>(j: Joint<E>, ev: Event<E>)
    requires Inv(j) && Enabled(j, ev) && !ev.Inner?
    ensures Fleet.Enabled(j.fleet, ev.act)
  {
    var i := ev.act.thread;
    var t := j.fleet.threads[i];
    OtherCalls(i, i);
    if ev.Act? && ev.act.choice.Go? {
      if t.pc.WaitHome? {
        TakenWhenFree(j, HomeCall(i), Fleet.HomeKey);
      } else if t.pc.WaitObject? {
        TakenWhenFree(j, ObjectCall(i), t.op.Key());
      }
    }
  }

  /** Only receiving and unlocking change who owns. */
  lemma OwnsStep<E>(s: Locks.State<E>, l: Locks.Event<E>, id: nat)
    requires Locks.Enabled(s, l)
    ensures Owns(Locks.Step(s, l), id) <==>
            (l.Receive? && l.id == id) || (Owns(s, id) && !(l.Unlock? && l.id == id))
  {
  }

  /** A call stays with its key, and a new one is for the key at hand. */
  lemma CallStep<E>(j: Joint<E>, f: Fleet.State, l: Locks.Event<E>, id: nat)
    requires Locks.Enabled(j.table, l) && CallOk(j, id)
    requires |f.threads| == |j.fleet.threads|
    requires forall i | 0 <= i < |f.threads| :: f.threads[i].op == j.fleet.threads[i].op
    requires l.Register? ==> l.id / 2 < |j.fleet.threads| && l.key == KeyOfCall(j.fleet, l.id)
    ensures CallOk(Joint(Locks.Step(j.table, l), f), id)
  {
  }

  lemma InnerKeeps<E>(j: Joint<E>, ev: Event<E>)
    requires Inv(j) && Enabled(j, ev) && ev.Inner?
    ensures Inv(Step(j, ev))
  {
    var j' := Step(j, ev);
    Locks.StepKeeps(j.table, ev.lock);
    forall id ensures CallOk(j', id) {
      assert CallOk(j, id);
      CallStep(j, j.fleet, ev.lock, id);
    }
    forall i: nat | i < |j.fleet.threads| ensures Tied(j', i) {
      assert Tied(j, i);
      OwnsStep(j.table, ev.lock, HomeCall(i));
      OwnsStep(j.table, ev.lock, ObjectCall(i));
    }
  }

  lemma PlainKeeps<E>(j: Joint<E>, ev: Event<E>)
    requires Inv(j) && Enabled(j, ev) && ev.Plain?
    ensures Inv(Step(j, ev))
  {
    var j' := Step(j, ev);
    ActEnabled(j, ev);
    Fleet.StepKeeps(j.fleet, ev.act);
    OpStays(j.fleet, ev.act);
    forall id ensures CallOk(j', id) { assert CallOk(j, id); }
    forall i: nat | i < |j.fleet.threads| ensures Tied(j', i) { assert Tied(j, i); }
  }

  lemma OpStays(f: Fleet.State, ev: Fleet.Event)
    requires Fleet.Enabled(f, ev)
    ensures |Fleet.Step(f, ev).threads| == |f.threads|
    ensures forall i | 0 <= i < |f.threads| :: Fleet.Step(f, ev).threads[i].op == f.threads[i].op
  {
    Fleet.AdvanceHolds(f.threads[ev.thread], ev.choice, f.world, f.ready);
  }

  lemma ActKeeps<E>(j: Joint<E>, ev: Event<E>)
    requires Inv(j) && Enabled(j, ev) && ev.Act?
    ensures Inv(Step(j, ev))
  {
    var j' := Step(j, ev);
    ActEnabled(j, ev);
    Fleet.StepKeeps(j.fleet, ev.act);
    Locks.StepKeeps(j.table, ev.with);
    OpStays(j.fleet, ev.act);
    assert !ev.with.Register?;
    forall id ensures CallOk(j', id) {
      assert CallOk(j, id);
      CallStep(j, j'.fleet, ev.with, id);
    }
    forall m: nat | m < |j.fleet.threads| ensures Tied(j', m) {
      HomeTie(j, ev, m);
      ObjectTie(j, ev, m);
    }
  }

  /** A goroutine's step takes and gives up locks for its own calls alone. */
  lemma OthersTie<E>(j: Joint<E>, ev: Event<E>, m: nat)
    requires Inv(j) && Enabled(j, ev) && ev.Act? && m < |j.fleet.threads| && m != ev.act.thread
    ensures Owns(Step(j, ev).table, HomeCall(m)) == Owns(j.table, HomeCall(m))
    ensures Owns(Step(j, ev).table, ObjectCall(m)) == Owns(j.table, ObjectCall(m))
  {
    OtherCalls(ev.act.thread, m);
    OtherCalls(m, ev.act.thread);
    OwnsStep(j.table, ev.with, HomeCall(m));
    OwnsStep(j.table, ev.with, ObjectCall(m));
  }

  lemma HomeTie<E>(j: Joint<E>, ev: Event<E>, m: nat)
    requires Inv(j) && Enabled(j, ev) && ev.Act? && Fleet.Enabled(j.fleet, ev.act) && m < |j.fleet.threads|
    ensures TiedCall(Step(j, ev), m, HomeCall(m), Fleet.HomeKey)
  {
    var i := ev.act.thread;
    assert Fleet.ThreadOk(j.fleet, i) && Fleet.HolderOk(j.fleet, i, Fleet.HomeKey);
    if i != m {
      assert Tied(j, m);
      OthersTie(j, ev, m);
    } else {
      OwnHomeTie(j, ev);
    }
  }

  lemma OwnHomeTie<E>(j: Joint<E>, ev: Event<E>)
    requires Inv(j) && Enabled(j, ev) && ev.Act? && Fleet.Enabled(j.fleet, ev.act)
    ensures var i := ev.act.thread; TiedCall(Step(j, ev), i, HomeCall(i), Fleet.HomeKey)
  {
    var i := ev.act.thread;
    assert Tied(j, i) && Fleet.ThreadOk(j.fleet, i);
    OtherCalls(i, i);
    OwnsStep(j.table, ev.with, HomeCall(i));
  }

  lemma ObjectTie<E>(j: Joint<E>, ev: Event<E>, m: nat)
    requires Inv(j) && Enabled(j, ev) && ev.Act? && Fleet.Enabled(j.fleet, ev.act) && m < |j.fleet.threads|
    ensures TiedCall(Step(j, ev), m, ObjectCall(m), j.fleet.threads[m].op.Key())
  {
    var i := ev.act.thread;
    assert Fleet.HolderOk(j.fleet, i, j.fleet.threads[i].op.Key());
    if i != m {
      assert Tied(j, m);
      OthersTie(j, ev, m);
    } else {
      OwnObjectTie(j, ev);
    }
  }

  lemma OwnObjectTie<E>(j: Joint<E>, ev: Event<E>)
    requires Inv(j) && Enabled(j, ev) && ev.Act? && Fleet.Enabled(j.fleet, ev.act)
    ensures var i := ev.act.thread; TiedCall(Step(j, ev), i, ObjectCall(i), j.fleet.threads[i].op.Key())
  {
    var i := ev.act.thread;
    assert Tied(j, i);
    OtherCalls(i, i);
    OwnsStep(j.table, ev.with, ObjectCall(i));
  }

  lemma StepKeeps<E>(j: Joint<E>, ev: Event<E>)
    requires Inv(j) && Enabled(j, ev)
    ensures Inv(Step(j, ev))
  {
    if ev.Inner? {
      InnerKeeps(j, ev);
    } else if ev.Plain? {
      PlainKeeps(j, ev);
    } else {
      ActKeeps(j, ev);
    }
  }

  /** Conversely the table never holds up what the owner map allows: a lock is
      given back at once, and a key without an owner is there for any goroutine
      that has registered for it. */
  lemma TableAllows<E>(j: Joint<E>, act: Fleet.Event) returns (l: Locks.Event<E>)
    requires Inv(j) && Fleet.Enabled(j.fleet, act) && act.choice.Go? && UsesLock(j.fleet.threads[act.thread].pc)
    requires var pc, i := j.fleet.threads[act.thread].pc, act.thread;
      && (pc.WaitHome? ==> Registered(j, HomeCall(i)))
      && (pc.WaitObject? ==> Registered(j, ObjectCall(i)))
    ensures Enabled(j, Act(act, l))
  {
    var i := act.thread;
    var t := j.fleet.threads[i];
    var id := if t.pc.WaitHome? || t.pc.DropHome? || t.pc.UnlockHome? then HomeCall(i) else ObjectCall(i);
    OtherCalls(i, i);
    assert Tied(j, i) && CallOk(j, id);
    if t.pc.WaitHome? || t.pc.WaitObject? {
      l := Locks.Receive(id);
      FreeWhenUnowned(j, if t.pc.WaitHome? then Fleet.HomeKey else t.op.Key());
      Locks.AcquirableWhenFree(j.table, id);
    } else {
      l := Locks.Unlock(id);
      assert Fleet.ThreadOk(j.fleet, i);
      assert Fleet.HolderOk(j.fleet, i, Fleet.HomeKey) && Fleet.HolderOk(j.fleet, i, t.op.Key());
      Locks.ReturnableWhenOwned(j.table, id);
    }
  }

  ghost predicate Registered<E>(j: Joint<E>, id: nat) { id in j.table.calls && j.table.calls[id].Waiting? }

  lemma FreeWhenUnowned<E>(j: Joint<E>, k: Fleet.Key)
    requires Inv(j) && k !in j.fleet.owner
    ensures Locks.Free(j.table, Fleet.KeyString(k))
  {
    forall id | Owns(j.table, id) ensures j.table.calls[id].key != Fleet.KeyString(k) {
      var m := id / 2;
      OtherCalls(m, m);
      assert CallOk(j, id) && Tied(j, m);
      assert id == if id % 2 == 0 then HomeCall(m) else ObjectCall(m);
      if j.table.calls[id].key == Fleet.KeyString(k) {
        Fleet.KeysDoNotCollide(if id % 2 == 0 then Fleet.HomeKey else j.fleet.threads[m].op.Key(), k);
      }
    }
  }

  ghost function Start<E>(ops: seq<Fleet.Op>, w: Lima.World): Joint<E> {
    Joint(Locks.Start<E>(), Fleet.Start(ops, w))
  }

  lemma StartInv<E>(ops: seq<Fleet.Op>, w: Lima.World)
    ensures Inv(Start<E>(ops, w))
  {
    Locks.StartInv<E>();
    Fleet.Reached(ops, w, []);
  }

  /** Every run over the lock table is a run over the owner map, with the same
      steps of the goroutines and the same outcome: whatever Fleet excludes cannot
      happen with the real lock.  That something can happen with it, and that it
      comes to an end, is for Progress to show. */
  lemma {:induction false} RunRefines<E>(j: Joint<E>, trace: seq<Event<E>>)
    requires Inv(j) && Runs(j, trace)
    ensures Fleet.Runs(j.fleet, Acts(trace)) && After(j, trace).fleet == Fleet.After(j.fleet, Acts(trace))
    ensures Inv(After(j, trace))
    decreases |trace|
  {
    if trace != [] {
      StepKeeps(j, trace[0]);
      RunRefines(Step(j, trace[0]), trace[1..]);
      if !trace[0].Inner? {
        ActEnabled(j, trace[0]);
        assert Acts(trace)[1..] == Acts(trace[1..]);
      }
    }
  }

  /** From the start, for any operations on any home. */
  lemma Refines<E>(ops: seq<Fleet.Op>, w: Lima.World, trace: seq<Event<E>>)
    requires Runs(Start<E>(ops, w), trace)
    ensures Fleet.Runs(Fleet.Start(ops, w), Acts(trace))
    ensures After(Start<E>(ops, w), trace).fleet == Fleet.After(Fleet.Start(ops, w), Acts(trace))
  {
    StartInv<E>(ops, w);
    RunRefines(Start<E>(ops, w), trace);
  }
}
