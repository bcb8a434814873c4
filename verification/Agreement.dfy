// A resize among other goroutines and a resize on its own: what Fleet lets a
// resizing goroutine do is what the contract of Lifecycle.Service.Resize allows
// one caller, counted from the instance as it was when the lock was taken.

module Agreement {
  import opened Values
  import opened Lima
  import opened Reconcile
  import opened Fleet
  import opened Lifecycle

  /** The commands goroutine i issued, with their outcome. */
  function Issued(s: State, trace: seq<Event>, i: nat): seq<Call>
    requires Runs(s, trace) && i < |s.threads|
    decreases |trace|
  {
    if trace == [] then [] else IssuedBy(s, trace[0], i) + Issued(Step(s, trace[0]), trace[1..], i)
  }

  function IssuedBy(s: State, ev: Event, i: nat): seq<Call>
    requires Enabled(s, ev) && i < |s.threads|
  {
    var t := s.threads[i];
    if ev.thread == i && t.pc.InFlight? then [Call(t.pc.command, ev.choice.Go?)] else []
  }

  /** The instance when the lock was taken. */
  datatype Past = NotYet | Was(inst: Option<Instance>)

  function PastAfter(s: State, ev: Event, i: nat, past: Past): Past
    requires Enabled(s, ev) && i < |s.threads|
  {
    var t := s.threads[i];
    if ev.thread == i && t.pc.WaitObject? && ev.choice.Go? then Was(Look(s.world, t.op.name)) else past
  }

  /** What goroutine i found when it took the lock, if it has. */
  function Found(s: State, trace: seq<Event>, i: nat, past: Past): Past
    requires Runs(s, trace) && i < |s.threads|
    decreases |trace|
  {
    if trace == [] then past else Found(Step(s, trace[0]), trace[1..], i, PastAfter(s, trace[0], i, past))
  }

  function Stops(n: string, inst: Instance): seq<Call> {
    if inst.status.Running? then [Call(Stop(n), true)] else []
  }

  predicate HasEdit(calls: seq<Call>) { exists c | c in calls :: c.command.Edit? && c.ok }

  /** The edit went through exactly when one is reported to have. */
  predicate Told(inst: Instance, plan: EditRequest, calls: seq<Call>, now: Instance) {
    && now.protected == inst.protected
    && if HasEdit(calls) then Edited(inst.config, plan, now.config) else now.config == inst.config
  }

  /** No edit, or the edit done, and a start next. */
  predicate StartNext(t: Thread, inst: Instance, plan: EditRequest, calls: seq<Call>) {
    && t.op.OpResize? && t.op.p.running && t.plan.None?
    && calls == if plan.IsEmpty() then [] else Stops(t.op.name, inst) + [Call(Edit(t.op.name, plan), true)]
  }

  /** A stop next: for its own sake, or before an edit. */
  predicate StopNext(t: Thread, inst: Instance, plan: EditRequest) {
    && t.op.OpResize?
    && if t.plan.None? then plan.IsEmpty() && !t.op.p.running
       else t.plan == Some(plan) && !plan.IsEmpty() && inst.status.Running?
  }

  /** How far a resizing goroutine is, under its lock. */
  predicate Follows(t: Thread, inst: Instance, calls: seq<Call>, now: Option<Instance>)
    requires t.op.OpResize?
  {
    var n, plan := t.op.name, PlanEdit(t.op.p, inst.config);
    && now.Some? && Told(inst, plan, calls, now.value)
    && match t.pc
       case Observe => calls == [] && now.value == inst && t.plan.None?
       case ObserveStop => calls == [] && now.value == inst && StopNext(t, inst, plan)
       case SettleStopped => calls == [Call(Stop(n), true)] && StopNext(t, inst, plan)
       case ObserveStart => StartNext(t, inst, plan, calls) && (plan.IsEmpty() ==> now.value == inst)
       case InFlight(Stop(_)) => calls == [] && now.value == inst && StopNext(t, inst, plan)
       case InFlight(Edit(_, e)) => calls == Stops(n, inst) && t.plan == Some(plan) && e == plan && !plan.IsEmpty()
       case InFlight(Start(_)) => StartNext(t, inst, plan, calls) && (plan.IsEmpty() ==> now.value == inst)
       case CheckDegraded => t.plan.None?
       case SettleStarted => t.plan.None?
       case Unlock => true
       case _ => false
  }

  predicate Tracked(t: Thread, w: World, past: Past, calls: seq<Call>)
    requires t.op.OpResize?
  {
    && (Before(t.pc) ==> past.NotYet? && t.pc.WaitObject?)
    && match past
       case NotYet => calls == [] && (t.pc.WaitObject? || t.pc.Finished?)
       case Was(None) =>
         && calls == [] && (t.pc.Observe? || t.pc.ObserveStart? || t.pc.ObserveStop? || t.pc.Unlock? || t.pc.Finished?)
         && (Inside(t.pc) ==> Look(w, t.op.name) == None)
       case Was(Some(inst)) =>
         && ResizeCalls(t.op.name, inst.status, PlanEdit(t.op.p, inst.config), t.op.p.running, calls)
         && (t.pc.Finished? || Inside(t.pc))
         && (Inside(t.pc) ==> Follows(t, inst, calls, Look(w, t.op.name)))
  }

  /** Taking and giving back the lock. */
  lemma LockTracks(t: Thread, c: Choice, w: World, ready: bool, born: set<string>, past: Past)
    requires t.op.OpResize? && t.pc.WaitObject? && GateOk(ready, born, t) && Tracked(t, w, past, [])
    ensures Tracked(Advance(t, c, w, ready), w, if c.Cancel? then past else Was(Look(w, t.op.name)), [])
  {
  }

  /** A read. */
  lemma ReadTracks(t: Thread, w: World, born: set<string>, ok: bool, past: Past, calls: seq<Call>)
    requires t.op.OpResize? && Reads(t.pc) && FactsOk(w, born, t) && Tracked(t, w, past, calls)
    ensures Tracked(Observed(t, w, ok), w, past, calls)
  {
    if ok && t.pc.Observe? {
      DecideTracks(t, w, past, calls);
    } else if past.Was? && past.inst.Some? {
      LookTracks(t, w, born, ok, past, calls);
    }
  }

  /** The first read decides what to do. */
  lemma DecideTracks(t: Thread, w: World, past: Past, calls: seq<Call>)
    requires t.op.OpResize? && t.pc.Observe? && Tracked(t, w, past, calls)
    ensures Tracked(Decide(t, w), w, past, calls)
  {
  }

  lemma LookTracks(t: Thread, w: World, born: set<string>, ok: bool, past: Past, calls: seq<Call>)
    requires t.op.OpResize? && Reads(t.pc) && (ok ==> !t.pc.Observe?)
    requires FactsOk(w, born, t) && Tracked(t, w, past, calls) && past.Was? && past.inst.Some?
    ensures Tracked(Observed(t, w, ok), w, past, calls)
  {
    if t.pc.ObserveStop? || t.pc.SettleStopped? {
      StopLookTracks(t, w, born, ok, past, calls);
    } else {
      StartLookTracks(t, w, born, ok, past, calls);
    }
  }

  lemma StopLookTracks(t: Thread, w: World, born: set<string>, ok: bool, past: Past, calls: seq<Call>)
    requires t.op.OpResize? && (t.pc.ObserveStop? || t.pc.SettleStopped?)
    requires FactsOk(w, born, t) && Tracked(t, w, past, calls) && past.Was? && past.inst.Some?
    ensures Tracked(Observed(t, w, ok), w, past, calls)
  {
  }

  lemma StartLookTracks(t: Thread, w: World, born: set<string>, ok: bool, past: Past, calls: seq<Call>)
    requires t.op.OpResize? && Reads(t.pc) && (ok ==> !t.pc.Observe?) && !t.pc.ObserveStop? && !t.pc.SettleStopped?
    requires FactsOk(w, born, t) && Tracked(t, w, past, calls) && past.Was? && past.inst.Some?
    ensures Tracked(Observed(t, w, ok), w, past, calls)
  {
  }

  /** A stop. */
  lemma StopTracks(t: Thread, w: World, w': World, born: set<string>, ok: bool, past: Past, calls: seq<Call>)
    requires t.op.OpResize? && t.pc.InFlight? && t.pc.command.Stop?
    requires FactsOk(w, born, t) && Tracked(t, w, past, calls)
    requires if ok then Succeeds(t.pc.command, w, w') else Fails(t.pc.command, w, w')
    ensures Tracked(Returned(t, ok), w', past, calls + [Call(t.pc.command, ok)])
  {
  }

  /** The edit. */
  lemma EditTracks(t: Thread, w: World, w': World, born: set<string>, ok: bool, past: Past, calls: seq<Call>)
    requires t.op.OpResize? && t.pc.InFlight? && t.pc.command.Edit?
    requires FactsOk(w, born, t) && Tracked(t, w, past, calls)
    requires if ok then Succeeds(t.pc.command, w, w') else Fails(t.pc.command, w, w')
    ensures Tracked(Returned(t, ok), w', past, calls + [Call(t.pc.command, ok)])
  {
    EditedOnce(calls, Call(t.pc.command, ok));
  }

  /** A start. */
  lemma StartTracks(t: Thread, w: World, w': World, born: set<string>, ok: bool, past: Past, calls: seq<Call>)
    requires t.op.OpResize? && t.pc.InFlight? && t.pc.command.Start?
    requires FactsOk(w, born, t) && Tracked(t, w, past, calls)
    requires if ok then Succeeds(t.pc.command, w, w') else Fails(t.pc.command, w, w')
    ensures Tracked(Returned(t, ok), w', past, calls + [Call(t.pc.command, ok)])
  {
    EditedOnce(calls, Call(t.pc.command, ok));
  }

  lemma EditedOnce(calls: seq<Call>, c: Call)
    ensures HasEdit(calls + [c]) <==> HasEdit(calls) || (c.command.Edit? && c.ok)
  {
    assert c in calls + [c];
    assert forall x | x in calls :: x in calls + [c];
    assert forall x | x in calls + [c] :: x in calls || x == c;
  }

  lemma CommandTracks(t: Thread, w: World, w': World, born: set<string>, ok: bool, past: Past, calls: seq<Call>)
    requires t.op.OpResize? && t.pc.InFlight? && FactsOk(w, born, t) && Tracked(t, w, past, calls)
    requires if ok then Succeeds(t.pc.command, w, w') else Fails(t.pc.command, w, w')
    ensures Tracked(Returned(t, ok), w', past, calls + [Call(t.pc.command, ok)])
  {
    if t.pc.command.Stop? {
      StopTracks(t, w, w', born, ok, past, calls);
    } else if t.pc.command.Edit? {
      EditTracks(t, w, w', born, ok, past, calls);
    } else {
      StartTracks(t, w, w', born, ok, past, calls);
    }
  }

  /** Steps of others change nothing about it. */
  lemma OthersLeave(s: State, ev: Event, i: nat, past: Past, calls: seq<Call>)
    requires Fleet.Inv(s) && Enabled(s, ev) && i < |s.threads| && ev.thread != i && s.threads[i].op.OpResize?
    requires Tracked(s.threads[i], s.world, past, calls)
    ensures Step(s, ev).threads[i] == s.threads[i] && Tracked(s.threads[i], Step(s, ev).world, past, calls)
  {
    OthersKeep(s, ev, i);
    if Inside(s.threads[i].pc) {
      OneStep(s, ev);
      ObjectStable(s, [ev], i);
    }
  }

  lemma OneStep(s: State, ev: Event)
    requires Enabled(s, ev)
    ensures Runs(s, [ev]) && After(s, [ev]) == Step(s, ev)
  {
    assert [ev][1..] == [];
    assert Runs(Step(s, ev), []) && After(Step(s, ev), []) == Step(s, ev);
  }

  lemma TrackedStep(s: State, ev: Event, i: nat, past: Past, calls: seq<Call>)
    requires Fleet.Inv(s) && Enabled(s, ev) && i < |s.threads| && s.threads[i].op.OpResize?
    requires Tracked(s.threads[i], s.world, past, calls)
    ensures var s' := Step(s, ev);
      i < |s'.threads| && s'.threads[i].op == s.threads[i].op
      && Tracked(s'.threads[i], s'.world, PastAfter(s, ev, i, past), calls + IssuedBy(s, ev, i))
  {
    var t := s.threads[i];
    assert ThreadOk(s, i);
    if ev.thread != i {
      OthersLeave(s, ev, i, past, calls);
      assert calls + [] == calls;
    } else {
      AdvanceHolds(t, ev.choice, s.world, s.ready);
      OwnStep(s, ev, past, calls);
    }
  }

  lemma OwnStep(s: State, ev: Event, past: Past, calls: seq<Call>)
    requires Enabled(s, ev) && ThreadOk(s, ev.thread) && s.threads[ev.thread].op.OpResize?
    requires Tracked(s.threads[ev.thread], s.world, past, calls)
    requires Advance(s.threads[ev.thread], ev.choice, s.world, s.ready).op == s.threads[ev.thread].op
    ensures var s', i := Step(s, ev), ev.thread;
      Tracked(s'.threads[i], s'.world, PastAfter(s, ev, i, past), calls + IssuedBy(s, ev, i))
  {
    var t := s.threads[ev.thread];
    assert calls + [] == calls;
    if t.pc.InFlight? {
      CommandTracks(t, s.world, ev.choice.world, s.born, ev.choice.Go?, past, calls);
    } else if Reads(t.pc) {
      ReadTracks(t, s.world, s.born, ev.choice.Go?, past, calls);
    } else if t.pc.WaitObject? {
      LockTracks(t, ev.choice, s.world, s.ready, s.born, past);
    }
  }

  /** A run is its first step and the rest. */
  lemma FirstStep(s: State, trace: seq<Event>, i: nat, past: Past, calls: seq<Call>)
    requires trace != [] && Runs(s, trace) && i < |s.threads|
    ensures var ev, rest := trace[0], trace[1..];
      && After(s, trace) == After(Step(s, ev), rest)
      && Found(s, trace, i, past) == Found(Step(s, ev), rest, i, PastAfter(s, ev, i, past))
      && calls + Issued(s, trace, i) == calls + IssuedBy(s, ev, i) + Issued(Step(s, ev), rest, i)
  {
  }

  lemma {:induction false} TrackedRun(s: State, trace: seq<Event>, i: nat, past: Past, calls: seq<Call>)
    requires Fleet.Inv(s) && Runs(s, trace) && i < |s.threads| && s.threads[i].op.OpResize?
    requires Tracked(s.threads[i], s.world, past, calls)
    ensures var s' := After(s, trace);
      i < |s'.threads| && s'.threads[i].op == s.threads[i].op
      && Tracked(s'.threads[i], s'.world, Found(s, trace, i, past), calls + Issued(s, trace, i))
    decreases |trace|
  {
    if trace == [] {
      assert calls + [] == calls;
    } else {
      var ev, rest := trace[0], trace[1..];
      TrackedStep(s, ev, i, past, calls);
      Fleet.StepKeeps(s, ev);
      TrackedRun(Step(s, ev), rest, i, PastAfter(s, ev, i, past), calls + IssuedBy(s, ev, i));
      FirstStep(s, trace, i, past, calls);
    }
  }

  /** In every run, among any other operations, what a resize has issued so far is
      what the contract of a resize on its own allows for the instance it found;
      and as long as it holds the lock the instance has the edit if and only if
      one went through. */
  lemma ResizeAgrees(ops: seq<Op>, w: World, trace: seq<Event>, i: nat)
    requires Runs(Fleet.Start(ops, w), trace) && i < |ops| && ops[i].OpResize?
    ensures i < |After(Fleet.Start(ops, w), trace).threads|
    ensures var s := After(Fleet.Start(ops, w), trace);
      var calls := Issued(Fleet.Start(ops, w), trace, i);
      match Found(Fleet.Start(ops, w), trace, i, NotYet)
      case NotYet => calls == []
      case Was(None) => calls == []
      case Was(Some(inst)) =>
        var plan := PlanEdit(ops[i].p, inst.config);
        && ResizeCalls(ops[i].name, inst.status, plan, ops[i].p.running, calls)
        && (Inside(s.threads[i].pc) ==>
              ops[i].name in s.world.instances && Told(inst, plan, calls, s.world.instances[ops[i].name]))
  {
    Reached(ops, w, []);
    TrackedRun(Fleet.Start(ops, w), trace, i, NotYet, []);
    assert [] + Issued(Fleet.Start(ops, w), trace, i) == Issued(Fleet.Start(ops, w), trace, i);
  }
}
