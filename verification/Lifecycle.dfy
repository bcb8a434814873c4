// The domain layer of internal/lima/lifecycle.go and internal/lima/disk.go for
// one caller at a time; Fleet shows why holding the object's lock makes this
// the right view.  Every limactl command may fail, every read may be
// unavailable and every wait may run out of time.

module Lifecycle {
  import opened Values
  import opened Lima
  import opened Ordering
  import opened Reconcile

  /** A mutating command that was issued, and whether it reported success. */
  datatype Call = Call(command: Command, ok: bool)

  datatype Reply = Found(inst: Instance) | Absent | Unavailable
  datatype DiskReply = FoundDisk(size: nat, inUse: bool) | AbsentDisk | UnavailableDisk

  datatype Listed = Listed(name: string, protected: bool)

  predicate Lists(listing: seq<Listed>, n: string) { exists i | 0 <= i < |listing| :: listing[i].name == n }

  // ---------------------------------------------------------------------
  // One Lima home
  // ---------------------------------------------------------------------

  class Home {
    var instances: map<string, Instance>
    var disks: map<string, nat>
    var calls: seq<Call>
    /** Something that could have worked did not: a read, a command, a wait, or
        being granted a lock. */
    ghost var trouble: bool

    ghost function View(): World
      reads `instances, `disks
    {
      World(instances, disks)
    }

    /** `limactl list` for one name. */
    method Inspect(name: string) returns (r: Reply)
      modifies `trouble
      ensures trouble == (old(trouble) || r.Unavailable?)
      ensures r.Found? ==> name in instances && r.inst == instances[name]
      ensures r.Absent? ==> name !in instances
    {
      var readable: bool := *;
      if !readable { trouble := true; }
      r := if !readable then Unavailable else if name in instances then Found(instances[name]) else Absent;
    }

    /** `limactl list`: every instance once, in some order, as it is now. */
    method List() returns (r: Option<seq<Listed>>)
      modifies `trouble
      ensures trouble == (old(trouble) || r.None?)
      ensures r.Some? ==> forall n | n in instances :: Lists(r.value, n)
      ensures r.Some? ==> forall i, j | 0 <= i < j < |r.value| :: r.value[i].name != r.value[j].name
      ensures r.Some? ==> forall l | l in r.value :: l.name in instances && l.protected == instances[l.name].protected
    {
      var readable: bool := *;
      if !readable {
        trouble := true;
        return None;
      }
      var out: seq<Listed>, rest := [], instances.Keys;
      while rest != {}
        invariant rest <= instances.Keys
        invariant forall l | l in out ::
          l.name in instances && l.protected == instances[l.name].protected && l.name !in rest
        invariant forall i, j | 0 <= i < j < |out| :: out[i].name != out[j].name
        invariant forall n | n in instances :: n in rest || Lists(out, n)
      {
        var n :| n in rest;
        rest := rest - {n};
        var more := out + [Listed(n, instances[n].protected)];
        assert more[|out|].name == n;
        assert forall m | Lists(out, m) :: Lists(more, m) by {
          forall m | Lists(out, m) ensures Lists(more, m) {
            var i :| 0 <= i < |out| && out[i].name == m;
            assert more[i].name == m;
          }
        }
        out := more;
      }
      r := Some(out);
    }

    method ListDisks() returns (r: Option<seq<string>>)
      modifies `trouble
      ensures trouble == (old(trouble) || r.None?)
      ensures r.Some? ==> forall d :: d in r.value <==> d in disks
      ensures r.Some? ==> forall i, j | 0 <= i < j < |r.value| :: r.value[i] != r.value[j]
    {
      var readable: bool := *;
      if !readable {
        trouble := true;
        return None;
      }
      var names := CollectKeys(disks);
      assert forall d :: d in names <==> d in Elements(names);
      r := Some(names);
    }

    method InspectDisk(name: string) returns (r: DiskReply)
      modifies `trouble
      ensures trouble == (old(trouble) || r.UnavailableDisk?)
      ensures r.FoundDisk? ==> name in disks && r.size == disks[name] && (r.inUse <==> InUse(View(), name))
      ensures r.AbsentDisk? ==> name !in disks
    {
      var readable: bool := *;
      if !readable { trouble := true; }
      r := if !readable then UnavailableDisk
           else if name in disks then FoundDisk(disks[name], InUse(World(instances, disks), name))
           else AbsentDisk;
    }

    /** Issues a mutating command. */
    method Run(c: Command) returns (ok: bool)
      modifies this
      ensures calls == old(calls) + [Call(c, ok)]
      ensures if ok then Succeeds(c, old(View()), View()) else Fails(c, old(View()), View())
      ensures trouble == (old(trouble) || (!ok && Possible(c, old(View()))))
    {
      var w := World(instances, disks);
      ghost var possible := Possible(c, w);
      ok, w := Outcome(c, w);
      trouble := trouble || (!ok && possible);
      instances, disks := w.instances, w.disks;
      calls := calls + [Call(c, ok)];
    }
  }

  /** A resolution of an edit that is always possible. */
  function PlainEdit(c: Config, e: EditRequest): (r: Config)
    ensures Edited(c, e, r)
  {
    var mounts := e.mounts.Or(c.mounts);
    Config(Pick(e.cpus, c.cpus), Pick(e.memory, c.memory), Pick(e.disk, c.disk),
           if e.mounts.None? then c.mounts
           else seq(|mounts|, i requires 0 <= i < |mounts| =>
                      if mounts[i].mountPoint == "" then mounts[i].(mountPoint := mounts[i].location) else mounts[i]),
           e.forwards.Or(c.forwards), e.disks.Or(c.disks))
  }

  /** Some outcome Lima allows for a command. */
  method Outcome(c: Command, w: World) returns (ok: bool, w': World)
    ensures if ok then Succeeds(c, w, w') else Fails(c, w, w')
  {
    var lucky: bool, other: Config := *, *;
    w', ok := w, false;
    match c
    case Create(n) =>
      if n !in w.instances {
        var partial: bool := *;
        if lucky || partial {
          w', ok := SetInstance(w, n, Instance(if lucky then Stopped else Broken, false, other)), lucky;
        }
      }
    case Start(n) =>
      var degraded: bool := *;
      if n in w.instances && (lucky || degraded) { w', ok := WithStatus(w, n, Running), lucky; }
    case Stop(n) =>
      if lucky && n in w.instances && w.instances[n].status.Running? { w', ok := WithStatus(w, n, Stopped), true; }
    case Edit(n, e) =>
      if && lucky && n in w.instances && !w.instances[n].status.Running? && Expressible(e)
         && (e.disk > 0 ==> e.disk >= w.instances[n].config.disk) {
        var config := if Edited(w.instances[n].config, e, other) then other else PlainEdit(w.instances[n].config, e);
        w', ok := SetInstance(w, n, w.instances[n].(config := config)), true;
      }
    case Delete(n) =>
      if lucky && (n in w.instances ==> !w.instances[n].protected) {
        w', ok := w.(instances := w.instances - {n}), true;
      }
    case Protect(n, on) =>
      if lucky && n in w.instances { w', ok := SetInstance(w, n, w.instances[n].(protected := on)), true; }
    case CreateDisk(d, size) =>
      if lucky && d !in w.disks { w', ok := w.(disks := w.disks[d := size]), true; }
    case ResizeDisk(d, size) =>
      if lucky && d in w.disks && !InUse(w, d) && w.disks[d] <= size {
        w', ok := w.(disks := w.disks[d := size]), true;
      }
    case DeleteDisk(d) =>
      if lucky && !InUse(w, d) { w', ok := w.(disks := w.disks - {d}), true; }
  }

  /** A command that is possible has an outcome in which it succeeds. */
  lemma PossibleSucceeds(c: Command, w: World) returns (w': World)
    requires Possible(c, w)
    ensures Succeeds(c, w, w')
  {
    match c
    case Create(n) => w' := SetInstance(w, n, Instance(Stopped, false, Config(0, 0, 0, [], [], [])));
    case Start(n) => w' := WithStatus(w, n, Running);
    case Stop(n) => w' := WithStatus(w, n, Stopped);
    case Edit(n, e) => w' := SetInstance(w, n, w.instances[n].(config := PlainEdit(w.instances[n].config, e)));
    case Delete(n) => w' := w.(instances := w.instances - {n});
    case Protect(n, on) => w' := SetInstance(w, n, w.instances[n].(protected := on));
    case CreateDisk(d, size) => w' := w.(disks := w.disks[d := size]);
    case ResizeDisk(d, size) => w' := w.(disks := w.disks[d := size]);
    case DeleteDisk(d) => w' := w.(disks := w.disks - {d});
  }

  // ---------------------------------------------------------------------
  // What the operations promise
  // ---------------------------------------------------------------------

  datatype ResizeOutcome = Done | RestartFailed | Failed

  datatype DeleteOutcome = Deleted | RefusedProtected | DeleteFailed

  datatype DiskDeletion = DiskGone | DiskHeld | DiskNotDeleted

  function RunState(running: bool): Status { if running then Running else Stopped }

  function RunStateCommand(name: string, running: bool): Command { if running then Start(name) else Stop(name) }

  /** Nothing but one instance may differ, and its protection may not. */
  predicate TouchesOnly(w: World, w': World, n: string) {
    || w' == w
    || (&& n in w.instances && n in w'.instances && w' == SetInstance(w, n, w'.instances[n])
        && w'.instances[n].protected == w.instances[n].protected)
  }

  /** The commands of a resize that finds the instance in state `from`, in
      order.  With an edit planned: a stop exactly when the machine runs, the
      edit, and a start only after the edit succeeded.  Otherwise at most the one
      command that brings about the run state, and none when it is there. */
  predicate ResizeCalls(n: string, from: Status, plan: EditRequest, running: bool, calls: seq<Call>) {
    if plan.IsEmpty() then
      |calls| <= 1 && (calls != [] ==> calls[0].command == RunStateCommand(n, running) && from != RunState(running))
    else
      var k := if from.Running? then 1 else 0;
      && |calls| <= k + 2
      && (calls != [] && k == 1 ==> calls[0].command == Stop(n))
      && (|calls| > k ==> calls[k].command == Edit(n, plan) && (k == 1 ==> calls[0].ok))
      && (|calls| > k + 1 ==> calls[k].ok && calls[k + 1].command == Start(n) && running)
  }

  /** The instance can be brought into the wanted run state: Lima stops only a
      running machine. */
  predicate CanReconcile(inst: Instance, running: bool) { running || inst.status in {Running, Stopped} }

  /** The resize can be carried out: nothing needs editing and the run state can
      be reached, or the edit can be passed to Lima and shrinks no disk. */
  predicate CanResize(p: Resize, inst: Instance) {
    var plan := PlanEdit(p, inst.config);
    if plan.IsEmpty() then CanReconcile(inst, p.running) else CanEdit(plan, inst)
  }

  predicate CanEdit(plan: EditRequest, inst: Instance) {
    Expressible(plan) && (plan.disk > 0 ==> plan.disk >= inst.config.disk)
  }

  predicate Edits(calls: seq<Call>) { exists x | x in calls :: x.command.Edit? }

  /** What a resize of instance n does.  Done means that the planned edit is in
      effect, hence everything asked for, and that the machine runs exactly when it
      should; RestartFailed means that the edit is in effect; Failed means that the
      configuration is what it was, and that a machine stopped for a failed edit
      stays down.  An edit that cannot be put into arguments is never issued, but
      the machine has been stopped for it by then: so unless something goes wrong a
      resize that plans an edit fails exactly when Lima cannot take the edit, and
      then leaves a machine that was running stopped. */
  predicate Resized(n: string, p: Resize, w: World, w': World, r: ResizeOutcome, trouble: bool, calls: seq<Call>) {
    && (!trouble ==> r == if n in w.instances && CanResize(p, w.instances[n]) then Done else Failed)
    && TouchesOnly(w, w', n) && (calls == [] ==> w' == w)
    && if n !in w.instances then r.Failed? && calls == []
       else
         && n in w'.instances
         && var inst, inst', plan := w.instances[n], w'.instances[n], PlanEdit(p, w.instances[n].config);
         && (if r.Failed? then inst'.config == inst.config
             else Edited(inst.config, plan, inst'.config) && Achieved(p, inst.config, inst'.config))
         && (r.Done? ==> (inst'.status.Running? <==> p.running))
         && (r.Failed? && Edits(calls) ==> !inst'.status.Running?)
         && (!trouble && r.Failed? && !plan.IsEmpty() && inst.status.Running? ==> inst'.status.Stopped?)
         && (!Expressible(plan) ==> !Edits(calls))
         && (r.Done? && (p.running || inst.status in {Running, Stopped}) ==> inst'.status == RunState(p.running))
         && (r.RestartFailed? ==> p.running && !plan.IsEmpty())
         && ResizeCalls(n, inst.status, plan, p.running, calls)
  }

  /** A running machine for which an edit is planned, when nothing goes wrong:
      either the edit is made, or the machine is stopped for nothing, and it is the
      second exactly when Lima cannot take the edit. */
  lemma StoppedForNothing(n: string, p: Resize, w: World, w': World, r: ResizeOutcome, calls: seq<Call>)
    requires n in w.instances && w.instances[n].status.Running? && !PlanEdit(p, w.instances[n].config).IsEmpty()
    requires Resized(n, p, w, w', r, false, calls)
    ensures var plan := PlanEdit(p, w.instances[n].config);
      && (r.Failed? && w' == WithStatus(w, n, Stopped) <==> !CanEdit(plan, w.instances[n]))
      && (!Expressible(plan) ==> forall c | c in calls :: c.command == Stop(n))
  {
  }

  class Service {
    const home: Home

    constructor (home: Home)
      ensures this.home == home
    {
      this.home := home;
    }

    /** Taking a lock fails only when the caller's context is done. */
    method Lock() returns (ok: bool)
      modifies home`trouble
      ensures home.trouble == (old(home.trouble) || !ok)
    {
      ok := *;
      home.trouble := home.trouble || !ok;
    }

    /** Polls until the instance has one of the wanted states. */
    method WaitForStatus(name: string, want: set<Status>) returns (ok: bool)
      modifies home`trouble
      ensures old(home.trouble) ==> home.trouble
      ensures ok ==> name in home.instances && home.instances[name].status in want
      ensures !ok && !home.trouble ==> name in home.instances && home.instances[name].status.Broken?
    {
      var patience: nat := *;
      while patience > 0
        invariant old(home.trouble) ==> home.trouble
      {
        var r := home.Inspect(name);
        match r {
          case Unavailable => return false;
          case Absent =>
          case Found(inst) =>
            if inst.status.Broken? { return false; }
            if inst.status in want { return true; }
        }
        patience := patience - 1;
      }
      home.trouble := true;
      return false;
    }

    method WaitForAbsence(name: string) returns (ok: bool)
      modifies home`trouble
      ensures old(home.trouble) ==> home.trouble
      ensures ok ==> name !in home.instances
      ensures !ok ==> home.trouble
    {
      var patience: nat := *;
      while patience > 0
        invariant old(home.trouble) ==> home.trouble
      {
        var r := home.Inspect(name);
        if r.Unavailable? { return false; }
        if r.Absent? { return true; }
        patience := patience - 1;
      }
      home.trouble := true;
      return false;
    }

    /** Starts an instance that is not running; one that Lima reports as failed
        but running counts as started. */
    method StartLocked(name: string) returns (ok: bool, ghost issued: seq<Call>)
      modifies home
      ensures old(home.trouble) ==> home.trouble
      ensures !home.trouble ==> (ok <==> name in old(home.instances))
      ensures ok ==> name in home.instances && home.instances[name].status.Running?
      ensures home.View() == old(home.View())
           || (name in old(home.instances) && issued != []
               && home.View() == WithStatus(old(home.View()), name, Running))
      ensures home.calls == old(home.calls) + issued
      ensures issued == [] || (|issued| == 1 && issued[0].command == Start(name)
                               && name in old(home.instances) && !old(home.instances[name].status.Running?))
    {
      issued := [];
      var r := home.Inspect(name);
      if !r.Found? { return false, []; }
      if r.inst.status.Running? { return true, []; }
      var started := home.Run(Start(name));
      issued := [Call(Start(name), started)];
      if !started {
        r := home.Inspect(name);
        if !r.Found? || !r.inst.status.Running? { return false, issued; }
      }
      ok := WaitForStatus(name, {Running});
    }

    /** Stops an instance that is not stopped. */
    method StopLocked(name: string) returns (ok: bool, ghost issued: seq<Call>)
      modifies home
      ensures old(home.trouble) ==> home.trouble
      ensures !home.trouble ==> (ok <==> name in old(home.instances) && CanReconcile(old(home.instances)[name], false))
      ensures ok ==> name in home.instances && home.instances[name].status.Stopped?
      ensures home.View() == old(home.View())
           || (name in old(home.instances) && issued != []
               && home.View() == WithStatus(old(home.View()), name, Stopped))
      ensures home.calls == old(home.calls) + issued
      ensures issued == [] || (|issued| == 1 && issued[0].command == Stop(name) && (ok ==> issued[0].ok)
                               && name in old(home.instances) && !old(home.instances[name].status.Stopped?))
    {
      issued := [];
      var r := home.Inspect(name);
      if !r.Found? { return false, []; }
      if r.inst.status.Stopped? { return true, []; }
      var stopped := home.Run(Stop(name));
      issued := [Call(Stop(name), stopped)];
      if !stopped { return false, issued; }
      ok := WaitForStatus(name, {Stopped});
    }

    method ReconcileRunState(name: string, running: bool) returns (ok: bool, ghost issued: seq<Call>)
      modifies home
      ensures old(home.trouble) ==> home.trouble
      ensures !home.trouble ==>
        (ok <==> name in old(home.instances) && CanReconcile(old(home.instances)[name], running))
      ensures ok ==> name in home.instances && home.instances[name].status == RunState(running)
      ensures home.View() == old(home.View())
           || (name in old(home.instances) && issued != []
               && home.View() == WithStatus(old(home.View()), name, RunState(running)))
      ensures home.calls == old(home.calls) + issued
      ensures issued == [] || (|issued| == 1 && issued[0].command == RunStateCommand(name, running)
                               && name in old(home.instances) && old(home.instances[name].status) != RunState(running))
    {
      if running { ok, issued := StartLocked(name); } else { ok, issued := StopLocked(name); }
    }

    /** Client.Edit: nothing is run when the arguments cannot be built. */
    method Edit(name: string, e: EditRequest) returns (ok: bool, ghost issued: seq<Call>)
      modifies home
      ensures old(home.trouble) ==> home.trouble
      ensures !home.trouble ==> (ok <==> Possible(Command.Edit(name, e), old(home.View())))
      ensures home.calls == old(home.calls) + issued
      ensures issued == if Expressible(e) then [Call(Command.Edit(name, e), ok)] else []
      ensures if ok then issued != [] && EditsInstance(old(home.View()), name, e, home.View())
              else home.View() == old(home.View())
    {
      if !Expressible(e) { return false, []; }
      ok := home.Run(Command.Edit(name, e));
      issued := [Call(Command.Edit(name, e), ok)];
    }

    /** Applies an in-place change. */
    method Resize(name: string, p: Resize) returns (r: ResizeOutcome, ghost issued: seq<Call>)
      modifies home
      ensures old(home.trouble) ==> home.trouble
      ensures Resized(name, p, old(home.View()), home.View(), r, home.trouble, issued)
      ensures home.calls == old(home.calls) + issued
    {
      issued := [];
      var granted := Lock();
      if !granted { return Failed, []; }
      if p.NothingAsked() {
        r, issued := ReconcileOnly(name, p);
        return;
      }
      var reply := home.Inspect(name);
      if !reply.Found? { return Failed, []; }
      var plan := PlanEdit(p, reply.inst.config);
      if plan.IsEmpty() {
        r, issued := ReconcileOnly(name, p);
        return;
      }
      r, issued := EditStopped(name, reply.inst, plan, p.running);
      if !r.Failed? { PlanAchieves(p, reply.inst.config, home.instances[name].config); }
    }

    /** A resize without an edit. */
    method ReconcileOnly(name: string, p: Resize) returns (r: ResizeOutcome, ghost issued: seq<Call>)
      requires name in home.instances ==> PlanEdit(p, home.instances[name].config).IsEmpty()
      modifies home
      ensures old(home.trouble) ==> home.trouble
      ensures Resized(name, p, old(home.View()), home.View(), r, home.trouble, issued)
      ensures home.calls == old(home.calls) + issued
    {
      var ok;
      ok, issued := ReconcileRunState(name, p.running);
      r := if ok then Done else Failed;
      if name in home.instances {
        PlanAchieves(p, old(home.instances)[name].config, home.instances[name].config);
      }
    }

    /** The second half of a resize: stop if necessary, then edit. */
    method EditStopped(name: string, inst: Instance, plan: EditRequest, running: bool)
      returns (r: ResizeOutcome, ghost issued: seq<Call>)
      requires name in home.instances && home.instances[name] == inst && !plan.IsEmpty()
      modifies home
      ensures old(home.trouble) ==> home.trouble
      ensures !home.trouble ==> r == if CanEdit(plan, inst) then Done else Failed
      ensures TouchesOnly(old(home.View()), home.View(), name) && name in home.instances
      ensures if r.Failed? then home.instances[name].config == inst.config
              else Edited(inst.config, plan, home.instances[name].config)
      ensures r.Done? ==>
        home.instances[name].status
        == if running then Running else if inst.status.Running? then Stopped else inst.status
      ensures r.RestartFailed? ==> running
      ensures r.Failed? && Edits(issued) ==> !home.instances[name].status.Running?
      ensures !home.trouble && r.Failed? && inst.status.Running? ==> home.instances[name].status.Stopped?
      ensures !Expressible(plan) ==> !Edits(issued)
      ensures home.calls == old(home.calls) + issued && ResizeCalls(name, inst.status, plan, running, issued)
      ensures issued == [] ==> home.View() == old(home.View())
    {
      issued := [];
      var ok: bool;
      ghost var more: seq<Call>;
      if inst.status.Running? {
        ok, issued := StopLocked(name);
        if !ok { return Failed, issued; }
      }
      r, more := EditAndStart(name, plan, running);
      issued := issued + more;
    }

    /** The edit itself, and the restart when the machine should run.  A failed
        edit is not followed by a start. */
    method EditAndStart(name: string, plan: EditRequest, running: bool)
      returns (r: ResizeOutcome, ghost issued: seq<Call>)
      requires name in home.instances && !home.instances[name].status.Running? && !plan.IsEmpty()
      modifies home
      ensures old(home.trouble) ==> home.trouble
      ensures !home.trouble ==> r == if Possible(Command.Edit(name, plan), old(home.View())) then Done else Failed
      ensures TouchesOnly(old(home.View()), home.View(), name) && name in home.instances
      ensures if r.Failed? then home.View() == old(home.View())
              else Edited(old(home.instances)[name].config, plan, home.instances[name].config)
      ensures r.Done? ==> home.instances[name].status == if running then Running else old(home.instances)[name].status
      ensures r.RestartFailed? ==> running
      ensures !Expressible(plan) ==> issued == []
      ensures home.calls == old(home.calls) + issued
      ensures ResizeCalls(name, old(home.instances)[name].status, plan, running, issued)
      ensures issued == [] ==> home.View() == old(home.View())
    {
      var ok: bool;
      ok, issued := Edit(name, plan);
      if !ok { return Failed, issued; }
      if running {
        ghost var more;
        ok, more := StartLocked(name);
        issued := issued + more;
        if !ok { return RestartFailed, issued; }
      }
      r := Done;
    }

    /** Two resizes in a row: the second one, planned from the recorded lists,
        issues no stop, no edit and no start, and finds everything done. */
    method ResizeTwice(name: string, p: Resize)
      returns (first: ResizeOutcome, second: ResizeOutcome, ghost issued: seq<Call>)
      modifies home
      ensures first.Done? ==> name in old(home.instances)
      ensures && first.Done? && (p.running || old(home.instances)[name].status in {Running, Stopped})
              && p.cpus >= 0 && p.memory >= 0 && p.disk >= 0 ==>
        !second.RestartFailed? && issued == [] && (!home.trouble ==> second.Done?)
    {
      issued := [];
      first, issued := Resize(name, p);
      second := Failed;
      if first.Done? {
        ResizeSettles(p, old(home.instances)[name].config, home.instances[name].config);
        second, issued := Resize(name, Again(p));
      }
    }

    /** Applies or clears protection. */
    method SetProtection(name: string, on: bool) returns (ok: bool)
      modifies home
      ensures old(home.trouble) ==> home.trouble
      ensures !home.trouble ==> (ok <==> name in old(home.instances))
      ensures ok ==> name in old(home.instances)
      ensures ok ==> home.View() == SetInstance(old(home.View()), name, old(home.instances)[name].(protected := on))
      ensures !ok ==> home.View() == old(home.View())
    {
      var granted := Lock();
      if !granted { return false; }
      var r := home.Inspect(name);
      if !r.Found? { return false; }
      if r.inst.protected == on { return true; }
      ok := home.Run(Protect(name, on));
    }

    /** Removes an instance.  Protection is never worked around. */
    method Delete(name: string) returns (r: DeleteOutcome)
      modifies home
      ensures old(home.trouble) ==> home.trouble
      ensures !home.trouble ==>
        r == if name in old(home.instances) && old(home.instances)[name].protected then RefusedProtected else Deleted
      ensures r.Deleted? ==> name !in home.instances
      ensures r.RefusedProtected? ==> name in old(home.instances) && old(home.instances)[name].protected
      ensures home.View() == old(home.View())
           || (&& name in old(home.instances) && !old(home.instances)[name].protected
               && home.View() == old(home.View()).(instances := old(home.instances) - {name}))
    {
      var granted := Lock();
      if !granted { return DeleteFailed; }
      var reply := home.Inspect(name);
      if reply.Absent? { return Deleted; }
      if !reply.Found? { return DeleteFailed; }
      if reply.inst.protected { return RefusedProtected; }
      var ok := home.Run(Command.Delete(name));
      if !ok { return DeleteFailed; }
      ok := WaitForAbsence(name);
      return if ok then Deleted else DeleteFailed;
    }

    /** Registers an instance and brings it to the requested state.  `registered`
        tells a caller whose create failed that there is something to clean up;
        nothing that got registered is removed again. */
    method Create(name: string, validate: bool, start: bool, protect: bool) returns (ok: bool, registered: bool)
      modifies home
      ensures old(home.trouble) ==> home.trouble
      ensures !home.trouble ==> (ok <==> name !in old(home.instances))
      ensures registered ==> name !in old(home.instances) && name in home.instances
      ensures ok ==> registered && home.instances[name].protected == protect
      ensures ok ==> home.instances[name].status == RunState(start)
      ensures name in old(home.instances) ==> !ok && home.View() == old(home.View())
      ensures home.disks == old(home.disks) && home.instances - {name} == old(home.instances) - {name}
    {
      ok, registered := false, false;
      var granted := Lock();
      if !granted { return; }
      var reply := home.Inspect(name);
      if !reply.Absent? { return; }
      if validate {
        var valid: bool := *;
        home.trouble := home.trouble || !valid;
        if !valid { return; }
      }
      var done := home.Run(Command.Create(name));
      if !done {
        reply := home.Inspect(name);
        registered := reply.Found?;
        return;
      }
      registered := true;
      ok := BringUp(name, start, protect);
    }

    /** The rest of a create, once the instance is registered. */
    method BringUp(name: string, start: bool, protect: bool) returns (ok: bool)
      requires name in home.instances && home.instances[name].status.Stopped? && !home.instances[name].protected
      modifies home
      ensures old(home.trouble) ==> home.trouble
      ensures !home.trouble ==> ok
      ensures name in home.instances && home.disks == old(home.disks)
      ensures home.instances - {name} == old(home.instances) - {name}
      ensures ok ==> home.instances[name].protected == protect && home.instances[name].status == RunState(start)
    {
      ok := false;
      var done := WaitForStatus(name, {Stopped, Running});
      if !done { return; }
      if start {
        ghost var issued;
        done, issued := StartLocked(name);
        if !done { return; }
      }
      if protect {
        done := home.Run(Protect(name, true));
        if !done { return; }
      }
      var reply := home.Inspect(name);
      ok := reply.Found?;
    }
  }

  class DiskService {
    const home: Home

    constructor (home: Home)
      ensures this.home == home
    {
      this.home := home;
    }

    /** Taking a lock fails only when the caller's context is done. */
    method Lock() returns (ok: bool)
      modifies home`trouble
      ensures home.trouble == (old(home.trouble) || !ok)
    {
      ok := *;
      home.trouble := home.trouble || !ok;
    }

    /** Creates a disk that is not there yet; a final read that fails makes the
        call fail although the disk is there. */
    method Create(name: string, size: nat) returns (ok: bool)
      modifies home
      ensures old(home.trouble) ==> home.trouble
      ensures !home.trouble ==> (ok <==> name !in old(home.disks))
      ensures home.View() == old(home.View())
           || (name !in old(home.disks) && home.View() == old(home.View()).(disks := old(home.disks)[name := size]))
      ensures ok ==> name !in old(home.disks) && name in home.disks && home.disks[name] == size
      ensures name in old(home.disks) ==> !ok && home.calls == old(home.calls)
    {
      var granted := Lock();
      if !granted { return false; }
      var r := home.InspectDisk(name);
      if !r.AbsentDisk? { return false; }
      ok := home.Run(CreateDisk(name, size));
      if !ok { return false; }
      r := home.InspectDisk(name);
      ok := r.FoundDisk?;
    }

    /** A disk only ever grows, and not while a running machine holds it. */
    method Resize(name: string, size: nat) returns (ok: bool)
      modifies home
      ensures old(home.trouble) ==> home.trouble
      ensures !home.trouble ==>
        (ok <==> name in old(home.disks)
                 && (size == old(home.disks)[name] || (size > old(home.disks)[name] && !InUse(old(home.View()), name))))
      ensures ok ==> name in old(home.disks) && old(home.disks)[name] <= size
      ensures ok ==> home.View() == old(home.View()).(disks := old(home.disks)[name := size])
      ensures !ok ==> home.View() == old(home.View())
      ensures name in old(home.disks) && size < old(home.disks)[name] ==> home.calls == old(home.calls)
    {
      var granted := Lock();
      if !granted { return false; }
      var r := home.InspectDisk(name);
      if !r.FoundDisk? { return false; }
      if r.size == size { return true; }
      if size < r.size || r.inUse { return false; }
      ok := home.Run(ResizeDisk(name, size));
    }

    /** Removes a disk no running machine holds; an absent disk is success. */
    method Delete(name: string) returns (r: DiskDeletion)
      modifies home
      ensures old(home.trouble) ==> home.trouble
      ensures !home.trouble ==>
        r == if name in old(home.disks) && InUse(old(home.View()), name) then DiskHeld else DiskGone
      ensures r.DiskGone? ==> home.View() == old(home.View()).(disks := old(home.disks) - {name})
      ensures r.DiskGone? && name in old(home.disks) ==> !InUse(old(home.View()), name)
      ensures !r.DiskGone? ==> home.View() == old(home.View())
      ensures r.DiskHeld? ==> InUse(old(home.View()), name)
      ensures InUse(old(home.View()), name) ==> home.calls == old(home.calls)
    {
      var granted := Lock();
      if !granted { return DiskNotDeleted; }
      var reply := home.InspectDisk(name);
      if reply.AbsentDisk? { return DiskGone; }
      if !reply.FoundDisk? { return DiskNotDeleted; }
      if reply.inUse { return DiskHeld; }
      var ok := home.Run(DeleteDisk(name));
      r := if ok then DiskGone else DiskNotDeleted;
    }
  }
}
