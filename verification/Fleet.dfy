// Many operations at once: the services of internal/lima/lifecycle.go and
// internal/lima/disk.go run by any number of goroutines against one Lima home.
//
// A goroutine is a program counter.  Taking or giving up a lock, looking at or
// setting the shared flag, every read and every limactl command is one step, and
// the steps of all goroutines interleave freely.  A lock has at most one owner,
// which is what Locks.RefinesOwners establishes for the keyed mutex.

module Fleet {
  import opened Values
  import opened Lima
  import opened Reconcile

  datatype Key = HomeKey | InstanceKey(name: string) | DiskKey(name: string)

  datatype Op =
    | OpCreate(name: string, validate: bool, start: bool, protect: bool)
    | OpEnsureRunning(name: string)
    | OpEnsureStopped(name: string)
    | OpResize(name: string, p: Resize)
    | OpSetProtection(name: string, on: bool)
    | OpDelete(name: string)
    | OpCreateDisk(name: string, size: nat)
    | OpResizeDisk(name: string, size: nat)
    | OpDeleteDisk(name: string)
  {
    predicate OnDisk() { OpCreateDisk? || OpResizeDisk? || OpDeleteDisk? }

    function Key(): Key { if OnDisk() then DiskKey(name) else InstanceKey(name) }
  }

  /** The string a key is in the lock table. */
  function KeyString(k: Key): string {
    match k
    case HomeKey => "home:"
    case InstanceKey(n) => "instance:" + n
    case DiskKey(n) => "disk:" + n
  }

  /** Namespacing keeps different objects apart whatever they are called. */
  lemma KeysDoNotCollide(a: Key, b: Key)
    requires KeyString(a) == KeyString(b)
    ensures a == b
  {
    var s := KeyString(a);
    assert s[0] == if a.HomeKey? then 'h' else if a.InstanceKey? then 'i' else 'd';
    assert s[0] == if b.HomeKey? then 'h' else if b.InstanceKey? then 'i' else 'd';
    if a.InstanceKey? { assert s[9..] == a.name == b.name; }
    if a.DiskKey? { assert s[5..] == a.name == b.name; }
  }

  datatype Pc =
    // Before the object's lock: the first-create gate, then the lock itself.
    | ReadReady | WaitHome | RecheckReady | DropHome | WaitObject
    // Under the object's lock.
    | Observe | Validating | InFlight(command: Command) | CheckRegistered
    | SettleCreated | ObserveStart | CheckDegraded | SettleStarted
    | ObserveStop | SettleStopped | SettleGone | FinalRead | Unlock
    // Leaving the gate.
    | PublishReady | UnlockHome
    | Finished

  /** `gate` is set while the goroutine holds the home lock; `registered` is the
      flag of a create's result; `plan` is the edit a resize still has to make. */
  datatype Thread = Thread(op: Op, pc: Pc, gate: bool, registered: bool, plan: Option<EditRequest>)

  /** `born` remembers which instances creates have put into the home. */
  datatype State = State(owner: map<Key, nat>, world: World, ready: bool, threads: seq<Thread>, born: set<string>)

  /** How a step turns out: it goes through, it fails, or the context is done
      while waiting for a lock.  The world matters to commands only. */
  datatype Choice = Go(world: World) | Err(world: World) | Cancel

  datatype Event = Event(thread: nat, choice: Choice)

  function Begin(op: Op): Thread {
    Thread(op, if op.OpCreate? then ReadReady else WaitObject, false, false, None)
  }

  function Start(ops: seq<Op>, w: World): State {
    State(map[], w, false, seq(|ops|, i requires 0 <= i < |ops| => Begin(ops[i])), {})
  }

  // ---------------------------------------------------------------------
  // One step of one goroutine
  // ---------------------------------------------------------------------

  /** Whether the goroutine holds the lock of its object. */
  predicate Inside(pc: Pc) {
    !(pc.ReadReady? || pc.WaitHome? || pc.RecheckReady? || pc.DropHome? || pc.WaitObject?
      || pc.PublishReady? || pc.UnlockHome? || pc.Finished?)
  }

  predicate Reads(pc: Pc) { Inside(pc) && !pc.InFlight? && !pc.Unlock? }

  /** What the goroutine's own situation and the home allow, locks aside. */
  predicate Open(t: Thread, c: Choice, w: World) {
    if t.pc.Finished? then false
    else if t.pc.WaitHome? || t.pc.WaitObject? then c.Cancel? || c.Go?
    else if t.pc.InFlight? then
      (c.Go? && Succeeds(t.pc.command, w, c.world)) || (c.Err? && Fails(t.pc.command, w, c.world))
    else if Reads(t.pc) then c.Go? || c.Err?
    else c.Go?
  }

  predicate Enabled(s: State, ev: Event) {
    && ev.thread < |s.threads|
    && var t := s.threads[ev.thread];
       && Open(t, ev.choice, s.world)
       && (t.pc.WaitHome? && ev.choice.Go? ==> HomeKey !in s.owner)
       && (t.pc.WaitObject? && ev.choice.Go? ==> t.op.Key() !in s.owner)
  }

  function Look(w: World, name: string): Option<Instance> {
    if name in w.instances then Some(w.instances[name]) else None
  }

  /** Where startLocked returns to. */
  function AfterStart(op: Op): Pc {
    if op.OpCreate? then (if op.protect then InFlight(Protect(op.name, true)) else FinalRead) else Unlock
  }

  function AfterCreated(op: Op): Pc {
    if op.OpCreate? && op.start then ObserveStart else AfterStart(op)
  }

  /** Where stopLocked returns to. */
  function AfterStop(t: Thread): Pc {
    if t.plan.Some? then InFlight(Edit(t.op.name, t.plan.value)) else Unlock
  }

  function RunStatePc(running: bool): Pc { if running then ObserveStart else ObserveStop }

  /** The first thing an operation does under its lock. */
  function FirstRead(op: Op): Pc {
    match op
    case OpEnsureRunning(_) => ObserveStart
    case OpEnsureStopped(_) => ObserveStop
    case OpResize(_, p) => if p.NothingAsked() then RunStatePc(p.running) else Observe
    case _ => Observe
  }

  /** What the first read leads to. */
  function Decide(t: Thread, w: World): Thread {
    var n := t.op.name;
    var seen := Look(w, n);
    match t.op
    case OpCreate(_, validate, _, _) =>
      t.(pc := if seen.Some? then Unlock else if validate then Validating else InFlight(Create(n)))
    case OpResize(_, p) =>
      if seen.None? then t.(pc := Unlock)
      else
        var plan := PlanEdit(p, seen.value.config);
        if plan.IsEmpty() then t.(pc := RunStatePc(p.running))
        else t.(plan := Some(plan), pc := if seen.value.status.Running? then ObserveStop else InFlight(Edit(n, plan)))
    case OpSetProtection(_, on) =>
      t.(pc := if seen.None? || seen.value.protected == on then Unlock else InFlight(Protect(n, on)))
    case OpDelete(_) =>
      t.(pc := if seen.None? || seen.value.protected then Unlock else InFlight(Delete(n)))
    case OpCreateDisk(_, size) => t.(pc := if n in w.disks then Unlock else InFlight(CreateDisk(n, size)))
    case OpResizeDisk(_, size) =>
      t.(pc := if n !in w.disks || size <= w.disks[n] || InUse(w, n) then Unlock else InFlight(ResizeDisk(n, size)))
    case OpDeleteDisk(_) => t.(pc := if n !in w.disks || InUse(w, n) then Unlock else InFlight(DeleteDisk(n)))
    case _ => t.(pc := Unlock)
  }

  /** A command came back. */
  function Returned(t: Thread, ok: bool): Thread
    requires t.pc.InFlight?
  {
    match t.pc.command
    case Create(_) => if ok then t.(registered := true, pc := SettleCreated) else t.(pc := CheckRegistered)
    case Start(_) => t.(pc := if ok then SettleStarted else CheckDegraded)
    case Stop(_) => t.(pc := if ok then SettleStopped else Unlock)
    case Edit(_, _) => t.(plan := None, pc := if ok && t.op.OpResize? && t.op.p.running then ObserveStart else Unlock)
    case Protect(_, _) => t.(pc := if ok && t.op.OpCreate? then FinalRead else Unlock)
    case Delete(_) => t.(pc := if ok then SettleGone else Unlock)
    case CreateDisk(_, _) => t.(pc := if ok then FinalRead else Unlock)
    case ResizeDisk(_, _) => t.(pc := Unlock)
    case DeleteDisk(_) => t.(pc := Unlock)
  }

  function Settled(t: Thread, seen: Option<Instance>, want: set<Status>, next: Pc): Thread {
    if seen.None? then t
    else if seen.value.status.Broken? then t.(pc := Unlock)
    else if seen.value.status in want then t.(pc := next)
    else t
  }

  /** A read came back. */
  function Observed(t: Thread, w: World, ok: bool): Thread
    requires Reads(t.pc)
  {
    var n := t.op.name;
    var seen := Look(w, n);
    if !ok then t.(pc := Unlock)
    else match t.pc
      case Observe => Decide(t, w)
      case Validating => t.(pc := InFlight(Create(n)))
      case CheckRegistered => t.(registered := seen.Some?, pc := Unlock)
      case SettleCreated => Settled(t, seen, {Stopped, Running}, AfterCreated(t.op))
      case ObserveStart =>
        t.(pc := if seen.None? then Unlock
                 else if seen.value.status.Running? then AfterStart(t.op)
                 else InFlight(Command.Start(n)))
      case CheckDegraded => t.(pc := if seen.Some? && seen.value.status.Running? then SettleStarted else Unlock)
      case SettleStarted => Settled(t, seen, {Running}, AfterStart(t.op))
      case ObserveStop =>
        t.(pc := if seen.None? then Unlock else if seen.value.status.Stopped? then AfterStop(t) else InFlight(Stop(n)))
      case SettleStopped => Settled(t, seen, {Stopped}, AfterStop(t))
      case SettleGone => if seen.None? then t.(pc := Unlock) else t
      case _ => t.(pc := Unlock)
  }

  function Advance(t: Thread, c: Choice, w: World, ready: bool): Thread {
    match t.pc
    case ReadReady => t.(pc := if ready then WaitObject else WaitHome)
    case WaitHome => if c.Cancel? then t.(pc := Finished) else t.(gate := true, pc := RecheckReady)
    case RecheckReady => t.(pc := if ready then DropHome else WaitObject)
    case DropHome => t.(gate := false, pc := WaitObject)
    case WaitObject =>
      if c.Cancel? then t.(pc := if t.gate then UnlockHome else Finished) else t.(pc := FirstRead(t.op))
    case InFlight(_) => Returned(t, c.Go?)
    case Unlock => t.(pc := if !t.gate then Finished else if t.registered then PublishReady else UnlockHome)
    case PublishReady => t.(pc := UnlockHome)
    case UnlockHome => t.(gate := false, pc := Finished)
    case Finished => t
    case _ => Observed(t, w, c.Go?)
  }

  function OwnersAfter(s: State, ev: Event): map<Key, nat>
    requires ev.thread < |s.threads|
  {
    var t := s.threads[ev.thread];
    if t.pc.WaitHome? && ev.choice.Go? then s.owner[HomeKey := ev.thread]
    else if t.pc.WaitObject? && ev.choice.Go? then s.owner[t.op.Key() := ev.thread]
    else if t.pc.Unlock? then s.owner - {t.op.Key()}
    else if t.pc.DropHome? || t.pc.UnlockHome? then s.owner - {HomeKey}
    else s.owner
  }

  function Step(s: State, ev: Event): State
    requires ev.thread < |s.threads| && Open(s.threads[ev.thread], ev.choice, s.world)
  {
    var t := s.threads[ev.thread];
    var w := if t.pc.InFlight? then ev.choice.world else s.world;
    State(OwnersAfter(s, ev), w, s.ready || t.pc.PublishReady?,
          s.threads[ev.thread := Advance(t, ev.choice, s.world, s.ready)],
          if t.pc.InFlight? && t.pc.command.Create? && t.op.name in w.instances then s.born + {t.op.name} else s.born)
  }

  predicate Runs(s: State, trace: seq<Event>)
    decreases |trace|
  {
    trace == [] || (Enabled(s, trace[0]) && Runs(Step(s, trace[0]), trace[1..]))
  }

  function After(s: State, trace: seq<Event>): State
    requires Runs(s, trace)
    decreases |trace|
  {
    if trace == [] then s else After(Step(s, trace[0]), trace[1..])
  }

  // ---------------------------------------------------------------------
  // The invariant
  // ---------------------------------------------------------------------

  /** The observation that makes a command sensible. */
  predicate Justified(c: Command, w: World) {
    match c
    case Create(n) => n !in w.instances
    case Start(n) => n in w.instances && !w.instances[n].status.Running?
    case Stop(n) => n in w.instances && !w.instances[n].status.Stopped?
    case Edit(n, e) => n in w.instances && !w.instances[n].status.Running? && !e.IsEmpty()
    case Delete(n) => n in w.instances && !w.instances[n].protected
    case Protect(n, on) => n in w.instances && w.instances[n].protected != on
    case CreateDisk(d, _) => d !in w.disks
    case ResizeDisk(d, size) => d in w.disks && w.disks[d] < size
    case DeleteDisk(d) => d in w.disks
  }

  /** Which commands an operation issues. */
  predicate Issues(op: Op, c: Command) {
    && c.name == op.name
    && match c
       case Create(_) => op.OpCreate?
       case Start(_) => op.OpCreate? || op.OpEnsureRunning? || op.OpResize?
       case Stop(_) => op.OpEnsureStopped? || op.OpResize?
       case Edit(_, _) => op.OpResize?
       case Delete(_) => op.OpDelete?
       case Protect(_, on) => (op.OpCreate? && on) || op.OpSetProtection?
       case CreateDisk(_, _) => op.OpCreateDisk?
       case ResizeDisk(_, _) => op.OpResizeDisk?
       case DeleteDisk(_) => op.OpDeleteDisk?
  }

  /** The program counters a create has the gate behind it in. */
  predicate InCreate(pc: Pc) { Inside(pc) || pc.WaitObject? || pc.PublishReady? || pc.UnlockHome? }

  predicate Before(pc: Pc) {
    pc.ReadReady? || pc.WaitHome? || pc.RecheckReady? || pc.DropHome? || pc.WaitObject?
  }

  /** What a goroutine knows about locks and the shared flag. */
  predicate GateOk(ready: bool, born: set<string>, t: Thread) {
    && (t.pc.ReadReady? || t.pc.WaitHome? || t.pc.Finished? ==> !t.gate)
    && (t.pc.RecheckReady? || t.pc.DropHome? || t.pc.PublishReady? || t.pc.UnlockHome? ==> t.gate)
    && (t.gate ==> t.op.OpCreate?)
    && (Before(t.pc) ==> t.plan.None? && !t.registered)
    && (t.pc.ReadReady? || t.pc.WaitHome? ==> t.op.OpCreate?)
    && (t.pc.DropHome? ==> ready)
    && (t.op.OpCreate? && InCreate(t.pc) ==> t.gate || ready)
    && (t.registered ==> t.op.OpCreate? && t.op.name in born)
    && (t.pc.PublishReady? ==> t.registered)
  }

  predicate Seen(w: World, n: string, status: Status) { n in w.instances && w.instances[n].status == status }

  /** What it knows about its object while it holds the object's lock. */
  predicate FactsOk(w: World, born: set<string>, t: Thread) {
    Inside(t.pc) ==>
      && (t.pc.InFlight? ==> Issues(t.op, t.pc.command) && Justified(t.pc.command, w))
      && (t.pc.InFlight? && t.pc.command.Edit? ==> t.plan == Some(t.pc.command.request))
      && (t.pc.SettleCreated? || t.pc.CheckRegistered? || t.pc.Validating? ==> t.op.OpCreate?)
      && (t.pc.ObserveStart? || t.pc.CheckDegraded? || t.pc.SettleStarted? ==>
            t.op.OpCreate? || t.op.OpEnsureRunning? || t.op.OpResize?)
      && (t.pc.SettleGone? ==> t.op.OpDelete?)
      && (t.pc.ObserveStop? || t.pc.SettleStopped? ==> t.op.OpEnsureStopped? || t.op.OpResize?)
      && (t.pc.Validating? || t.pc.SettleGone? ==> t.op.name !in w.instances)
      && (t.pc.SettleCreated? || t.pc.SettleStopped? ==> Seen(w, t.op.name, Stopped))
      && (t.pc.SettleStarted? ==> Seen(w, t.op.name, Running))
      && (t.pc.CheckRegistered? && t.op.name in w.instances ==> t.op.name in born)
      && (t.op.OpCreate? && (t.pc.SettleCreated? || t.pc.ObserveStart? || t.pc.CheckDegraded? || t.pc.SettleStarted?
            || (t.pc.InFlight? && !t.pc.command.Create?)) ==>
            t.op.name in w.instances && !w.instances[t.op.name].protected)
      && (t.plan.Some? ==>
            && t.op.OpResize? && t.op.name in w.instances && !t.plan.value.IsEmpty()
            && t.plan.value == PlanEdit(t.op.p, w.instances[t.op.name].config))
  }

  predicate Holds(t: Thread, k: Key) {
    (k == HomeKey && t.gate) || (k == t.op.Key() && Inside(t.pc))
  }

  /** A recorded owner really holds the lock, and a holder is recorded. */
  predicate OwnerOk(s: State, k: Key) {
    k in s.owner ==> s.owner[k] < |s.threads| && Holds(s.threads[s.owner[k]], k)
  }

  predicate HolderOk(s: State, i: nat, k: Key)
    requires i < |s.threads|
  {
    Holds(s.threads[i], k) ==> k in s.owner && s.owner[k] == i
  }

  predicate ThreadOk(s: State, i: nat)
    requires i < |s.threads|
  {
    GateOk(s.ready, s.born, s.threads[i]) && FactsOk(s.world, s.born, s.threads[i])
  }

  ghost predicate Inv(s: State) {
    && (forall k :: OwnerOk(s, k))
    && (forall i: nat, k | i < |s.threads| :: HolderOk(s, i, k))
    && (forall i: nat | i < |s.threads| :: ThreadOk(s, i))
    && (s.ready ==> s.born != {})
  }

  // ---------------------------------------------------------------------
  // Preservation
  // ---------------------------------------------------------------------

  /** A command changes nothing but the object it names. */
  lemma CommandFrame(c: Command, w: World, w': World)
    requires Succeeds(c, w, w') || Fails(c, w, w')
    ensures forall n | n != c.name :: Look(w', n) == Look(w, n)
    ensures forall d | d != c.name :: (d in w'.disks <==> d in w.disks) && (d in w.disks ==> w'.disks[d] == w.disks[d])
    ensures if c.CreateDisk? || c.ResizeDisk? || c.DeleteDisk? then w'.instances == w.instances else w'.disks == w.disks
  {
  }

  /** Facts about an object survive whatever leaves the object alone. */
  lemma FactsFrame(t: Thread, w: World, w': World, born: set<string>, born': set<string>)
    requires FactsOk(w, born, t) && born <= born'
    requires Inside(t.pc) ==>
      if t.op.OnDisk() then
        && (t.op.name in w'.disks <==> t.op.name in w.disks)
        && (t.op.name in w.disks ==> w'.disks[t.op.name] == w.disks[t.op.name])
      else Look(w', t.op.name) == Look(w, t.op.name)
    ensures FactsOk(w', born', t)
  {
  }

  lemma DecideGate(t: Thread, w: World)
    ensures Decide(t, w).op == t.op && Decide(t, w).gate == t.gate && Decide(t, w).registered == t.registered
    ensures Inside(Decide(t, w).pc)
  {
  }

  lemma ObservedGate(t: Thread, w: World, ok: bool)
    requires Reads(t.pc)
    ensures var u := Observed(t, w, ok);
      && u.op == t.op && u.gate == t.gate && Inside(u.pc)
      && (u.registered == t.registered || (t.pc.CheckRegistered? && u.registered == (t.op.name in w.instances)))
  {
    if ok && t.pc.Observe? { DecideGate(t, w); }
  }

  lemma GateKeeps(t: Thread, c: Choice, w: World, ready: bool, born: set<string>, born': set<string>)
    requires GateOk(ready, born, t) && FactsOk(w, born, t) && born <= born'
    requires t.pc.InFlight? && t.pc.command.Create? && c.Go? ==> t.op.name in born'
    ensures GateOk(ready || t.pc.PublishReady?, born', Advance(t, c, w, ready))
  {
    if Reads(t.pc) {
      ObservedGate(t, w, c.Go?);
    } else if t.pc.InFlight? {
      ReturnedGate(t, c.Go?);
    }
  }

  lemma ReturnedGate(t: Thread, ok: bool)
    requires t.pc.InFlight?
    ensures var u := Returned(t, ok);
      && u.op == t.op && u.gate == t.gate && Inside(u.pc)
      && u.registered == (t.registered || (ok && t.pc.command.Create?))
  {
  }

  /** After its first read an operation knows what its next command needs. */
  lemma DecideKeeps(t: Thread, w: World, born: set<string>)
    requires FactsOk(w, born, t) && t.pc.Observe?
    ensures FactsOk(w, born, Decide(t, w))
  {
    if t.op.OpResize? { DecideResizeKeeps(t, w, born); } else { DecideOtherKeeps(t, w, born); }
  }

  lemma DecideResizeKeeps(t: Thread, w: World, born: set<string>)
    requires FactsOk(w, born, t) && t.pc.Observe? && t.op.OpResize?
    ensures FactsOk(w, born, Decide(t, w))
  {
  }

  lemma DecideOtherKeeps(t: Thread, w: World, born: set<string>)
    requires FactsOk(w, born, t) && t.pc.Observe? && !t.op.OpResize?
    ensures FactsOk(w, born, Decide(t, w))
  {
  }

  lemma ObservedKeeps(t: Thread, w: World, born: set<string>, ok: bool)
    requires FactsOk(w, born, t) && Reads(t.pc)
    ensures FactsOk(w, born, Observed(t, w, ok))
  {
    if ok && t.pc.Observe? {
      DecideKeeps(t, w, born);
    } else {
      LookKeeps(t, w, born, ok);
    }
  }

  lemma LookKeeps(t: Thread, w: World, born: set<string>, ok: bool)
    requires FactsOk(w, born, t) && Reads(t.pc) && (ok ==> !t.pc.Observe?)
    ensures FactsOk(w, born, Observed(t, w, ok))
  {
  }

  lemma ReturnedKeeps(t: Thread, w: World, w': World, born: set<string>, born': set<string>, ok: bool)
    requires FactsOk(w, born, t) && t.pc.InFlight?
    requires if ok then Succeeds(t.pc.command, w, w') else Fails(t.pc.command, w, w')
    requires born' == if t.pc.command.Create? && t.op.name in w'.instances then born + {t.op.name} else born
    ensures FactsOk(w', born', Returned(t, ok))
  {
    CommandFrame(t.pc.command, w, w');
    if t.op.OpCreate? {
      CreateReturnedKeeps(t, w, w', born, born', ok);
    } else {
      OtherReturnedKeeps(t, w, w', born, born', ok);
    }
  }

  lemma CreateReturnedKeeps(t: Thread, w: World, w': World, born: set<string>, born': set<string>, ok: bool)
    requires FactsOk(w, born, t) && t.pc.InFlight? && t.op.OpCreate?
    requires if ok then Succeeds(t.pc.command, w, w') else Fails(t.pc.command, w, w')
    requires born' == if t.pc.command.Create? && t.op.name in w'.instances then born + {t.op.name} else born
    ensures FactsOk(w', born', Returned(t, ok))
  {
  }

  lemma OtherReturnedKeeps(t: Thread, w: World, w': World, born: set<string>, born': set<string>, ok: bool)
    requires FactsOk(w, born, t) && t.pc.InFlight? && !t.op.OpCreate?
    requires if ok then Succeeds(t.pc.command, w, w') else Fails(t.pc.command, w, w')
    requires born' == born
    ensures FactsOk(w', born', Returned(t, ok))
  {
  }

  /** Two goroutines never hold one lock. */
  lemma OneHolder(s: State, i: nat, j: nat, k: Key)
    requires Inv(s) && i < |s.threads| && j < |s.threads|
    requires Holds(s.threads[i], k) && Holds(s.threads[j], k)
    ensures i == j
  {
    assert HolderOk(s, i, k) && HolderOk(s, j, k);
  }

  /** Everything another goroutine knows stays true. */
  lemma OthersKeep(s: State, ev: Event, j: nat)
    requires Inv(s) && Enabled(s, ev) && j < |s.threads| && j != ev.thread
    ensures Step(s, ev).threads[j] == s.threads[j] && ThreadOk(Step(s, ev), j)
  {
    var t, u := s.threads[ev.thread], s.threads[j];
    assert ThreadOk(s, j) && ThreadOk(s, ev.thread);
    if t.pc.InFlight? {
      CommandFrame(t.pc.command, s.world, ev.choice.world);
      if Inside(u.pc) && u.op.Key() == t.op.Key() {
        OneHolder(s, ev.thread, j, t.op.Key());
      }
      FactsFrame(u, s.world, ev.choice.world, s.born, Step(s, ev).born);
    }
  }

  /** The goroutine that moves knows what it needs at its next counter. */
  lemma MoverKeeps(s: State, ev: Event)
    requires Inv(s) && Enabled(s, ev)
    ensures ThreadOk(Step(s, ev), ev.thread)
  {
    var t := s.threads[ev.thread];
    var s' := Step(s, ev);
    assert ThreadOk(s, ev.thread);
    if t.pc.InFlight? {
      ReturnedKeeps(t, s.world, ev.choice.world, s.born, s'.born, ev.choice.Go?);
    } else if Reads(t.pc) {
      ObservedKeeps(t, s.world, s.born, ev.choice.Go?);
    }
    GateKeeps(t, ev.choice, s.world, s.ready, s.born, s'.born);
  }

  lemma AdvanceHolds(t: Thread, c: Choice, w: World, ready: bool)
    ensures var u := Advance(t, c, w, ready);
      && u.op == t.op
      && (Inside(u.pc) <==> (Inside(t.pc) && !t.pc.Unlock?) || (t.pc.WaitObject? && !c.Cancel?))
      && (u.gate <==> (t.gate && !t.pc.DropHome? && !t.pc.UnlockHome?) || (t.pc.WaitHome? && !c.Cancel?))
  {
    if Reads(t.pc) { ObservedGate(t, w, c.Go?); }
  }

  /** Who holds which lock is recorded correctly after a step. */
  lemma LocksKeep(s: State, ev: Event, k: Key)
    requires Inv(s) && Enabled(s, ev)
    ensures OwnerOk(Step(s, ev), k)
    ensures forall i: nat | i < |s.threads| :: HolderOk(Step(s, ev), i, k)
  {
    var t := s.threads[ev.thread];
    var s' := Step(s, ev);
    assert ThreadOk(s, ev.thread) && OwnerOk(s, k) && HolderOk(s, ev.thread, k);
    AdvanceHolds(t, ev.choice, s.world, s.ready);
    forall i: nat | i < |s.threads| ensures HolderOk(s', i, k) {
      assert HolderOk(s, i, k);
      assert i != ev.thread ==> s'.threads[i] == s.threads[i];
    }
  }

  lemma StepKeeps(s: State, ev: Event)
    requires Inv(s) && Enabled(s, ev)
    ensures Inv(Step(s, ev))
  {
    var s' := Step(s, ev);
    forall k ensures OwnerOk(s', k) { LocksKeep(s, ev, k); }
    forall i: nat, k | i < |s'.threads| ensures HolderOk(s', i, k) { LocksKeep(s, ev, k); }
    forall i: nat | i < |s'.threads| ensures ThreadOk(s', i) {
      if i == ev.thread { MoverKeeps(s, ev); } else { OthersKeep(s, ev, i); }
    }
    assert ThreadOk(s, ev.thread);
  }

  lemma {:induction false} RunKeeps(s: State, trace: seq<Event>)
    requires Inv(s) && Runs(s, trace)
    ensures Inv(After(s, trace))
    decreases |trace|
  {
    if trace != [] {
      StepKeeps(s, trace[0]);
      RunKeeps(Step(s, trace[0]), trace[1..]);
    }
  }

  /** Every state of every run, for any operations on any home. */
  lemma Reached(ops: seq<Op>, w: World, trace: seq<Event>)
    requires Runs(Start(ops, w), trace)
    ensures Inv(After(Start(ops, w), trace))
  {
    forall i: nat | i < |ops| ensures Start(ops, w).threads[i] == Begin(ops[i]) {}
    RunKeeps(Start(ops, w), trace);
  }

  // ---------------------------------------------------------------------
  // Commands fit the state they meet
  // ---------------------------------------------------------------------

  /** Whenever a command is in flight, what was observed before issuing it still
      holds: no edit meets a running instance, no stop a stopped one, no start a
      running one, no create an existing one, no delete a protected one. */
  lemma CommandsJustified(ops: seq<Op>, w: World, trace: seq<Event>, i: nat)
    requires Runs(Start(ops, w), trace) && i < |After(Start(ops, w), trace).threads|
    requires After(Start(ops, w), trace).threads[i].pc.InFlight?
    ensures var s := After(Start(ops, w), trace);
      Justified(s.threads[i].pc.command, s.world) && Issues(s.threads[i].op, s.threads[i].pc.command)
  {
    Reached(ops, w, trace);
    assert ThreadOk(After(Start(ops, w), trace), i);
  }

  /** An edit in flight is the one that the instance's configuration calls for at
      that very moment, although it was worked out before the stop. */
  lemma EditIsUpToDate(ops: seq<Op>, w: World, trace: seq<Event>, i: nat)
    requires Runs(Start(ops, w), trace) && i < |After(Start(ops, w), trace).threads|
    requires var t := After(Start(ops, w), trace).threads[i]; t.pc.InFlight? && t.pc.command.Edit?
    ensures var s := After(Start(ops, w), trace); var t := s.threads[i];
      t.op.OpResize? && t.op.name in s.world.instances
      && t.pc.command == Edit(t.op.name, PlanEdit(t.op.p, s.world.instances[t.op.name].config))
  {
    Reached(ops, w, trace);
    assert ThreadOk(After(Start(ops, w), trace), i);
  }

  /** While a goroutine holds an object's lock, however many steps the others
      take, the object stays as it is. */
  lemma {:induction false} ObjectStable(s: State, trace: seq<Event>, i: nat)
    requires Inv(s) && Runs(s, trace) && i < |s.threads| && Inside(s.threads[i].pc)
    requires forall ev | ev in trace :: ev.thread != i
    ensures var s' := After(s, trace); var op := s.threads[i].op;
      && i < |s'.threads| && s'.threads[i] == s.threads[i]
      && (if op.OnDisk() then
            (op.name in s'.world.disks <==> op.name in s.world.disks)
            && (op.name in s.world.disks ==> s'.world.disks[op.name] == s.world.disks[op.name])
          else Look(s'.world, op.name) == Look(s.world, op.name))
    decreases |trace|
  {
    if trace != [] {
      var ev := trace[0];
      var t, u := s.threads[ev.thread], s.threads[i];
      assert ev in trace && ThreadOk(s, ev.thread);
      OthersKeep(s, ev, i);
      StepKeeps(s, ev);
      if t.pc.InFlight? {
        CommandFrame(t.pc.command, s.world, ev.choice.world);
        if u.op.Key() == t.op.Key() { OneHolder(s, ev.thread, i, u.op.Key()); }
      }
      ObjectStable(Step(s, ev), trace[1..], i);
    }
  }

  // ---------------------------------------------------------------------
  // The first-create gate
  // ---------------------------------------------------------------------

  /** Two creates past the gate at once, in particular two create commands in
      flight at once, means that the shared setup has already happened. */
  lemma ParallelCreatesAreReady(ops: seq<Op>, w: World, trace: seq<Event>, i: nat, j: nat)
    requires Runs(Start(ops, w), trace) && i < j < |After(Start(ops, w), trace).threads|
    requires var s := After(Start(ops, w), trace);
      && s.threads[i].op.OpCreate? && InCreate(s.threads[i].pc)
      && s.threads[j].op.OpCreate? && InCreate(s.threads[j].pc)
    ensures After(Start(ops, w), trace).ready
  {
    var s := After(Start(ops, w), trace);
    Reached(ops, w, trace);
    assert ThreadOk(s, i) && ThreadOk(s, j);
    if s.threads[i].gate && s.threads[j].gate {
      OneHolder(s, i, j, HomeKey);
    }
  }

  /** Until then the one create past the gate holds the home lock. */
  lemma FirstCreateHoldsHome(ops: seq<Op>, w: World, trace: seq<Event>, i: nat)
    requires Runs(Start(ops, w), trace) && i < |After(Start(ops, w), trace).threads|
    requires var s := After(Start(ops, w), trace);
      !s.ready && s.threads[i].op.OpCreate? && InCreate(s.threads[i].pc)
    ensures var s := After(Start(ops, w), trace); HomeKey in s.owner && s.owner[HomeKey] == i
  {
    var s := After(Start(ops, w), trace);
    Reached(ops, w, trace);
    assert ThreadOk(s, i) && HolderOk(s, i, HomeKey);
  }

  /** Readiness is never taken back, and is only ever announced once a create has
      put an instance into the home. */
  lemma ReadyIsEarned(ops: seq<Op>, w: World, trace: seq<Event>, ev: Event)
    requires Runs(Start(ops, w), trace) && Enabled(After(Start(ops, w), trace), ev)
    ensures var s := After(Start(ops, w), trace);
      && (s.ready ==> Step(s, ev).ready && s.born != {})
      && (!s.ready && Step(s, ev).ready ==>
            s.threads[ev.thread].op.OpCreate? && s.threads[ev.thread].op.name in s.born)
  {
    Reached(ops, w, trace);
    assert ThreadOk(After(Start(ops, w), trace), ev.thread);
  }

  // ---------------------------------------------------------------------
  // No deadlock
  // ---------------------------------------------------------------------

  /** The home lock is taken first, and nobody waits for a lock it holds. */
  lemma LockOrder(ops: seq<Op>, w: World, trace: seq<Event>, i: nat, k: Key)
    requires Runs(Start(ops, w), trace) && i < |After(Start(ops, w), trace).threads|
    requires k in After(Start(ops, w), trace).owner && After(Start(ops, w), trace).owner[k] == i
    ensures var t := After(Start(ops, w), trace).threads[i];
      !t.pc.WaitHome? && (t.pc.WaitObject? ==> k == HomeKey && t.op.Key() != HomeKey)
  {
    var s := After(Start(ops, w), trace);
    Reached(ops, w, trace);
    assert OwnerOk(s, k) && ThreadOk(s, i);
  }

  /** A goroutine that is not waiting for a lock can take a step. */
  lemma Moves(s: State, i: nat) returns (ev: Event)
    requires i < |s.threads|
    requires var t := s.threads[i]; !t.pc.Finished? && !t.pc.WaitHome? && !t.pc.WaitObject?
    ensures ev.thread == i && Enabled(s, ev) && !ev.choice.Cancel?
  {
    ev := Event(i, if s.threads[i].pc.InFlight? then Err(s.world) else Go(s.world));
  }

  /** As long as any goroutine is unfinished, one of them can take a step, without
      anybody's context being cancelled, that brings the whole closer to its
      end. */
  lemma NoDeadlock(ops: seq<Op>, w: World, trace: seq<Event>, i: nat) returns (ev: Event)
    requires Runs(Start(ops, w), trace) && i < |After(Start(ops, w), trace).threads|
    requires !After(Start(ops, w), trace).threads[i].pc.Finished?
    ensures var s := After(Start(ops, w), trace);
      Enabled(s, ev) && !ev.choice.Cancel? && TotalRank(Step(s, ev).threads) < TotalRank(s.threads)
  {
    var s := After(Start(ops, w), trace);
    Reached(ops, w, trace);
    ev := Unblocked(s, i);
    StepDrops(s, ev);
  }

  lemma Unblocked(s: State, i: nat) returns (ev: Event)
    requires Inv(s) && i < |s.threads| && !s.threads[i].pc.Finished?
    ensures Enabled(s, ev) && !ev.choice.Cancel?
  {
    var j := i;
    if s.threads[j].pc.WaitHome? {
      ev := Event(j, Go(s.world));
      if HomeKey !in s.owner { return; }
      assert OwnerOk(s, HomeKey);
      j := s.owner[HomeKey];
      assert ThreadOk(s, j);
    }
    if s.threads[j].pc.WaitObject? {
      ev := Event(j, Go(s.world));
      var k := s.threads[j].op.Key();
      if k !in s.owner { return; }
      assert OwnerOk(s, k);
      j := s.owner[k];
    }
    ev := Moves(s, j);
  }

  /** When everybody has finished, every lock has been given back. */
  lemma AllLocksReturned(ops: seq<Op>, w: World, trace: seq<Event>)
    requires Runs(Start(ops, w), trace)
    requires forall t | t in After(Start(ops, w), trace).threads :: t.pc.Finished?
    ensures After(Start(ops, w), trace).owner == map[]
  {
    var s := After(Start(ops, w), trace);
    Reached(ops, w, trace);
    forall i: nat | i < |s.threads| ensures s.threads[i].pc.Finished? && !s.threads[i].gate {
      assert s.threads[i] in s.threads && ThreadOk(s, i);
    }
    forall k ensures k !in s.owner { assert OwnerOk(s, k); }
  }

  // ---------------------------------------------------------------------
  // Bounded work
  // ---------------------------------------------------------------------

  /** How far a goroutine is from being finished. */
  function Rank(t: Thread): nat {
    match t.pc
    case ReadReady => 21
    case WaitHome => 20
    case RecheckReady => 19
    case DropHome => 18
    case WaitObject => 17
    case Observe => 16
    case Validating => 15
    case InFlight(c) =>
      (match c
       case Create(_) => 14
       case Stop(_) => 12
       case Edit(_, _) => 10
       case Start(_) => 8
       case _ => 5)
    case SettleCreated => 13
    case ObserveStop => 13
    case SettleStopped => 11
    case ObserveStart => 9
    case CheckDegraded => 7
    case SettleStarted => 6
    case CheckRegistered => 4
    case SettleGone => 4
    case FinalRead => 4
    case Unlock => 3
    case PublishReady => 2
    case UnlockHome => 1
    case Finished => 0
  }

  lemma DecideDrops(t: Thread, w: World)
    ensures Rank(Decide(t, w)) < 16
  {
  }

  lemma ObservedDrops(t: Thread, w: World, born: set<string>, ok: bool)
    requires Reads(t.pc) && FactsOk(w, born, t)
    ensures Rank(Observed(t, w, ok)) < Rank(t)
  {
    if t.pc.Observe? { DecideDrops(t, w); }
  }

  /** Every step brings a goroutine closer to its end: since a command has its
      effect at once, each wait ends with its first look. */
  lemma RankDrops(t: Thread, c: Choice, w: World, born: set<string>, ready: bool)
    requires !t.pc.Finished? && FactsOk(w, born, t)
    ensures Rank(Advance(t, c, w, ready)) < Rank(t)
  {
    if Reads(t.pc) {
      ObservedDrops(t, w, born, c.Go?);
    } else if t.pc.InFlight? {
      ReturnedDrops(t, w, born, c.Go?);
    }
  }

  lemma ReturnedDrops(t: Thread, w: World, born: set<string>, ok: bool)
    requires t.pc.InFlight? && FactsOk(w, born, t)
    ensures Rank(Returned(t, ok)) < Rank(t)
  {
  }

  function TotalRank(ts: seq<Thread>): nat {
    if ts == [] then 0 else Rank(ts[0]) + TotalRank(ts[1..])
  }

  lemma {:induction false} TotalRankUpdate(ts: seq<Thread>, i: nat, t: Thread)
    requires i < |ts|
    ensures TotalRank(ts[i := t]) == TotalRank(ts) - Rank(ts[i]) + Rank(t)
  {
    if i > 0 {
      assert ts[i := t][1..] == ts[1..][i - 1 := t];
      TotalRankUpdate(ts[1..], i - 1, t);
    }
  }

  lemma StepDrops(s: State, ev: Event)
    requires Inv(s) && Enabled(s, ev)
    ensures TotalRank(Step(s, ev).threads) < TotalRank(s.threads)
  {
    var t := s.threads[ev.thread];
    assert ThreadOk(s, ev.thread);
    TotalRankUpdate(s.threads, ev.thread, Advance(t, ev.choice, s.world, s.ready));
    RankDrops(t, ev.choice, s.world, s.born, s.ready);
  }

  lemma {:induction false} StepsArePaidFor(s: State, trace: seq<Event>)
    requires Inv(s) && Runs(s, trace)
    ensures |trace| + TotalRank(After(s, trace).threads) <= TotalRank(s.threads)
    decreases |trace|
  {
    if trace != [] {
      StepDrops(s, trace[0]);
      StepKeeps(s, trace[0]);
      StepsArePaidFor(Step(s, trace[0]), trace[1..]);
    }
  }

  lemma {:induction false} StartRank(ts: seq<Thread>)
    requires forall t | t in ts :: Rank(t) <= 21
    ensures TotalRank(ts) <= 21 * |ts|
  {
    if ts != [] {
      assert ts[0] in ts;
      StartRank(ts[1..]);
    }
  }

  /** Every run ends: n operations take at most 21 n steps. */
  lemma EveryRunEnds(ops: seq<Op>, w: World, trace: seq<Event>)
    requires Runs(Start(ops, w), trace)
    ensures |trace| <= 21 * |ops|
  {
    Reached(ops, w, []);
    StepsArePaidFor(Start(ops, w), trace);
    StartRank(Start(ops, w).threads);
  }
}
