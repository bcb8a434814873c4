// The Update of internal/provider/instance_resource.go: one apply that clears
// protection, resizes, protects again and records what it did.

module InstanceUpdate {
  import opened Values
  import opened Lima
  import opened Reconcile
  import opened Lifecycle
  import opened Refresh
  import Documents
  import KeyedMerge
  import Paths
  import Sizes

  /** The attributes an update may change, and those that only enter the
      rendered document. */
  datatype Model = Model(protect: Value<bool>, start: Value<bool>,
                         cpus: Value<int>, memory: Value<string>, disk: Value<string>,
                         mounts: Value<seq<MountModel>>, forwards: Value<seq<PortModel>>,
                         disks: Value<seq<string>>, origin: Origin)

  /** Template, raw configuration, overrides, and what is fixed at creation. */
  datatype Origin = Origin(template: string, config: Option<Documents.Source>, overrides: Option<Documents.Source>,
                           vmType: string, arch: string, provision: seq<Documents.Provision>)

  datatype Exit = UnprotectFailed | SizesInvalid | ResizeFailed | RestartFailed | ReprotectFailed | ReadFailed
                | NotRenderable | Updated

  // ---------------------------------------------------------------------
  // The request
  // ---------------------------------------------------------------------

  function CpuChange(planned: Value<int>, current: Value<int>): int {
    if planned.Known? && (current.Null? || planned.v != current.Or(0)) then planned.v else 0
  }

  predicate SizesParse(plan: Model) {
    && (plan.memory.Known? ==> Sizes.ParseSize(plan.memory.v).Bytes?)
    && (plan.disk.Known? ==> Sizes.ParseSize(plan.disk.v).Bytes?)
  }

  /** toRenderRequest: None when a mount location cannot be resolved. */
  function ToRenderRequest(h: Paths.Host, m: Model): Option<Documents.RenderRequest> {
    var list := m.mounts.Or([]);
    if exists i | 0 <= i < |list| :: Paths.ExpandPath(h, list[i].location.Or("")).None? then None
    else
      var mounts := seq(|list|, i requires 0 <= i < |list| =>
        Mount(Paths.ExpandPath(h, list[i].location.Or("")).Or(""), list[i].mountPoint.Or(""),
              list[i].writable.Or(false)));
      var ports := m.forwards.Or([]);
      var forwards := seq(|ports|, i requires 0 <= i < |ports| => AsForward(ports[i]));
      var o := m.origin;
      Some(Documents.RenderRequest(o.template, o.config,
             Documents.Typed([], o.vmType, o.arch, m.cpus.Or(0), m.memory.Or(""), m.disk.Or(""),
                             mounts, forwards, o.provision, m.disks.Or([])),
             o.overrides))
  }

  /** The model has a Lima document, and so a configuration hash. */
  ghost predicate Renderable(h: Paths.Host, m: Model) {
    var request := ToRenderRequest(h, m);
    && request.Some?
    && var r := request.value;
       var base, overlay := Documents.BaseOf(r), Documents.OverlayOf(r);
       && !(r.template != "" && r.config.Some?)
       && base.Some? && overlay.Some?
       && Documents.Configures(Documents.Layered(base.value, r.typed, overlay.value))
  }

  function Planned<T, D>(list: Value<T>, configured: T -> D): Option<D> {
    if list.Known? then Some(configured(list.v)) else None
  }

  /** What Update asks Resize for; None when a size does not parse. */
  function ResizeParams(h: Paths.Host, plan: Model, state: Model): Option<Resize> {
    var memory, disk := Sizes.SizeChange(plan.memory, state.memory), Sizes.SizeChange(plan.disk, state.disk);
    if memory.Invalid? || disk.Invalid? then None
    else Some(Resize(CpuChange(plan.cpus, state.cpus), memory.bytes, disk.bytes,
                     Planned(plan.mounts, list => ConfiguredMounts(h, list)), ConfiguredMounts(h, state.mounts.Or([])),
                     Planned(plan.forwards, ConfiguredForwards), ConfiguredForwards(state.forwards.Or([])),
                     Planned(plan.disks, (list: seq<string>) => list), plan.start.Or(false)))
  }

  // ---------------------------------------------------------------------
  // Protection through one update
  // ---------------------------------------------------------------------

  /** How the service calls of one update came out. */
  datatype Replies = Replies(unprotected: bool, resized: ResizeOutcome, reprotected: bool, read: bool)

  /** Where an update stopped, Lima's flag then, and the flag in state then. */
  datatype Ending = Ending(exit: Exit, actual: bool, recorded: bool)

  function Course(have: bool, want: bool, parse: bool, renderable: bool, r: Replies): Ending {
    var cleared := have && want;
    if have && !want && !r.unprotected then Ending(UnprotectFailed, have, have)
    else if !parse then Ending(SizesInvalid, cleared, have)
    else Apply(have, want, cleared, renderable, r)
  }

  /** From the resize on. */
  function Apply(have: bool, want: bool, cleared: bool, renderable: bool, r: Replies): Ending {
    if r.resized.Failed? then Ending(ResizeFailed, cleared, cleared)
    else if r.resized.RestartFailed? then Ending(Exit.RestartFailed, cleared, cleared)
    else Finish(have, want, cleared, renderable, r)
  }

  /** The rest of an update, once the resize is done. */
  function Finish(have: bool, want: bool, cleared: bool, renderable: bool, r: Replies): Ending {
    if want && !cleared && !r.reprotected then Ending(ReprotectFailed, cleared, cleared)
    else if !r.read then Ending(ReadFailed, cleared || want, cleared || want)
    else if !renderable then Ending(NotRenderable, cleared || want, have)
    else Ending(Updated, cleared || want, cleared || want)
  }

  predicate Truthful(e: Ending) { e.recorded == e.actual }

  /** State tells the truth about protection, however the calls come out,
      exactly when protection does not change, or the plan can be rendered and,
      where protection is lifted, its sizes parse. */
  lemma RecordedExactly(have: bool, want: bool, parse: bool, renderable: bool)
    ensures (forall r :: Truthful(Course(have, want, parse, renderable, r)))
       <==> (have == want || (if want then !parse || renderable else parse && renderable))
  {
    var smooth := Replies(true, ResizeOutcome.Done, true, true);
    assert have != want && !(if want then !parse || renderable else parse && renderable) ==>
             !Truthful(Course(have, want, parse, renderable, smooth));
  }

  // ---------------------------------------------------------------------
  // The refresh after an update
  // ---------------------------------------------------------------------

  /** applyObservedConfig for cpus. */
  function ObservedCpus(configured: Value<int>, observed: int): Value<int> {
    if configured.Null? || observed <= 0 then configured else Known(observed)
  }

  /** The recorded numbers are what Lima has, where anything is recorded. */
  predicate NumbersAccurate(state: Model, c: Config) {
    && (state.cpus.Known? ==> state.cpus.v == c.cpus)
    && (state.memory.Known? ==> Sizes.ParseSize(state.memory.v) == Sizes.Bytes(c.memory))
    && (state.disk.Known? ==> Sizes.ParseSize(state.disk.v) == Sizes.Bytes(c.disk))
    && !state.cpus.Unknown? && !state.memory.Unknown? && !state.disk.Unknown?
  }

  /** The size was written just as Lima's own value prints. */
  predicate SpelledAs(size: string, bytes: int) { bytes > 0 && size == Sizes.FormatSize(bytes) }

  lemma SizeRefreshed(planned: Value<string>, current: Value<string>, before: int)
    requires planned.Known? ==> Sizes.ParseSize(planned.v).Bytes?
    requires !current.Unknown? && (current.Known? ==> Sizes.ParseSize(current.v) == Sizes.Bytes(before))
    ensures var change := Sizes.SizeChange(planned, current);
      change.Change?
      && (planned.Known? ==>
            (Sizes.ObservedSize(planned, Pick(change.bytes, before)) == planned <==> SizeSurvives(planned, before)))
  {
  }

  /** A planned size could be applied, or is what Lima's own value prints as. */
  predicate SizeSurvives(planned: Value<string>, before: int) {
    planned.Known? && Sizes.ParseSize(planned.v).Bytes? ==>
      Sizes.ParseSize(planned.v).n > 0 || before <= 0 || SpelledAs(planned.v, before)
  }

  /** Refreshing after an update that went through gives the planned numbers and
      sizes back, in the user's spelling. */
  lemma NumbersRefreshed(h: Paths.Host, plan: Model, state: Model, before: Config, after: Config)
    requires SizesParse(plan) && Achieved(ResizeParams(h, plan, state).value, before, after)
    requires NumbersAccurate(state, before)
    ensures plan.cpus.Known? ==>
      (ObservedCpus(plan.cpus, after.cpus) == plan.cpus <==> plan.cpus.v > 0 || before.cpus <= 0)
    ensures plan.memory.Known? ==>
      (Sizes.ObservedSize(plan.memory, after.memory) == plan.memory <==> SizeSurvives(plan.memory, before.memory))
    ensures plan.disk.Known? ==>
      (Sizes.ObservedSize(plan.disk, after.disk) == plan.disk <==> SizeSurvives(plan.disk, before.disk))
  {
    SizeRefreshed(plan.memory, state.memory, before.memory);
    SizeRefreshed(plan.disk, state.disk, before.disk);
  }

  /** The planned mounts come back exactly when each agrees with Lima's mount at
      the first planned one for its location. */
  lemma MountsRefreshed(h: Paths.Host, plan: Model, state: Model, before: Config, after: Config)
    requires ResizeParams(h, plan, state).Some? && Achieved(ResizeParams(h, plan, state).value, before, after)
    requires plan.mounts.Known? && forall m | m in plan.mounts.v :: Applicable(h, m)
    ensures forall d | d in plan.mounts.v :: 0 <= FirstMount(h, plan.mounts.v, d) < |after.mounts|
    ensures ObservedMounts(h, after, plan.mounts.v) == plan.mounts.v
       <==> forall d | d in plan.mounts.v :: MountAgrees(d, after.mounts[FirstMount(h, plan.mounts.v, d)])
  {
    MountsPlanClean(h, before, ConfiguredMounts(h, state.mounts.Or([])), plan.mounts.v, after);
  }

  /** The planned forwards come back exactly when each that sets a host port sets
      the one Lima has at the first planned forward for its guest port. */
  lemma ForwardsRefreshed(h: Paths.Host, plan: Model, state: Model, before: Config, after: Config)
    requires ResizeParams(h, plan, state).Some? && Achieved(ResizeParams(h, plan, state).value, before, after)
    requires plan.forwards.Known? && forall p | p in plan.forwards.v :: ApplicablePort(p)
    ensures forall d | d in plan.forwards.v :: 0 <= FirstForward(plan.forwards.v, d) < |after.forwards|
    ensures ObservedForwards(after, plan.forwards.v) == plan.forwards.v
       <==> forall d | d in plan.forwards.v :: ForwardAgrees(d, after.forwards[FirstForward(plan.forwards.v, d)])
  {
    ForwardsPlanClean(before, ConfiguredForwards(state.forwards.Or([])), plan.forwards.v, after);
  }

  // ---------------------------------------------------------------------
  // What state says of the configuration on every exit
  // ---------------------------------------------------------------------

  /** A refresh of the model finds nothing to correct in its configuration. */
  predicate Recorded(h: Paths.Host, m: Model, c: Config) {
    && NumbersRecorded(m, c)
    && (m.mounts.Known? ==> ObservedMounts(h, c, m.mounts.v) == m.mounts.v)
    && (m.forwards.Known? ==> ObservedForwards(c, m.forwards.v) == m.forwards.v)
    && (m.disks.Known? ==> m.disks.v == c.disks)
  }

  predicate NumbersRecorded(m: Model, c: Config) {
    && ObservedCpus(m.cpus, c.cpus) == m.cpus
    && Sizes.ObservedSize(m.memory, c.memory) == m.memory
    && Sizes.ObservedSize(m.disk, c.disk) == m.disk
  }

  /** What the schema leaves of recorded lists. */
  predicate ListsApplicable(h: Paths.Host, m: Model) {
    && (m.mounts.Known? ==> forall d | d in m.mounts.v :: Applicable(h, d))
    && (m.forwards.Known? ==> forall d | d in m.forwards.v :: ApplicablePort(d))
  }

  // The plan leaves alone what state records, attribute by attribute.

  predicate CpusKept(plan: Model, state: Model) {
    state.cpus.Known? && plan.cpus.Known? ==> plan.cpus.v <= 0 || plan.cpus.v == state.cpus.v
  }

  predicate NumbersKept(plan: Model, state: Model, before: Config) {
    CpusKept(plan, state)
    && SizeKept(plan.memory, state.memory, before.memory) && SizeKept(plan.disk, state.disk, before.disk)
  }

  predicate SizeKept(planned: Value<string>, current: Value<string>, before: int) {
    current.Known? && planned.Known? && Sizes.ParseSize(planned.v).Bytes? ==>
      var want := Sizes.ParseSize(planned.v).n;
      want <= 0 || want == before || SpelledAs(current.v, want)
  }

  /** Every recorded mount is still asked for by the list the edit writes. */
  predicate MountsKept(h: Paths.Host, state: Model, edit: Option<seq<Mount>>) {
    state.mounts.Known? && edit.Some? ==>
      forall d | d in state.mounts.v :: MountKept(h, d, edit.value)
  }

  predicate MountKept(h: Paths.Host, d: MountModel, written: seq<Mount>) {
    var j := KeyedMerge.IndexOf(MountKey, written, MountKey(AsMount(h, d)));
    j >= 0 && SameMeaning(AsMount(h, d), written[j])
  }

  /** Every recorded forward is still in the list the edit writes, with its host
      port at that place of `got`. */
  predicate ForwardsKept(state: Model, edit: Option<seq<PortForward>>, got: seq<PortForward>) {
    state.forwards.Known? && edit.Some? ==>
      forall d | d in state.forwards.v :: PortFound(d, edit.value, got)
  }

  predicate DisksKept(plan: Model, state: Model) {
    state.disks.Known? && plan.disks.Known? ==> plan.disks.v == state.disks.v
  }

  lemma SizeStaysRecorded(planned: Value<string>, current: Value<string>, before: int)
    requires !current.Unknown? && (current.Known? ==> Sizes.ParseSize(current.v) == Sizes.Bytes(before))
    requires planned.Known? ==> Sizes.ParseSize(planned.v).Bytes?
    ensures var change := Sizes.SizeChange(planned, current);
      change.Change?
      && (Sizes.ObservedSize(current, Pick(Changed(change.bytes, before), before)) == current
          <==> SizeKept(planned, current, before))
  {
  }

  lemma {:induction false} MountStaysRecorded(h: Paths.Host, d: MountModel, written: seq<Mount>, c: Config)
    requires Applicable(h, d) && MountsResolve(written, c.mounts)
    ensures ObservedMount(h, c, d) == Some(d) <==> MountKept(h, d, written)
  {
    var j := KeyedMerge.IndexOf(MountKey, written, MountKey(AsMount(h, d)));
    SameLocations(written, c.mounts);
    assert j < 0 ==> forall k | 0 <= k < |c.mounts| :: MountKey(c.mounts[k]) != MountKey(AsMount(h, d));
    if j >= 0 {
      FindsAt(c.mounts, j, Location(h, d).value);
      AgreesAsWritten(h, d, written[j], c.mounts[j]);
      FoundAgrees(h, d, c, c.mounts[j]);
    }
  }

  lemma SameLocations(written: seq<Mount>, got: seq<Mount>)
    requires MountsResolve(written, got)
    ensures forall k | 0 <= k < |written| :: MountKey(got[k]) == MountKey(written[k])
  {
    forall k | 0 <= k < |written| ensures MountKey(got[k]) == MountKey(written[k]) {
      assert MountResolves(written[k], got[k]);
    }
  }

  lemma FoundAgrees(h: Paths.Host, d: MountModel, c: Config, got: Mount)
    requires Applicable(h, d) && FindMount(c.mounts, Location(h, d).value) == Some(got)
    ensures ObservedMount(h, c, d) == Some(d) <==> MountAgrees(d, got)
  {
  }

  lemma {:induction false} MountsStayRecorded(h: Paths.Host, state: Model, edit: Option<seq<Mount>>,
                                              before: Config, after: Config)
    requires state.mounts.Known? && forall d | d in state.mounts.v :: Applicable(h, d)
    requires ObservedMounts(h, before, state.mounts.v) == state.mounts.v
    requires match edit case None => after.mounts == before.mounts case Some(m) => MountsResolve(m, after.mounts)
    ensures ObservedMounts(h, after, state.mounts.v) == state.mounts.v <==> MountsKept(h, state, edit)
  {
    if edit.None? {
      ObservedFromMounts(h, after, before, state.mounts.v);
    } else {
      forall d | d in state.mounts.v
        ensures ObservedMount(h, after, d) == Some(d) <==> MountKept(h, d, edit.value)
      {
        MountStaysRecorded(h, d, edit.value, after);
      }
      RefreshedAll(h, after, state.mounts.v);
    }
  }

  lemma {:induction false} ForwardsStayRecorded(state: Model, edit: Option<seq<PortForward>>,
                                                before: Config, after: Config)
    requires state.forwards.Known? && forall d | d in state.forwards.v :: ApplicablePort(d)
    requires ObservedForwards(before, state.forwards.v) == state.forwards.v
    requires match edit
             case None => after.forwards == before.forwards
             case Some(f) => ForwardsResolve(f, after.forwards)
    ensures ObservedForwards(after, state.forwards.v) == state.forwards.v <==> ForwardsKept(state, edit, after.forwards)
  {
    if edit.None? {
      ObservedFromForwards(after, before, state.forwards.v);
    } else {
      forall d | d in state.forwards.v
        ensures ObservedForward(after, d) == Some(d) <==> PortFound(d, edit.value, after.forwards)
      {
        ForwardAsWritten(d, edit.value, after);
      }
      RefreshedAllPorts(after, state.forwards.v);
    }
  }

  /** What the plan and the recorded state must have in common for state to stay
      right when the edit goes through and is not recorded, the host ports being
      those of `got`. */
  predicate KeptWith(h: Paths.Host, plan: Model, state: Model, before: Config, got: seq<PortForward>)
    requires ResizeParams(h, plan, state).Some?
  {
    var params := ResizeParams(h, plan, state).value;
    && NumbersKept(plan, state, before)
    && MountsKept(h, state, PlanMounts(params, before))
    && ForwardsKept(state, PlanForwards(params, before), got)
    && DisksKept(plan, state)
  }

  /** The host ports being those that the edit asks for. */
  predicate Kept(h: Paths.Host, plan: Model, state: Model, before: Config)
    requires ResizeParams(h, plan, state).Some?
  {
    KeptWith(h, plan, state, before, PlanForwards(ResizeParams(h, plan, state).value, before).Or([]))
  }

  /** State that was right and is not rewritten is right after an edit exactly when
      the plan keeps everything that was recorded. */
  lemma {:induction false} StaleOutcome(h: Paths.Host, plan: Model, state: Model, before: Config, after: Config)
    requires SizesParse(plan)
    requires Edited(before, PlanEdit(ResizeParams(h, plan, state).value, before), after)
    requires Recorded(h, state, before) && NumbersAccurate(state, before) && ListsApplicable(h, state)
    ensures Recorded(h, state, after) <==> KeptWith(h, plan, state, before, after.forwards)
  {
    NumbersStay(h, plan, state, before, after);
    var params := ResizeParams(h, plan, state).value;
    if state.mounts.Known? { MountsStayRecorded(h, state, PlanMounts(params, before), before, after); }
    if state.forwards.Known? { ForwardsStayRecorded(state, PlanForwards(params, before), before, after); }
  }

  /** What Lima has once the edit went through. */
  predicate Applied(h: Paths.Host, plan: Model, state: Model, before: Config, after: Config) {
    ResizeParams(h, plan, state).Some? && Edited(before, PlanEdit(ResizeParams(h, plan, state).value, before), after)
  }

  /** Whatever Lima fills in: a condition known before the update. */
  lemma {:induction false} StaleExactly(h: Paths.Host, plan: Model, state: Model, before: Config)
    requires SizesParse(plan)
    requires Recorded(h, state, before) && NumbersAccurate(state, before) && ListsApplicable(h, state)
    ensures (forall after | Applied(h, plan, state, before, after) :: Recorded(h, state, after))
       <==> Kept(h, plan, state, before)
  {
    SizeStaysRecorded(plan.memory, state.memory, before.memory);
    SizeStaysRecorded(plan.disk, state.disk, before.disk);
    var plain := PlainEdit(before, PlanEdit(ResizeParams(h, plan, state).value, before));
    var written := PlanForwards(ResizeParams(h, plan, state).value, before);
    assert Applied(h, plan, state, before, plain);
    forall after | Applied(h, plan, state, before, after)
      ensures Recorded(h, state, after) <==> KeptWith(h, plan, state, before, after.forwards)
    {
      StaleOutcome(h, plan, state, before, after);
    }
    if state.forwards.Known? && written.Some? {
      forall got | ForwardsResolve(written.value, got)
        ensures Applied(h, plan, state, before, plain.(forwards := got))
      {
      }
      forall d | d in state.forwards.v { ForwardWhateverPorts(d, written.value); }
      if forall after | Applied(h, plan, state, before, after) :: Recorded(h, state, after) {
        forall d, got | d in state.forwards.v && ForwardsResolve(written.value, got)
          ensures PortFound(d, written.value, got)
        {
          assert Recorded(h, state, plain.(forwards := got));
        }
      }
    }
  }

  lemma {:induction false} NumbersStay(h: Paths.Host, plan: Model, state: Model, before: Config, after: Config)
    requires SizesParse(plan) && NumbersAccurate(state, before)
    requires Edited(before, PlanEdit(ResizeParams(h, plan, state).value, before), after)
    ensures NumbersRecorded(state, after) <==> NumbersKept(plan, state, before)
  {
    SizeStaysRecorded(plan.memory, state.memory, before.memory);
    SizeStaysRecorded(plan.disk, state.disk, before.disk);
  }

  /** What an exit leaves in state, apart from protection and run state. */
  function LeftInState(exit: Exit, plan: Model, state: Model): Model {
    if exit in {Exit.RestartFailed, Updated} then plan else state
  }

  // What a recorded plan needs to survive a refresh.

  /** Its numbers could be applied. */
  predicate NumbersSurvive(plan: Model, before: Config) {
    && (plan.cpus.Known? ==> plan.cpus.v > 0 || before.cpus <= 0)
    && SizeSurvives(plan.memory, before.memory) && SizeSurvives(plan.disk, before.disk)
  }

  /** Its mounts do not contradict each other, or, when they need no edit, what
      Lima has. */
  predicate MountsSurvive(h: Paths.Host, plan: Model, edited: bool, before: Config) {
    plan.mounts.Known? ==>
      if edited then Consistent(h, plan.mounts.v) else MountsHold(h, plan.mounts.v, before.mounts)
  }

  predicate MountsHold(h: Paths.Host, list: seq<MountModel>, got: seq<Mount>) {
    forall d | d in list :: var j := FirstMount(h, list, d); 0 <= j < |got| && MountAgrees(d, got[j])
  }

  /** Likewise its forwards. */
  predicate ForwardsSurvive(plan: Model, edited: bool, before: Config) {
    plan.forwards.Known? ==>
      if edited then PortsConsistent(plan.forwards.v) else ForwardsHold(plan.forwards.v, before.forwards)
  }

  predicate ForwardsHold(list: seq<PortModel>, got: seq<PortForward>) {
    forall d | d in list :: var j := FirstForward(list, d); 0 <= j < |got| && ForwardAgrees(d, got[j])
  }

  predicate Survives(h: Paths.Host, plan: Model, state: Model, before: Config)
    requires ResizeParams(h, plan, state).Some?
  {
    var params := ResizeParams(h, plan, state).value;
    && NumbersSurvive(plan, before)
    && MountsSurvive(h, plan, PlanMounts(params, before).Some?, before)
    && ForwardsSurvive(plan, PlanForwards(params, before).Some?, before)
  }

  lemma NumbersSurviveExactly(h: Paths.Host, plan: Model, state: Model, before: Config, after: Config)
    requires SizesParse(plan) && Achieved(ResizeParams(h, plan, state).value, before, after)
    requires NumbersAccurate(state, before)
    requires !plan.cpus.Unknown? && !plan.memory.Unknown? && !plan.disk.Unknown?
    ensures NumbersRecorded(plan, after) <==> NumbersSurvive(plan, before)
  {
    NumbersRefreshed(h, plan, state, before, after);
  }

  /** A recorded plan is right after an edit exactly when its numbers and mounts
      survive and Lima's host ports are the planned ones. */
  lemma {:induction false} SurvivesOutcome(h: Paths.Host, plan: Model, state: Model, before: Config, after: Config)
    requires SizesParse(plan) && Applied(h, plan, state, before, after)
    requires NumbersAccurate(state, before) && ListsApplicable(h, plan)
    requires !plan.cpus.Unknown? && !plan.memory.Unknown? && !plan.disk.Unknown?
    ensures var params := ResizeParams(h, plan, state).value;
      Recorded(h, plan, after) <==>
      && NumbersSurvive(plan, before)
      && MountsSurvive(h, plan, PlanMounts(params, before).Some?, before)
      && (plan.forwards.Known? ==> ForwardsHold(plan.forwards.v, after.forwards))
  {
    PlanAchieves(ResizeParams(h, plan, state).value, before, after);
    NumbersSurviveExactly(h, plan, state, before, after);
    if plan.mounts.Known? { MountsSurviveExactly(h, plan, state, before, after); }
    if plan.forwards.Known? { ForwardsRefreshed(h, plan, state, before, after); }
  }

  lemma {:induction false} MountsSurviveExactly(h: Paths.Host, plan: Model, state: Model, before: Config, after: Config)
    requires Applied(h, plan, state, before, after)
    requires plan.mounts.Known? && forall m | m in plan.mounts.v :: Applicable(h, m)
    ensures ObservedMounts(h, after, plan.mounts.v) == plan.mounts.v
       <==> MountsSurvive(h, plan, PlanMounts(ResizeParams(h, plan, state).value, before).Some?, before)
  {
    var previous := ConfiguredMounts(h, state.mounts.Or([]));
    if PlanMounts(ResizeParams(h, plan, state).value, before).Some? {
      AppliedMountsPlanClean(h, before, previous, plan.mounts.v, after);
    } else {
      MountsPlanClean(h, before, previous, plan.mounts.v, after);
    }
  }

  /** Whatever Lima fills in: a condition known before the update. */
  lemma {:induction false} SurvivesExactly(h: Paths.Host, plan: Model, state: Model, before: Config)
    requires SizesParse(plan) && NumbersAccurate(state, before) && ListsApplicable(h, plan)
    requires !plan.cpus.Unknown? && !plan.memory.Unknown? && !plan.disk.Unknown?
    ensures ResizeParams(h, plan, state).Some?
    ensures (forall after | Applied(h, plan, state, before, after) :: Recorded(h, plan, after))
       <==> Survives(h, plan, state, before)
  {
    SizeStaysRecorded(plan.memory, state.memory, before.memory);
    SizeStaysRecorded(plan.disk, state.disk, before.disk);
    var params := ResizeParams(h, plan, state).value;
    var plain := PlainEdit(before, PlanEdit(params, before));
    assert Applied(h, plan, state, before, plain);
    forall after | Applied(h, plan, state, before, after)
      ensures Recorded(h, plan, after) <==>
        && NumbersSurvive(plan, before)
        && MountsSurvive(h, plan, PlanMounts(params, before).Some?, before)
        && (plan.forwards.Known? ==> ForwardsHold(plan.forwards.v, after.forwards))
    {
      SurvivesOutcome(h, plan, state, before, after);
    }
    if plan.forwards.Known? && PlanForwards(params, before).Some? {
      ForwardsSurviveExactly(h, plan, state, before, plain);
    }
  }

  /** Over everything Lima may make of the forwards the edit writes. */
  lemma {:induction false} ForwardsSurviveExactly(h: Paths.Host, plan: Model, state: Model,
                                                  before: Config, after: Config)
    requires Applied(h, plan, state, before, after)
    requires plan.forwards.Known? && forall p | p in plan.forwards.v :: ApplicablePort(p)
    requires PlanForwards(ResizeParams(h, plan, state).value, before).Some?
    ensures (forall c | Applied(h, plan, state, before, c) :: ForwardsHold(plan.forwards.v, c.forwards))
       <==> PortsConsistent(plan.forwards.v)
  {
    var list, previous := plan.forwards.v, ConfiguredForwards(state.forwards.Or([]));
    var written := MergeForwards(before.forwards, previous, ConfiguredForwards(list));
    AppliedForwardsPlanClean(before, previous, list);
    forall c: Config | ForwardsResolve(written, c.forwards)
      ensures ObservedForwards(c, list) == list <==> ForwardsHold(list, c.forwards)
    {
      ForwardsPlanClean(before, previous, list, c);
    }
    forall c: Config | ForwardsResolve(written, c.forwards)
      ensures Applied(h, plan, state, before, after.(forwards := c.forwards))
    {
    }
  }

  /** What Lima has at an exit: the edit is made by every exit from a failed
      restart on. */
  predicate LeftInEffect(h: Paths.Host, exit: Exit, plan: Model, state: Model, before: Config, after: Config) {
    if exit in {UnprotectFailed, SizesInvalid, ResizeFailed} then after == before
    else SizesParse(plan) && Applied(h, plan, state, before, after)
  }

  /** On which exits state is right about the configuration, whatever Lima fills
      in: always when the edit was not made; when the plan was recorded, exactly
      when the plan survives a refresh; and when it was not, exactly when the plan
      keeps everything that was recorded.  Either is known before the update. */
  lemma {:induction false} ConfigurationRecorded(h: Paths.Host, exit: Exit, plan: Model, state: Model, before: Config)
    requires Recorded(h, state, before) && NumbersAccurate(state, before) && ListsApplicable(h, state)
    requires ListsApplicable(h, plan) && !plan.cpus.Unknown? && !plan.memory.Unknown? && !plan.disk.Unknown?
    requires exit !in {UnprotectFailed, SizesInvalid, ResizeFailed} ==> SizesParse(plan)
    ensures SizesParse(plan) ==> ResizeParams(h, plan, state).Some?
    ensures (forall after | LeftInEffect(h, exit, plan, state, before, after) ::
               Recorded(h, LeftInState(exit, plan, state), after)) <==>
            if exit in {UnprotectFailed, SizesInvalid, ResizeFailed} then true
            else if exit in {Exit.RestartFailed, Updated} then Survives(h, plan, state, before)
            else Kept(h, plan, state, before)
  {
    if SizesParse(plan) {
      SurvivesExactly(h, plan, state, before);
      StaleExactly(h, plan, state, before);
    }
    var none := {UnprotectFailed, SizesInvalid, ResizeFailed};
    assert exit !in none ==>
      forall after :: LeftInEffect(h, exit, plan, state, before, after) <==> Applied(h, plan, state, before, after);
  }

  // ---------------------------------------------------------------------
  // The method
  // ---------------------------------------------------------------------

  class InstanceResource {
    const service: Service
    const host: Paths.Host
    const name: string
    /** The recorded state; an update that writes nothing leaves it. */
    var state: Model

    constructor (service: Service, host: Paths.Host, name: string, state: Model)
      ensures this.service == service && this.host == host && this.name == name && this.state == state
    {
      this.service, this.host, this.name, this.state := service, host, name, state;
    }

    /** Writes state when the flag in effect is not the recorded one. */
    method RecordProtection(actual: bool)
      modifies this
      ensures state.protect.Or(false) == actual
      ensures state == old(state) || state == old(state).(protect := Known(actual))
    {
      if actual != state.protect.Or(false) { state := state.(protect := Known(actual)); }
    }

    /** State after an edit that was applied without the machine coming back. */
    method RecordAppliedResize(plan: Model, protection: bool)
      modifies this, service.home`trouble
      ensures old(service.home.trouble) ==> service.home.trouble
      ensures state == plan.(protect := Known(protection), start := state.start)
      ensures state.start == Known(true) ==>
        name in service.home.instances && service.home.instances[name].status.Running?
      ensures state.start in {Known(true), Known(false)}
    {
      var reply := service.home.Inspect(name);
      state := plan.(protect := Known(protection), start := Known(reply.Found? && reply.inst.status.Running?));
    }

    /** Whether the model renders; the document itself only goes into the hash. */
    method HasDocument(m: Model) returns (ok: bool)
      ensures ok <==> Renderable(host, m)
    {
      var request := ToRenderRequest(host, m);
      if request.None? { return false; }
      var rendered := Documents.Render(request.value);
      ok := rendered.Document?;
    }

    /** Everything in the home but this instance. */
    ghost function Others(): World
      reads this, service.home
    {
      World(service.home.instances - {name}, service.home.disks)
    }

    ghost predicate Registered()
      reads this, service.home
    {
      name in service.home.instances
    }

    ghost function Actual(): Instance
      requires Registered()
      reads this, service.home
    {
      service.home.instances[name]
    }

    method Update(plan: Model) returns (exit: Exit, ghost replies: Replies)
      modifies this, service.home
      ensures Others() == old(Others())
      // with nothing going wrong, how far an update gets
      ensures old(Registered()) && !service.home.trouble ==>
        exit == if !SizesParse(plan) then SizesInvalid
                else if !CanResize(ResizeParams(host, plan, old(state)).value, old(Actual())) then ResizeFailed
                else if !Renderable(host, plan) then NotRenderable
                else Updated
      // protection
      ensures old(Registered() && Actual().protected == state.protect.Or(false)) ==>
        (&& Registered()
         && Ending(exit, Actual().protected, state.protect.Or(false))
            == Course(old(state.protect.Or(false)), plan.protect.Or(false), SizesParse(plan), Renderable(host, plan),
                      replies))
      // configuration
      ensures exit in {UnprotectFailed, SizesInvalid, ResizeFailed} ==>
        state == old(state).(protect := state.protect)
        && (old(Registered()) ==> Registered() && Actual().config == old(Actual().config))
      ensures exit in {Exit.RestartFailed, ReprotectFailed, ReadFailed, NotRenderable, Updated} ==>
        && old(Registered()) && Registered() && SizesParse(plan)
        && var params := ResizeParams(host, plan, old(state)).value;
        && Edited(old(Actual().config), PlanEdit(params, old(Actual().config)), Actual().config)
        && Achieved(params, old(Actual().config), Actual().config)
      ensures exit in {ReprotectFailed, ReadFailed, NotRenderable} ==> state == old(state).(protect := state.protect)
      ensures (&& exit in {ReprotectFailed, ReadFailed, NotRenderable, Updated}
               && old(Actual().status) in {Running, Stopped}) ==>
        Actual().status == RunState(plan.start.Or(false))
      ensures exit in {ReprotectFailed, ReadFailed, NotRenderable, Updated} ==>
        (Actual().status.Running? <==> plan.start.Or(false))
      ensures exit in {Exit.RestartFailed, Updated} ==> state == plan.(protect := state.protect, start := state.start)
      ensures exit.RestartFailed? && state.start == Known(true) ==> Actual().status.Running?
      ensures exit.Updated? ==> state.start == plan.start
    {
      var want := plan.protect.Or(false);
      var protection := state.protect.Or(false);
      replies := Replies(true, ResizeOutcome.Done, true, true);
      if !want && protection {
        var ok := service.SetProtection(name, false);
        if !ok { return UnprotectFailed, replies.(unprotected := false); }
        protection := false;
      }
      var params := ResizeParams(host, plan, state);
      if params.None? { return SizesInvalid, replies; }
      exit, replies := ApplyUpdate(plan, params.value, protection);
    }

    /** Resizes, and records how that went. */
    method ApplyUpdate(plan: Model, params: Resize, protection: bool) returns (exit: Exit, ghost replies: Replies)
      requires params.running == plan.start.Or(false)
      modifies this, service.home
      ensures old(service.home.trouble) ==> service.home.trouble
      ensures Others() == old(Others())
      ensures replies.unprotected && exit !in {UnprotectFailed, SizesInvalid}
      ensures old(Registered()) && !service.home.trouble ==>
        exit == if !CanResize(params, old(Actual())) then ResizeFailed
                else if !Renderable(host, plan) then NotRenderable
                else Updated
      ensures old(Registered()) && old(Actual().protected) == protection ==>
        (&& Registered()
         && Ending(exit, Actual().protected, state.protect.Or(false))
            == Apply(old(state.protect.Or(false)), plan.protect.Or(false), protection, Renderable(host, plan), replies))
      ensures exit.ResizeFailed? ==>
        state == old(state).(protect := state.protect)
        && (old(Registered()) ==> Registered() && Actual().config == old(Actual().config))
      ensures !exit.ResizeFailed? ==>
        && old(Registered()) && Registered()
        && Edited(old(Actual().config), PlanEdit(params, old(Actual().config)), Actual().config)
        && Achieved(params, old(Actual().config), Actual().config)
      ensures exit in {ReprotectFailed, ReadFailed, NotRenderable} ==> state == old(state).(protect := state.protect)
      ensures (&& exit in {ReprotectFailed, ReadFailed, NotRenderable, Updated}
               && old(Actual().status) in {Running, Stopped}) ==>
        Actual().status == RunState(params.running)
      ensures exit in {ReprotectFailed, ReadFailed, NotRenderable, Updated} ==>
        (Actual().status.Running? <==> params.running)
      ensures exit in {Exit.RestartFailed, Updated} ==> state == plan.(protect := state.protect, start := state.start)
      ensures exit.RestartFailed? && state.start == Known(true) ==> Actual().status.Running?
      ensures exit.Updated? ==> state.start == plan.start
    {
      replies := Replies(true, ResizeOutcome.Done, true, true);
      ghost var issued;
      var resized;
      resized, issued := service.Resize(name, params);
      replies := replies.(resized := resized);
      if resized.RestartFailed? {
        RecordAppliedResize(plan, protection);
        return Exit.RestartFailed, replies;
      }
      if resized.Failed? {
        RecordProtection(protection);
        return ResizeFailed, replies;
      }
      exit, replies := FinishUpdate(plan, protection);
    }

    /** Protects again if wanted, reads the instance and records the plan. */
    method FinishUpdate(plan: Model, protection: bool) returns (exit: Exit, ghost replies: Replies)
      requires Registered()
      modifies this, service.home
      ensures old(service.home.trouble) ==> service.home.trouble
      ensures Others() == old(Others())
      ensures !service.home.trouble ==> exit == if Renderable(host, plan) then Updated else NotRenderable
      ensures replies.unprotected && replies.resized.Done?
      ensures Registered() && Actual() == old(Actual()).(protected := Actual().protected)
      ensures old(Actual().protected) == protection ==>
        Ending(exit, Actual().protected, state.protect.Or(false))
        == Finish(old(state.protect.Or(false)), plan.protect.Or(false), protection, Renderable(host, plan), replies)
      ensures exit in {ReprotectFailed, ReadFailed, NotRenderable, Updated}
      ensures !exit.Updated? ==> state == old(state).(protect := state.protect)
      ensures exit.Updated? ==> state == plan.(protect := state.protect)
    {
      var want, flag := plan.protect.Or(false), protection;
      replies := Replies(true, ResizeOutcome.Done, true, true);
      if want && !flag {
        var ok := service.SetProtection(name, true);
        if !ok {
          RecordProtection(flag);
          return ReprotectFailed, replies.(reprotected := false);
        }
        flag := true;
      }
      var reply := service.home.Inspect(name);
      if !reply.Found? {
        RecordProtection(flag);
        return ReadFailed, replies.(read := false);
      }
      var rendered := HasDocument(plan);
      if !rendered { return NotRenderable, replies; }
      state := plan.(protect := Known(reply.inst.protected));
      exit := Updated;
    }
  }
}
