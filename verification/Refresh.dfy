// Refreshing declared lists, from internal/provider/models.go, and what a
// refresh finds after a resize.

module Refresh {
  import opened Values
  import opened Lima
  import opened Reconcile
  import Paths
  import KeyedMerge

  datatype MountModel = MountModel(location: Value<string>, mountPoint: Value<string>, writable: Value<bool>)

  datatype PortModel = PortModel(guestPort: Value<int>, hostPort: Value<int>, protocol: Value<string>,
                                 guestIP: Value<string>, hostIP: Value<string>)

  // ---------------------------------------------------------------------
  // From the model to the domain
  // ---------------------------------------------------------------------

  function Location(h: Paths.Host, m: MountModel): Option<string> {
    if m.location.Known? then Paths.ExpandPath(h, m.location.v) else None
  }

  function AsMount(h: Paths.Host, m: MountModel): Mount {
    Mount(Location(h, m).Or(""), m.mountPoint.Or(""), m.writable.Or(false))
  }

  function AsForward(p: PortModel): PortForward {
    PortForward(p.guestPort.Or(0), p.hostPort.Or(0), p.protocol.Or(""), p.guestIP.Or(""), p.hostIP.Or(""))
  }

  /** configuredMounts: entries without a usable location are left out. */
  function ConfiguredMounts(h: Paths.Host, list: seq<MountModel>): seq<Mount> {
    if list == [] then []
    else
      var rest := ConfiguredMounts(h, list[1..]);
      if Location(h, list[0]).None? then rest else [AsMount(h, list[0])] + rest
  }

  function ConfiguredForwards(list: seq<PortModel>): seq<PortForward> {
    if list == [] then []
    else
      var rest := ConfiguredForwards(list[1..]);
      if !list[0].guestPort.Known? then rest else [AsForward(list[0])] + rest
  }

  // ---------------------------------------------------------------------
  // From Lima back to the model
  // ---------------------------------------------------------------------

  /** The first resolved mount at a location. */
  function FindMount(mounts: seq<Mount>, location: string): (r: Option<Mount>)
    ensures r.None? ==> forall m | m in mounts :: !Paths.SamePath(m.location, location)
    ensures r.Some? ==> r.value in mounts && Paths.SamePath(r.value.location, location)
  {
    if mounts == [] then None
    else if Paths.SamePath(mounts[0].location, location) then Some(mounts[0])
    else FindMount(mounts[1..], location)
  }

  function FindForward(forwards: seq<PortForward>, guestPort: int, proto: string): (r: Option<PortForward>)
    ensures r.None? ==> forall f | f in forwards :: ForwardKey(f) != (guestPort, NormalizeProto(proto))
    ensures r.Some? ==> r.value in forwards && ForwardKey(r.value) == (guestPort, NormalizeProto(proto))
  {
    if forwards == [] then None
    else if forwards[0].guestPort == guestPort && NormalizeProto(forwards[0].proto) == NormalizeProto(proto)
      then Some(forwards[0])
    else FindForward(forwards[1..], guestPort, proto)
  }

  /** observedMount: None when Lima no longer has the mount. */
  function ObservedMount(h: Paths.Host, c: Config, d: MountModel): Option<MountModel> {
    match Location(h, d)
    case None => Some(d)
    case Some(location) =>
      match FindMount(c.mounts, location)
      case None => None
      case Some(found) =>
        var expected := if d.mountPoint.Null? then found.location else d.mountPoint.Or("");
        var point := if Paths.SamePath(found.mountPoint, expected) then d.mountPoint else Known(found.mountPoint);
        Some(d.(writable := Known(found.writable), mountPoint := point))
  }

  function ObservedForward(c: Config, d: PortModel): Option<PortModel> {
    if !d.guestPort.Known? then Some(d)
    else
      match FindForward(c.forwards, d.guestPort.v, d.protocol.Or(""))
      case None => None
      case Some(found) =>
        var differs := !d.hostPort.Null? && d.hostPort.Or(0) != found.hostPort;
        Some(if differs then d.(hostPort := Known(found.hostPort)) else d)
  }

  function ObservedMounts(h: Paths.Host, c: Config, list: seq<MountModel>): seq<MountModel> {
    if list == [] then []
    else
      var rest := ObservedMounts(h, c, list[1..]);
      match ObservedMount(h, c, list[0]) case None => rest case Some(m) => [m] + rest
  }

  function ObservedForwards(c: Config, list: seq<PortModel>): seq<PortModel> {
    if list == [] then []
    else
      var rest := ObservedForwards(c, list[1..]);
      match ObservedForward(c, list[0]) case None => rest case Some(p) => [p] + rest
  }

  /** The list attributes of the model a refresh writes into. */
  class InstanceModel {
    var mounts: seq<MountModel>
    var forwards: seq<PortModel>

    constructor (mounts: seq<MountModel>, forwards: seq<PortModel>)
      ensures this.mounts == mounts && this.forwards == forwards
    {
      this.mounts, this.forwards := mounts, forwards;
    }

    /** reconcileDeclaredEntries: managed lists are rewritten to what Lima has,
        unless Lima has not settled on a configuration. */
    method ReconcileDeclared(h: Paths.Host, inst: Instance, declaredMounts: seq<MountModel>, mountsManaged: bool,
                             declaredForwards: seq<PortModel>, forwardsManaged: bool)
      modifies this
      ensures var settled := inst.status.Running? || inst.status.Stopped?;
        && mounts == (if settled && mountsManaged then ObservedMounts(h, inst.config, declaredMounts) else old(mounts))
        && forwards == (if settled && forwardsManaged then ObservedForwards(inst.config, declaredForwards)
                        else old(forwards))
    {
      match inst.status
      case Creating => return;
      case StatusUnknown => return;
      case Broken => return;
      case _ =>
      if mountsManaged {
        var kept := [];
        for i := 0 to |declaredMounts|
          invariant kept + ObservedMounts(h, inst.config, declaredMounts[i..])
                 == ObservedMounts(h, inst.config, declaredMounts)
        {
          assert declaredMounts[i..][1..] == declaredMounts[i + 1..];
          match ObservedMount(h, inst.config, declaredMounts[i])
          case None =>
          case Some(m) => kept := kept + [m];
        }
        mounts := kept;
      }
      if forwardsManaged {
        var kept := [];
        for i := 0 to |declaredForwards|
          invariant kept + ObservedForwards(inst.config, declaredForwards[i..])
                 == ObservedForwards(inst.config, declaredForwards)
        {
          assert declaredForwards[i..][1..] == declaredForwards[i + 1..];
          match ObservedForward(inst.config, declaredForwards[i])
          case None =>
          case Some(p) => kept := kept + [p];
        }
        forwards := kept;
      }
    }
  }

  // ---------------------------------------------------------------------
  // Apply, then refresh
  // ---------------------------------------------------------------------

  /** What the schema leaves of a mount by the time it is applied: a location
      that resolves, a mount point that is absent or not empty, and a default for
      writable. */
  predicate Applicable(h: Paths.Host, m: MountModel) {
    && Location(h, m).Some? && m.writable.Known?
    && !m.mountPoint.Unknown? && (m.mountPoint.Known? ==> m.mountPoint.v != "")
  }

  predicate ApplicablePort(p: PortModel) {
    p.guestPort.Known? && !p.hostPort.Unknown? && (p.hostPort.Known? ==> p.hostPort.v != 0)
  }

  lemma {:induction false} ConfiguredAll(h: Paths.Host, list: seq<MountModel>)
    requires forall m | m in list :: Applicable(h, m)
    ensures |ConfiguredMounts(h, list)| == |list|
    ensures forall i | 0 <= i < |list| :: ConfiguredMounts(h, list)[i] == AsMount(h, list[i])
  {
    if list != [] {
      assert list[0] in list && Applicable(h, list[0]);
      forall m | m in list[1..] ensures Applicable(h, m) { assert m in list; }
      ConfiguredAll(h, list[1..]);
    }
  }

  lemma {:induction false} ConfiguredAllPorts(list: seq<PortModel>)
    requires forall p | p in list :: ApplicablePort(p)
    ensures |ConfiguredForwards(list)| == |list|
    ensures forall i | 0 <= i < |list| :: ConfiguredForwards(list)[i] == AsForward(list[i])
  {
    if list != [] {
      assert list[0] in list && ApplicablePort(list[0]);
      forall p | p in list[1..] ensures ApplicablePort(p) { assert p in list; }
      ConfiguredAllPorts(list[1..]);
    }
  }

  /** A lookup finds the first entry with a key. */
  lemma {:induction false} FindsAt(mounts: seq<Mount>, i: nat, location: string)
    requires i < |mounts| && Paths.SamePath(mounts[i].location, location)
    requires forall j | 0 <= j < i :: MountKey(mounts[j]) != MountKey(mounts[i])
    ensures FindMount(mounts, location) == Some(mounts[i])
  {
    if i > 0 {
      assert MountKey(mounts[0]) != MountKey(mounts[i]);
      forall j | 0 <= j < i - 1 ensures MountKey(mounts[1..][j]) != MountKey(mounts[1..][i - 1]) {
        assert MountKey(mounts[j + 1]) != MountKey(mounts[i]);
      }
      FindsAt(mounts[1..], i - 1, location);
    }
  }

  lemma {:induction false} FindsForwardAt(forwards: seq<PortForward>, i: nat, guestPort: int, proto: string)
    requires i < |forwards| && ForwardKey(forwards[i]) == (guestPort, NormalizeProto(proto))
    requires forall j | 0 <= j < i :: ForwardKey(forwards[j]) != ForwardKey(forwards[i])
    ensures FindForward(forwards, guestPort, proto) == Some(forwards[i])
  {
    if i > 0 {
      assert ForwardKey(forwards[0]) != ForwardKey(forwards[i]);
      forall j | 0 <= j < i - 1 ensures ForwardKey(forwards[1..][j]) != ForwardKey(forwards[1..][i - 1]) {
        assert ForwardKey(forwards[j + 1]) != ForwardKey(forwards[i]);
      }
      FindsForwardAt(forwards[1..], i - 1, guestPort, proto);
    }
  }

  /** A list is refreshed to itself exactly when each entry is. */
  lemma {:induction false} RefreshedAll(h: Paths.Host, c: Config, list: seq<MountModel>)
    ensures |ObservedMounts(h, c, list)| <= |list|
    ensures ObservedMounts(h, c, list) == list <==> forall m | m in list :: ObservedMount(h, c, m) == Some(m)
  {
    if list != [] {
      RefreshedAll(h, c, list[1..]);
      assert list == [list[0]] + list[1..];
      assert list[0] in list && forall m | m in list[1..] :: m in list;
      if ObservedMounts(h, c, list) == list && ObservedMount(h, c, list[0]).Some? {
        assert ObservedMounts(h, c, list)[1..] == list[1..];
      }
    }
  }

  lemma {:induction false} RefreshedAllPorts(c: Config, list: seq<PortModel>)
    ensures |ObservedForwards(c, list)| <= |list|
    ensures ObservedForwards(c, list) == list <==> forall p | p in list :: ObservedForward(c, p) == Some(p)
  {
    if list != [] {
      RefreshedAllPorts(c, list[1..]);
      assert list == [list[0]] + list[1..];
      assert list[0] in list && forall p | p in list[1..] :: p in list;
      if ObservedForwards(c, list) == list && ObservedForward(c, list[0]).Some? {
        assert ObservedForwards(c, list)[1..] == list[1..];
      }
    }
  }

  // What a refresh compares a declared entry with: the entry of Lima's list at
  // the place of the first declared entry with the same identity.

  function FirstMount(h: Paths.Host, list: seq<MountModel>, d: MountModel): int {
    KeyedMerge.IndexOf(MountKey, ConfiguredMounts(h, list), MountKey(AsMount(h, d)))
  }

  function FirstForward(list: seq<PortModel>, d: PortModel): int {
    KeyedMerge.IndexOf(ForwardKey, ConfiguredForwards(list), ForwardKey(AsForward(d)))
  }

  /** Lima's mount is what the declared one says: writable alike, and mounted
      where asked for, or at its location when nothing is asked for. */
  predicate MountAgrees(d: MountModel, got: Mount) {
    && d.writable == Known(got.writable)
    && Paths.SamePath(got.mountPoint, if d.mountPoint.Null? then got.location else d.mountPoint.Or(""))
  }

  /** Lima's forward has the declared host port, if one is declared. */
  predicate ForwardAgrees(d: PortModel, got: PortForward) {
    d.hostPort.Null? || d.hostPort == Known(got.hostPort)
  }

  /** Lists that compare equal start with the declared entries. */
  lemma {:induction false} MountsStart(first: seq<Mount>, previous: seq<Mount>, want: seq<Mount>, got: seq<Mount>)
    requires SameMounts(MergeMounts(first, previous, want), got)
    ensures |want| <= |got| && forall k | 0 <= k < |want| :: SameMount(want[k], got[k])
  {
    KeyedMerge.MergeShape(MountKey, first, previous, want);
    forall k | 0 <= k < |want| ensures k < |got| && SameMount(want[k], got[k]) {
      assert MergeMounts(first, previous, want)[k] == want[k];
    }
  }

  lemma {:induction false} ForwardsStart(first: seq<PortForward>, previous: seq<PortForward>, want: seq<PortForward>,
                                         got: seq<PortForward>)
    requires SameForwards(MergeForwards(first, previous, want), got)
    ensures |want| <= |got| && forall k | 0 <= k < |want| :: SameForward(want[k], got[k])
  {
    KeyedMerge.MergeShape(ForwardKey, first, previous, want);
    forall k | 0 <= k < |want| ensures k < |got| && SameForward(want[k], got[k]) {
      assert MergeForwards(first, previous, want)[k] == want[k];
    }
  }

  /** The place of a declared entry's first namesake, and what is found there. */
  lemma {:induction false} FindsFirst(h: Paths.Host, list: seq<MountModel>, got: seq<Mount>, d: MountModel)
    requires forall m | m in list :: Applicable(h, m)
    requires |list| <= |got| && |ConfiguredMounts(h, list)| == |list|
    requires forall k | 0 <= k < |list| :: MountKey(got[k]) == MountKey(ConfiguredMounts(h, list)[k])
    requires d in list
    ensures 0 <= FirstMount(h, list, d) < |list|
    ensures MountKey(AsMount(h, list[FirstMount(h, list, d)])) == MountKey(AsMount(h, d))
    ensures Location(h, d).Some? && FindMount(got, Location(h, d).value) == Some(got[FirstMount(h, list, d)])
  {
    ConfiguredAll(h, list);
    var i :| 0 <= i < |list| && list[i] == d;
    assert ConfiguredMounts(h, list)[i] == AsMount(h, d) && Applicable(h, d);
    FindsAt(got, FirstMount(h, list, d), Location(h, d).value);
  }

  lemma {:induction false} FindsFirstForward(list: seq<PortModel>, got: seq<PortForward>, d: PortModel)
    requires forall p | p in list :: ApplicablePort(p)
    requires |list| <= |got| && |ConfiguredForwards(list)| == |list|
    requires forall k | 0 <= k < |list| :: ForwardKey(got[k]) == ForwardKey(ConfiguredForwards(list)[k])
    requires d in list
    ensures 0 <= FirstForward(list, d) < |list|
    ensures d.guestPort.Known?
         && FindForward(got, d.guestPort.v, d.protocol.Or("")) == Some(got[FirstForward(list, d)])
  {
    ConfiguredAllPorts(list);
    var i :| 0 <= i < |list| && list[i] == d;
    assert ConfiguredForwards(list)[i] == AsForward(d) && ApplicablePort(d);
    FindsForwardAt(got, FirstForward(list, d), d.guestPort.v, d.protocol.Or(""));
  }

  /** Each declared mount is found, and is refreshed to itself exactly when it
      agrees with Lima's mount at the first declared entry for its location. */
  lemma {:induction false} MountRefreshed(h: Paths.Host, first: Config, previous: seq<Mount>,
                                          list: seq<MountModel>, c: Config, d: MountModel)
    requires forall m | m in list :: Applicable(h, m)
    requires SameMounts(MergeMounts(first.mounts, previous, ConfiguredMounts(h, list)), c.mounts)
    requires d in list
    ensures 0 <= FirstMount(h, list, d) < |list| <= |c.mounts|
    ensures MountKey(AsMount(h, list[FirstMount(h, list, d)])) == MountKey(AsMount(h, d))
    ensures ObservedMount(h, c, d) == Some(d) <==> MountAgrees(d, c.mounts[FirstMount(h, list, d)])
  {
    ConfiguredAll(h, list);
    MountsStart(first.mounts, previous, ConfiguredMounts(h, list), c.mounts);
    FindsFirst(h, list, c.mounts, d);
    assert Applicable(h, d);
  }

  /** Apply then refresh, on all declared lists: after a resize that compared or
      wrote the mounts, the refreshed list is the declared one exactly when every
      entry agrees with Lima's mount at the first entry for its location. */
  lemma {:induction false} MountsPlanClean(h: Paths.Host, first: Config, previous: seq<Mount>,
                                           list: seq<MountModel>, c: Config)
    requires forall m | m in list :: Applicable(h, m)
    requires SameMounts(MergeMounts(first.mounts, previous, ConfiguredMounts(h, list)), c.mounts)
    ensures forall d | d in list :: 0 <= FirstMount(h, list, d) < |c.mounts|
    ensures ObservedMounts(h, c, list) == list <==>
            forall d | d in list :: MountAgrees(d, c.mounts[FirstMount(h, list, d)])
  {
    forall d | d in list
      ensures 0 <= FirstMount(h, list, d) < |c.mounts|
      ensures ObservedMount(h, c, d) == Some(d) <==> MountAgrees(d, c.mounts[FirstMount(h, list, d)])
    {
      MountRefreshed(h, first, previous, list, c, d);
    }
    RefreshedAll(h, c, list);
  }

  /** Lima's mount for an entry that names no mount point is at its location. */
  predicate AtDefaultPoint(d: MountModel, got: Mount) {
    d.mountPoint.Null? ==> Paths.SamePath(got.mountPoint, got.location)
  }

  /** With one entry per location, only a mount without a mount point that sits
      somewhere else than at its location makes a difference. */
  lemma {:induction false} DistinctMountsPlanClean(h: Paths.Host, first: Config, previous: seq<Mount>,
                                                   list: seq<MountModel>, c: Config)
    requires forall m | m in list :: Applicable(h, m)
    requires SameMounts(MergeMounts(first.mounts, previous, ConfiguredMounts(h, list)), c.mounts)
    requires KeyedMerge.Distinct(MountKey, ConfiguredMounts(h, list))
    ensures |list| <= |c.mounts|
    ensures ObservedMounts(h, c, list) == list <==> forall i | 0 <= i < |list| :: AtDefaultPoint(list[i], c.mounts[i])
  {
    var want := ConfiguredMounts(h, list);
    ConfiguredAll(h, list);
    MountsStart(first.mounts, previous, want, c.mounts);
    MountsPlanClean(h, first, previous, list, c);
    forall i | 0 <= i < |list|
      ensures FirstMount(h, list, list[i]) == i
      ensures MountAgrees(list[i], c.mounts[i]) <==> AtDefaultPoint(list[i], c.mounts[i])
    {
      AgreesWhenSame(h, list[i], c.mounts[i]);
    }
  }

  lemma {:induction false} AgreesWhenSame(h: Paths.Host, d: MountModel, got: Mount)
    requires Applicable(h, d) && SameMount(AsMount(h, d), got)
    ensures MountAgrees(d, got) <==> AtDefaultPoint(d, got)
  {
  }

  /** Where a mount is mounted. */
  function PointOf(m: Mount): string { if m.mountPoint != "" then m.mountPoint else m.location }

  /** Two mounts ask for the same thing. */
  predicate SameMeaning(a: Mount, b: Mount) {
    a.writable == b.writable && Paths.SamePath(PointOf(a), PointOf(b))
  }

  /** No two declared mounts contradict each other about one location. */
  predicate Consistent(h: Paths.Host, list: seq<MountModel>) {
    forall d, e | d in list && e in list && MountKey(AsMount(h, d)) == MountKey(AsMount(h, e)) ::
      SameMeaning(AsMount(h, d), AsMount(h, e))
  }

  /** A written mount agrees with a declared one for the same location exactly
      when what was written means the same. */
  lemma {:induction false} AgreesAsWritten(h: Paths.Host, d: MountModel, asked: Mount, got: Mount)
    requires Applicable(h, d) && MountKey(AsMount(h, d)) == MountKey(asked)
    requires MountResolves(asked, got)
          || (SameMount(asked, got) && asked.mountPoint != "" && d.mountPoint.Known?)
    ensures MountAgrees(d, got) <==> SameMeaning(AsMount(h, d), asked)
  {
  }

  /** When the edit wrote the mounts, or every mount sets a mount point, the next
      plan is clean exactly when the declared list does not contradict itself. */
  lemma {:induction false} AppliedMountsPlanClean(h: Paths.Host, first: Config, previous: seq<Mount>,
                                                  list: seq<MountModel>, c: Config)
    requires forall m | m in list :: Applicable(h, m)
    requires var merged := MergeMounts(first.mounts, previous, ConfiguredMounts(h, list));
      || MountsResolve(merged, c.mounts)
      || (SameMounts(merged, c.mounts) && forall m | m in list :: m.mountPoint.Known?)
    ensures ObservedMounts(h, c, list) == list <==> Consistent(h, list)
  {
    var want := ConfiguredMounts(h, list);
    var merged := MergeMounts(first.mounts, previous, want);
    ConfiguredAll(h, list);
    WrittenOrSame(merged, c.mounts);
    KeyedMerge.MergeShape(MountKey, first.mounts, previous, want);
    forall j | 0 <= j < |list| ensures merged[j] == AsMount(h, list[j]) { assert merged[j] == want[j]; }
    MountsPlanClean(h, first, previous, list, c);
    forall d | d in list ensures MountAgrees(d, c.mounts[FirstMount(h, list, d)]) <==> AgreesWithFirst(h, list, d) {
      MountRefreshed(h, first, previous, list, c, d);
      var j := FirstMount(h, list, d);
      assert list[j] in list;
      AgreesAsWritten(h, d, merged[j], c.mounts[j]);
    }
    ConsistentByFirst(h, list);
  }

  lemma {:induction false} WrittenOrSame(asked: seq<Mount>, got: seq<Mount>)
    requires MountsResolve(asked, got) || SameMounts(asked, got)
    ensures SameMounts(asked, got)
  {
  }

  predicate AgreesWithFirst(h: Paths.Host, list: seq<MountModel>, d: MountModel) {
    var j := FirstMount(h, list, d);
    0 <= j < |list| && SameMeaning(AsMount(h, d), AsMount(h, list[j]))
  }

  /** It is enough to compare every entry with the first one for its location. */
  lemma {:induction false} ConsistentByFirst(h: Paths.Host, list: seq<MountModel>)
    requires forall m | m in list :: Applicable(h, m)
    ensures Consistent(h, list) <==> forall d | d in list :: AgreesWithFirst(h, list, d)
  {
    ConfiguredAll(h, list);
    forall d | d in list
      ensures 0 <= FirstMount(h, list, d) < |list|
      ensures MountKey(AsMount(h, list[FirstMount(h, list, d)])) == MountKey(AsMount(h, d))
    {
      FindsFirst(h, list, ConfiguredMounts(h, list), d);
    }
    if Consistent(h, list) {
      forall d | d in list ensures AgreesWithFirst(h, list, d) { assert list[FirstMount(h, list, d)] in list; }
    }
  }

  /** Each declared forward is found, and is refreshed to itself exactly when it
      agrees with Lima's forward at the first declared entry for its port. */
  lemma {:induction false} ForwardRefreshed(first: Config, previous: seq<PortForward>, list: seq<PortModel>,
                                            c: Config, d: PortModel)
    requires forall p | p in list :: ApplicablePort(p)
    requires SameForwards(MergeForwards(first.forwards, previous, ConfiguredForwards(list)), c.forwards)
    requires d in list
    ensures 0 <= FirstForward(list, d) < |list| <= |c.forwards|
    ensures ObservedForward(c, d) == Some(d) <==> ForwardAgrees(d, c.forwards[FirstForward(list, d)])
  {
    ConfiguredAllPorts(list);
    ForwardsStart(first.forwards, previous, ConfiguredForwards(list), c.forwards);
    FindsFirstForward(list, c.forwards, d);
    assert ApplicablePort(d);
  }

  /** Apply then refresh for port forwards, on all declared lists. */
  lemma {:induction false} ForwardsPlanClean(first: Config, previous: seq<PortForward>, list: seq<PortModel>, c: Config)
    requires forall p | p in list :: ApplicablePort(p)
    requires SameForwards(MergeForwards(first.forwards, previous, ConfiguredForwards(list)), c.forwards)
    ensures forall d | d in list :: 0 <= FirstForward(list, d) < |c.forwards|
    ensures ObservedForwards(c, list) == list <==>
            forall d | d in list :: ForwardAgrees(d, c.forwards[FirstForward(list, d)])
  {
    forall d | d in list
      ensures 0 <= FirstForward(list, d) < |c.forwards|
      ensures ObservedForward(c, d) == Some(d) <==> ForwardAgrees(d, c.forwards[FirstForward(list, d)])
    {
      ForwardRefreshed(first, previous, list, c, d);
    }
    RefreshedAllPorts(c, list);
  }

  /** With one entry per guest port and protocol, forwards plan clean whether or
      not the resize ran an edit. */
  lemma {:induction false} DistinctForwardsPlanClean(first: Config, previous: seq<PortForward>, list: seq<PortModel>,
                                                     c: Config)
    requires forall p | p in list :: ApplicablePort(p)
    requires SameForwards(MergeForwards(first.forwards, previous, ConfiguredForwards(list)), c.forwards)
    requires KeyedMerge.Distinct(ForwardKey, ConfiguredForwards(list))
    ensures ObservedForwards(c, list) == list
  {
    var want := ConfiguredForwards(list);
    ConfiguredAllPorts(list);
    ForwardsStart(first.forwards, previous, want, c.forwards);
    ForwardsPlanClean(first, previous, list, c);
    forall d | d in list ensures ForwardAgrees(d, c.forwards[FirstForward(list, d)]) {
      var i :| 0 <= i < |list| && list[i] == d;
      assert want[i] == AsForward(d) && ApplicablePort(d) && SameForward(want[i], c.forwards[i]);
      assert FirstForward(list, d) == i;
    }
  }

  /** Lima's list, entry by entry what an edit wrote, has the declared host port
      at the first entry for the guest port. */
  predicate PortFound(d: PortModel, written: seq<PortForward>, got: seq<PortForward>) {
    var j := KeyedMerge.IndexOf(ForwardKey, written, ForwardKey(AsForward(d)));
    0 <= j < |got| && ForwardAgrees(d, got[j])
  }

  lemma {:induction false} ForwardAsWritten(d: PortModel, written: seq<PortForward>, c: Config)
    requires ApplicablePort(d) && ForwardsResolve(written, c.forwards)
    ensures ObservedForward(c, d) == Some(d) <==> PortFound(d, written, c.forwards)
  {
    var j := KeyedMerge.IndexOf(ForwardKey, written, ForwardKey(AsForward(d)));
    forall k | 0 <= k < |written| ensures ForwardKey(c.forwards[k]) == ForwardKey(written[k]) {
      assert ForwardResolves(written[k], c.forwards[k]);
    }
    assert j < 0 ==> forall k | 0 <= k < |c.forwards| :: ForwardKey(c.forwards[k]) != ForwardKey(AsForward(d));
    if j >= 0 {
      FindsForwardAt(c.forwards, j, d.guestPort.v, d.protocol.Or(""));
    }
  }

  /** What Lima makes of a list when it picks one and the same free host port. */
  function Picking(asked: seq<PortForward>, port: int): (got: seq<PortForward>)
    ensures ForwardsResolve(asked, got)
    ensures forall k | 0 <= k < |asked| :: got[k].hostPort == if asked[k].hostPort == 0 then port else asked[k].hostPort
  {
    seq(|asked|, k requires 0 <= k < |asked| =>
      if asked[k].hostPort == 0 then asked[k].(hostPort := port) else asked[k])
  }

  /** A declared forward is safe from Lima's choice of ports exactly when what was
      written for it has its port already. */
  lemma {:induction false} ForwardWhateverPorts(d: PortModel, written: seq<PortForward>)
    requires ApplicablePort(d)
    ensures (forall got | ForwardsResolve(written, got) :: PortFound(d, written, got))
       <==> PortFound(d, written, written)
  {
    var j := KeyedMerge.IndexOf(ForwardKey, written, ForwardKey(AsForward(d)));
    if PortFound(d, written, written) {
      forall got | ForwardsResolve(written, got) ensures PortFound(d, written, got) {
        assert ForwardResolves(written[j], got[j]);
      }
    } else {
      assert !PortFound(d, written, Picking(written, d.hostPort.Or(0) + 1));
    }
  }

  /** The same for a declared list. */
  lemma {:induction false} ForwardsWhateverPorts(list: seq<PortModel>, written: seq<PortForward>)
    requires forall p | p in list :: ApplicablePort(p)
    ensures (forall c: Config | ForwardsResolve(written, c.forwards) :: ObservedForwards(c, list) == list)
       <==> forall d | d in list :: PortFound(d, written, written)
  {
    forall c: Config | ForwardsResolve(written, c.forwards)
      ensures ObservedForwards(c, list) == list <==> forall d | d in list :: PortFound(d, written, c.forwards)
    {
      RefreshedAllPorts(c, list);
      forall d | d in list ensures ObservedForward(c, d) == Some(d) <==> PortFound(d, written, c.forwards) {
        ForwardAsWritten(d, written, c);
      }
    }
    forall d | d in list
      ensures (forall got | ForwardsResolve(written, got) :: PortFound(d, written, got))
         <==> PortFound(d, written, written)
    {
      ForwardWhateverPorts(d, written);
    }
    if forall c: Config | ForwardsResolve(written, c.forwards) :: ObservedForwards(c, list) == list {
      forall d, got | d in list && ForwardsResolve(written, got) ensures PortFound(d, written, got) {
        var c := Config(0, 0, 0, [], got, []);
        assert c.forwards == got && ObservedForwards(c, list) == list;
      }
    }
  }

  /** A declared forward that sets a host port sets the one that the first entry
      for its guest port sets. */
  predicate PortsConsistent(list: seq<PortModel>) {
    forall d | d in list && !d.hostPort.Null? ::
      var j := FirstForward(list, d); 0 <= j < |list| && list[j].hostPort == d.hostPort
  }

  /** When the edit wrote the forwards, the next plan is clean whatever host ports
      Lima picked, exactly when the declared list is consistent. */
  lemma {:induction false} AppliedForwardsPlanClean(first: Config, previous: seq<PortForward>, list: seq<PortModel>)
    requires forall p | p in list :: ApplicablePort(p)
    ensures var merged := MergeForwards(first.forwards, previous, ConfiguredForwards(list));
      (forall c: Config | ForwardsResolve(merged, c.forwards) :: ObservedForwards(c, list) == list)
      <==> PortsConsistent(list)
  {
    var want := ConfiguredForwards(list);
    var merged := MergeForwards(first.forwards, previous, want);
    ConfiguredAllPorts(list);
    KeyedMerge.MergeShape(ForwardKey, first.forwards, previous, want);
    forall j | 0 <= j < |list| ensures merged[j] == AsForward(list[j]) { assert merged[j] == want[j]; }
    ForwardsWhateverPorts(list, merged);
    forall d | d in list
      ensures PortFound(d, merged, merged)
         <==> d.hostPort.Null? || (var j := FirstForward(list, d); 0 <= j < |list| && list[j].hostPort == d.hostPort)
    {
      FirstInMerged(list, merged, d);
      assert list[FirstForward(list, d)] in list;
    }
  }

  /** A declared entry's first namesake is the same in a list that starts with the
      declared ones. */
  lemma {:induction false} FirstInMerged(list: seq<PortModel>, merged: seq<PortForward>, d: PortModel)
    requires |ConfiguredForwards(list)| == |list| <= |merged| && d in list
    requires forall j | 0 <= j < |list| :: merged[j] == ConfiguredForwards(list)[j] == AsForward(list[j])
    ensures KeyedMerge.IndexOf(ForwardKey, merged, ForwardKey(AsForward(d))) == FirstForward(list, d)
    ensures 0 <= FirstForward(list, d) < |list|
  {
    var i :| 0 <= i < |list| && list[i] == d;
    assert merged[i] == ConfiguredForwards(list)[i] == AsForward(d);
  }

  /** When every entry sets its host port, a list that compares equal is enough:
      the next plan is clean exactly when the declared list is consistent. */
  lemma {:induction false} SetPortsPlanClean(first: Config, previous: seq<PortForward>, list: seq<PortModel>, c: Config)
    requires forall p | p in list :: ApplicablePort(p) && p.hostPort.Known?
    requires SameForwards(MergeForwards(first.forwards, previous, ConfiguredForwards(list)), c.forwards)
    ensures ObservedForwards(c, list) == list <==> PortsConsistent(list)
  {
    var want := ConfiguredForwards(list);
    ConfiguredAllPorts(list);
    ForwardsStart(first.forwards, previous, want, c.forwards);
    ForwardsPlanClean(first, previous, list, c);
    forall d | d in list
      ensures var j := FirstForward(list, d);
        0 <= j < |list| && (ForwardAgrees(d, c.forwards[j]) <==> list[j].hostPort == d.hostPort)
    {
      ForwardRefreshed(first, previous, list, c, d);
      var j := FirstForward(list, d);
      assert list[j] in list && SameForward(want[j], c.forwards[j]);
    }
  }

  // ---------------------------------------------------------------------
  // Differences that stay
  // ---------------------------------------------------------------------

  /** What a refresh recorded is, entry by entry, something declared. */
  lemma {:induction false} ObservedCovers(h: Paths.Host, c: Config, list: seq<MountModel>)
    ensures KeyedMerge.Covers(MountKey, ConfiguredMounts(h, list), ConfiguredMounts(h, ObservedMounts(h, c, list)))
  {
    var want, again := ConfiguredMounts(h, list), ConfiguredMounts(h, ObservedMounts(h, c, list));
    if list != [] {
      ObservedCovers(h, c, list[1..]);
      var rest := ConfiguredMounts(h, list[1..]);
      forall m | m in again ensures KeyedMerge.IndexOf(MountKey, want, MountKey(m)) >= 0 {
        var seen := ObservedMount(h, c, list[0]);
        if seen.Some? {
          assert ObservedMounts(h, c, list)[1..] == ObservedMounts(h, c, list[1..]);
          assert Location(h, seen.value) == Location(h, list[0]);
        }
        if m in ConfiguredMounts(h, ObservedMounts(h, c, list[1..])) {
          var k := KeyedMerge.IndexOf(MountKey, rest, MountKey(m));
          if Location(h, list[0]).Some? { assert want[k + 1] == rest[k]; }
        } else {
          assert MountKey(m) == MountKey(want[0]);
        }
      }
    }
  }

  lemma {:induction false} ObservedCoversPorts(c: Config, list: seq<PortModel>)
    ensures KeyedMerge.Covers(ForwardKey, ConfiguredForwards(list), ConfiguredForwards(ObservedForwards(c, list)))
  {
    var want, again := ConfiguredForwards(list), ConfiguredForwards(ObservedForwards(c, list));
    if list != [] {
      ObservedCoversPorts(c, list[1..]);
      var rest := ConfiguredForwards(list[1..]);
      forall m | m in again ensures KeyedMerge.IndexOf(ForwardKey, want, ForwardKey(m)) >= 0 {
        var seen := ObservedForward(c, list[0]);
        if seen.Some? { assert ObservedForwards(c, list)[1..] == ObservedForwards(c, list[1..]); }
        if m in ConfiguredForwards(ObservedForwards(c, list[1..])) {
          var k := KeyedMerge.IndexOf(ForwardKey, rest, ForwardKey(m));
          if list[0].guestPort.Known? { assert want[k + 1] == rest[k]; }
        } else {
          assert ForwardKey(m) == ForwardKey(want[0]);
        }
      }
    }
  }

  /** Rounds of refreshing and applying one declared list of mounts, with any
      other attributes changing along: in each the recorded list is the declared
      one or a refreshed one, and the apply carries its edit out, needs none, or
      changes nothing. */
  ghost predicate MountRounds(h: Paths.Host, list: seq<MountModel>, cs: seq<Config>, ps: seq<Resize>) {
    && |cs| == |ps| + 1
    && forall k | 0 <= k < |ps| ::
         && ps[k].mounts == Some(ConfiguredMounts(h, list))
         && (|| ps[k].previousMounts == ConfiguredMounts(h, list)
             || ps[k].previousMounts == ConfiguredMounts(h, ObservedMounts(h, cs[k], list)))
         && (cs[k + 1] == cs[k] || Edited(cs[k], PlanEdit(ps[k], cs[k]), cs[k + 1]))
  }

  ghost predicate ForwardRounds(list: seq<PortModel>, cs: seq<Config>, ps: seq<Resize>) {
    && |cs| == |ps| + 1
    && forall k | 0 <= k < |ps| ::
         && ps[k].forwards == Some(ConfiguredForwards(list))
         && (|| ps[k].previousForwards == ConfiguredForwards(list)
             || ps[k].previousForwards == ConfiguredForwards(ObservedForwards(cs[k], list)))
         && (cs[k + 1] == cs[k] || Edited(cs[k], PlanEdit(ps[k], cs[k]), cs[k + 1]))
  }

  /** Once the mounts compare equal, no later round edits them, so whatever a
      refresh shows then it shows for ever: a difference never heals. */
  lemma {:induction false} MountsStay(h: Paths.Host, first: Config, previous: seq<Mount>, list: seq<MountModel>,
                                      cs: seq<Config>, ps: seq<Resize>, k: nat)
    requires MountRounds(h, list, cs, ps) && k <= |ps|
    requires SameMounts(MergeMounts(first.mounts, previous, ConfiguredMounts(h, list)), cs[0].mounts)
    ensures cs[k].mounts == cs[0].mounts && ObservedMounts(h, cs[k], list) == ObservedMounts(h, cs[0], list)
    ensures k < |ps| ==> PlanMounts(ps[k], cs[k]) == None
  {
    var want := ConfiguredMounts(h, list);
    if k > 0 { MountsStay(h, first, previous, list, cs, ps, k - 1); }
    ObservedFromMounts(h, cs[k], cs[0], list);
    if k < |ps| {
      ObservedCovers(h, cs[k], list);
      CoversItself(MountKey, want);
      SameMountsSettle(first.mounts, previous, want, cs[k].mounts, ps[k].previousMounts);
    }
  }

  /** So a mount that disagrees with Lima's once the two compare equal, be it a
      mount without a mount point that sits elsewhere or one that contradicts an
      earlier entry, is reported as different after any number of rounds, and no
      round edits it. */
  lemma {:induction false} DriftedMountPointStays(h: Paths.Host, first: Config, previous: seq<Mount>,
                                                  list: seq<MountModel>, cs: seq<Config>, ps: seq<Resize>,
                                                  k: nat, d: MountModel)
    requires forall m | m in list :: Applicable(h, m)
    requires MountRounds(h, list, cs, ps) && k <= |ps|
    requires SameMounts(MergeMounts(first.mounts, previous, ConfiguredMounts(h, list)), cs[0].mounts)
    requires d in list
    requires var j := FirstMount(h, list, d); 0 <= j < |cs[0].mounts| ==> !MountAgrees(d, cs[0].mounts[j])
    ensures ObservedMounts(h, cs[k], list) != list
    ensures k < |ps| ==> PlanMounts(ps[k], cs[k]) == None
  {
    MountsPlanClean(h, first, previous, list, cs[0]);
    MountsStay(h, first, previous, list, cs, ps, k);
  }

  /** A refresh of mounts looks at nothing but Lima's mounts. */
  lemma {:induction false} ObservedFromMounts(h: Paths.Host, a: Config, b: Config, list: seq<MountModel>)
    requires a.mounts == b.mounts
    ensures ObservedMounts(h, a, list) == ObservedMounts(h, b, list)
  {
    if list != [] { ObservedFromMounts(h, a, b, list[1..]); }
  }

  lemma {:induction false} ObservedFromForwards(a: Config, b: Config, list: seq<PortModel>)
    requires a.forwards == b.forwards
    ensures ObservedForwards(a, list) == ObservedForwards(b, list)
  {
    if list != [] { ObservedFromForwards(a, b, list[1..]); }
  }

  /** The same for forwards, whose only difference can be a second entry for one
      guest port. */
  lemma {:induction false} DoubledForwardStays(first: Config, previous: seq<PortForward>, list: seq<PortModel>,
                                               cs: seq<Config>, ps: seq<Resize>, k: nat, d: PortModel)
    requires forall p | p in list :: ApplicablePort(p)
    requires ForwardRounds(list, cs, ps) && k <= |ps|
    requires SameForwards(MergeForwards(first.forwards, previous, ConfiguredForwards(list)), cs[0].forwards)
    requires d in list
    requires var j := FirstForward(list, d); 0 <= j < |cs[0].forwards| ==> !ForwardAgrees(d, cs[0].forwards[j])
    ensures ObservedForwards(cs[k], list) != list
    ensures k < |ps| ==> PlanForwards(ps[k], cs[k]) == None
  {
    ForwardsPlanClean(first, previous, list, cs[0]);
    ForwardsStay(first, previous, list, cs, ps, k);
  }

  lemma {:induction false} ForwardsStay(first: Config, previous: seq<PortForward>, list: seq<PortModel>,
                                        cs: seq<Config>, ps: seq<Resize>, k: nat)
    requires ForwardRounds(list, cs, ps) && k <= |ps|
    requires SameForwards(MergeForwards(first.forwards, previous, ConfiguredForwards(list)), cs[0].forwards)
    ensures cs[k].forwards == cs[0].forwards && ObservedForwards(cs[k], list) == ObservedForwards(cs[0], list)
    ensures k < |ps| ==> PlanForwards(ps[k], cs[k]) == None
  {
    var want := ConfiguredForwards(list);
    if k > 0 { ForwardsStay(first, previous, list, cs, ps, k - 1); }
    ObservedFromForwards(cs[k], cs[0], list);
    if k < |ps| {
      ObservedCoversPorts(cs[k], list);
      CoversItself(ForwardKey, want);
      SameForwardsSettle(first.forwards, previous, want, cs[k].forwards, ps[k].previousForwards);
    }
  }
}
