// Lima as the provider sees it: the instances and disks of one home, and what
// each limactl command does to them.  The rules are those of
// internal/testutil/fake_limactl.go, with the attachment of disks added and
// with the effect of a failing command left open where Lima leaves it open.

module Lima {
  import opened Values
  import Paths
  import Sizes

  datatype Status = Running | Stopped | Creating | Broken | StatusUnknown

  datatype Mount = Mount(location: string, mountPoint: string, writable: bool)

  datatype PortForward = PortForward(guestPort: int, hostPort: int, proto: string, guestIP: string, hostIP: string)

  /** The part of the resolved configuration the provider manages. */
  datatype Config = Config(cpus: int, memory: int, disk: int,
                           mounts: seq<Mount>, forwards: seq<PortForward>, disks: seq<string>)

  datatype Instance = Instance(status: Status, protected: bool, config: Config)

  datatype World = World(instances: map<string, Instance>, disks: map<string, nat>)

  /** What an edit changes: a zero field or an absent list is left alone. */
  datatype EditRequest = EditRequest(cpus: int, memory: int, disk: int,
                                     mounts: Option<seq<Mount>>, forwards: Option<seq<PortForward>>,
                                     disks: Option<seq<string>>)
  {
    predicate IsEmpty() {
      cpus == 0 && memory == 0 && disk == 0 && mounts.None? && forwards.None? && disks.None?
    }
  }

  datatype Command =
    | Create(name: string)
    | Start(name: string)
    | Stop(name: string)
    | Edit(name: string, request: EditRequest)
    | Delete(name: string)
    | Protect(name: string, on: bool)
    | CreateDisk(name: string, size: nat)
    | ResizeDisk(name: string, size: nat)
    | DeleteDisk(name: string)

  // ---------------------------------------------------------------------
  // How an edit is understood
  // ---------------------------------------------------------------------

  function ToLower(s: string): string {
    seq(|s|, i requires 0 <= i < |s| => if 'A' <= s[i] <= 'Z' then s[i] - 'A' + 'a' else s[i])
  }

  /** The protocol an entry means; none means tcp. */
  function NormalizeProto(p: string): string {
    if p == "" then "tcp" else ToLower(p)
  }

  /** Lima may respell a location, and an entry without a mount point is mounted
      at its location. */
  predicate MountResolves(asked: Mount, got: Mount) {
    && Paths.SamePath(asked.location, got.location)
    && Paths.SamePath(got.mountPoint, if asked.mountPoint != "" then asked.mountPoint else got.location)
    && asked.writable == got.writable
  }

  /** Lima picks a host port when none is asked for, and the addresses. */
  predicate ForwardResolves(asked: PortForward, got: PortForward) {
    && asked.guestPort == got.guestPort
    && (asked.hostPort != 0 ==> asked.hostPort == got.hostPort)
    && NormalizeProto(asked.proto) == NormalizeProto(got.proto)
  }

  predicate MountsResolve(asked: seq<Mount>, got: seq<Mount>) {
    |asked| == |got| && forall i | 0 <= i < |asked| :: MountResolves(asked[i], got[i])
  }

  predicate ForwardsResolve(asked: seq<PortForward>, got: seq<PortForward>) {
    |asked| == |got| && forall i | 0 <= i < |asked| :: ForwardResolves(asked[i], got[i])
  }

  function Pick(asked: int, current: int): int { if asked > 0 then asked else current }

  /** The configurations an edit may leave behind.  Numbers are passed as flags
      only when positive. */
  predicate Edited(before: Config, e: EditRequest, after: Config) {
    && after.cpus == Pick(e.cpus, before.cpus)
    && after.memory == Pick(e.memory, before.memory)
    && after.disk == Pick(e.disk, before.disk)
    && (match e.mounts case None => after.mounts == before.mounts case Some(m) => MountsResolve(m, after.mounts))
    && (match e.forwards
        case None => after.forwards == before.forwards
        case Some(f) => ForwardsResolve(f, after.forwards))
    && (match e.disks case None => after.disks == before.disks case Some(d) => after.disks == d)
  }

  predicate PassesAsFlag(bytes: int) {
    bytes > 0 ==> bytes < Sizes.INT64_LIMIT && Sizes.GiBFlagValue(bytes).Flag?
  }

  /** The arguments of an edit can be built: something is passed, and sizes are
      exact as flags. */
  predicate Expressible(e: EditRequest) {
    && (e.cpus > 0 || e.memory > 0 || e.disk > 0 || e.mounts.Some? || e.forwards.Some? || e.disks.Some?)
    && PassesAsFlag(e.memory) && PassesAsFlag(e.disk)
  }

  // ---------------------------------------------------------------------
  // What commands do
  // ---------------------------------------------------------------------

  function SetInstance(w: World, name: string, i: Instance): World { w.(instances := w.instances[name := i]) }

  function WithStatus(w: World, name: string, status: Status): World
    requires name in w.instances
  {
    SetInstance(w, name, w.instances[name].(status := status))
  }

  /** A disk is in use while an instance it is attached to runs. */
  predicate InUse(w: World, disk: string) {
    exists n | n in w.instances :: w.instances[n].status.Running? && disk in w.instances[n].config.disks
  }

  predicate EditsInstance(w: World, name: string, e: EditRequest, w': World) {
    && name in w.instances && name in w'.instances
    && Edited(w.instances[name].config, e, w'.instances[name].config)
    && w' == SetInstance(w, name, w.instances[name].(config := w'.instances[name].config))
  }

  /** The state of the home allows the command to succeed. */
  predicate Possible(c: Command, w: World) {
    match c
    case Create(n) => n !in w.instances
    case Start(n) => n in w.instances
    case Stop(n) => n in w.instances && w.instances[n].status.Running?
    case Edit(n, e) =>
      && n in w.instances && !w.instances[n].status.Running? && Expressible(e)
      && (e.disk > 0 ==> e.disk >= w.instances[n].config.disk)
    case Delete(n) => n in w.instances ==> !w.instances[n].protected
    case Protect(n, _) => n in w.instances
    case CreateDisk(d, _) => d !in w.disks
    case ResizeDisk(d, size) => d in w.disks && !InUse(w, d) && w.disks[d] <= size
    case DeleteDisk(d) => !InUse(w, d)
  }

  /** The command succeeds and takes the home from w to w'. */
  predicate Succeeds(c: Command, w: World, w': World) {
    && Possible(c, w)
    && match c
       case Create(n) =>
         && n in w'.instances && w'.instances[n].status.Stopped? && !w'.instances[n].protected
         && w' == SetInstance(w, n, w'.instances[n])
       case Start(n) => w' == WithStatus(w, n, Running)
       case Stop(n) => w' == WithStatus(w, n, Stopped)
       case Edit(n, e) => EditsInstance(w, n, e, w')
       case Delete(n) => w' == w.(instances := w.instances - {n})
       case Protect(n, on) => w' == SetInstance(w, n, w.instances[n].(protected := on))
       case CreateDisk(d, size) => w' == w.(disks := w.disks[d := size])
       case ResizeDisk(d, size) => w' == w.(disks := w.disks[d := size])
       case DeleteDisk(d) => w' == w.(disks := w.disks - {d})
  }

  /** The command reports failure.  Nothing changes, except that a create may
      have registered a broken instance and a start may have brought the machine
      up in a degraded state. */
  predicate Fails(c: Command, w: World, w': World) {
    || w' == w
    || (c.Start? && c.name in w.instances && w' == WithStatus(w, c.name, Running))
    || (&& c.Create? && c.name !in w.instances && c.name in w'.instances
        && w'.instances[c.name].status.Broken? && !w'.instances[c.name].protected
        && w' == SetInstance(w, c.name, w'.instances[c.name]))
  }
}
