// Deciding what to edit, from internal/lima/lifecycle.go: the merge of declared
// and resolved lists, the comparisons that skip a needless edit, and why
// repeating a resize settles.

module Reconcile {
  import opened Values
  import opened Lima
  import Paths
  import KeyedMerge

  // ---------------------------------------------------------------------
  // Identity and comparison of entries
  // ---------------------------------------------------------------------

  /** A mount is identified by its location. */
  function MountKey(m: Mount): string { Paths.PathKey(m.location) }

  /** A forward is identified by guest port and protocol. */
  function ForwardKey(p: PortForward): (int, string) { (p.guestPort, NormalizeProto(p.proto)) }

  function MergeMounts(resolved: seq<Mount>, previous: seq<Mount>, desired: seq<Mount>): seq<Mount> {
    KeyedMerge.Merge(MountKey, resolved, previous, desired)
  }

  function MergeForwards(resolved: seq<PortForward>, previous: seq<PortForward>, desired: seq<PortForward>)
    : seq<PortForward>
  {
    KeyedMerge.Merge(ForwardKey, resolved, previous, desired)
  }

  predicate SameMount(want: Mount, have: Mount) {
    && Paths.SamePath(want.location, have.location)
    && (want.mountPoint != "" ==> Paths.SamePath(want.mountPoint, have.mountPoint))
    && want.writable == have.writable
  }

  predicate SameMounts(want: seq<Mount>, have: seq<Mount>) {
    |want| == |have| && forall i | 0 <= i < |want| :: SameMount(want[i], have[i])
  }

  predicate SameForward(want: PortForward, have: PortForward) {
    && want.guestPort == have.guestPort
    && (want.hostPort != 0 ==> want.hostPort == have.hostPort)
    && NormalizeProto(want.proto) == NormalizeProto(have.proto)
  }

  predicate SameForwards(want: seq<PortForward>, have: seq<PortForward>) {
    |want| == |have| && forall i | 0 <= i < |want| :: SameForward(want[i], have[i])
  }

  // ---------------------------------------------------------------------
  // The edit a resize asks for
  // ---------------------------------------------------------------------

  /** ResizeParams: target numbers, declared lists where the attribute is
      managed, what was declared before, and the run state wanted. */
  datatype Resize = Resize(cpus: int, memory: int, disk: int,
                           mounts: Option<seq<Mount>>, previousMounts: seq<Mount>,
                           forwards: Option<seq<PortForward>>, previousForwards: seq<PortForward>,
                           disks: Option<seq<string>>,
                           running: bool)
  {
    predicate NothingAsked() {
      cpus == 0 && memory == 0 && disk == 0 && mounts.None? && forwards.None? && disks.None?
    }
  }

  /** A number already in effect is not asked for. */
  function Changed(want: int, have: int): int { if want == have then 0 else want }

  function PlanMounts(p: Resize, c: Config): Option<seq<Mount>> {
    if p.mounts.None? then None
    else
      var merged := MergeMounts(c.mounts, p.previousMounts, p.mounts.value);
      if SameMounts(merged, c.mounts) then None else Some(merged)
  }

  function PlanForwards(p: Resize, c: Config): Option<seq<PortForward>> {
    if p.forwards.None? then None
    else
      var merged := MergeForwards(c.forwards, p.previousForwards, p.forwards.value);
      if SameForwards(merged, c.forwards) then None else Some(merged)
  }

  function PlanEdit(p: Resize, c: Config): EditRequest {
    EditRequest(Changed(p.cpus, c.cpus), Changed(p.memory, c.memory), Changed(p.disk, c.disk),
                PlanMounts(p, c), PlanForwards(p, c),
                if p.disks == Some(c.disks) then None else p.disks)
  }

  // ---------------------------------------------------------------------
  // What holds once a resize is through
  // ---------------------------------------------------------------------

  /** `after` has everything `p` asks for, where `before` is what the merge was
      computed from. */
  predicate Achieved(p: Resize, before: Config, after: Config) {
    && after.cpus == Pick(p.cpus, before.cpus)
    && after.memory == Pick(p.memory, before.memory)
    && after.disk == Pick(p.disk, before.disk)
    && (match p.mounts
        case None => after.mounts == before.mounts
        case Some(m) => SameMounts(MergeMounts(before.mounts, p.previousMounts, m), after.mounts))
    && (match p.forwards
        case None => after.forwards == before.forwards
        case Some(f) => SameForwards(MergeForwards(before.forwards, p.previousForwards, f), after.forwards))
    && (match p.disks case None => after.disks == before.disks case Some(d) => after.disks == d)
  }

  /** Carrying out the planned edit, or skipping an empty one, achieves what was
      asked for. */
  lemma PlanAchieves(p: Resize, before: Config, after: Config)
    requires Edited(before, PlanEdit(p, before), after)
    ensures Achieved(p, before, after)
  {
  }

  // ---------------------------------------------------------------------
  // Repeating a resize
  // ---------------------------------------------------------------------

  /** The same resize once Terraform has recorded the declared lists. */
  function Again(p: Resize): Resize {
    p.(previousMounts := if p.mounts.Some? then p.mounts.value else p.previousMounts,
       previousForwards := if p.forwards.Some? then p.forwards.value else p.previousForwards)
  }

  lemma SameMountsSettle(first: seq<Mount>, previous: seq<Mount>, desired: seq<Mount>,
                         got: seq<Mount>, again: seq<Mount>)
    requires SameMounts(MergeMounts(first, previous, desired), got)
    requires KeyedMerge.Covers(MountKey, desired, again)
    ensures SameMounts(MergeMounts(got, again, desired), got)
  {
    var m := MergeMounts(first, previous, desired);
    KeyedMerge.MergeShape(MountKey, first, previous, desired);
    forall i | 0 <= i < |got| ensures MountKey(got[i]) == MountKey(m[i]) {
      assert SameMount(m[i], got[i]);
    }
    KeyedMerge.MergeSettles(MountKey, first, previous, desired, got, again);
    var m' := MergeMounts(got, again, desired);
    forall i | 0 <= i < |m'| ensures SameMount(m'[i], got[i]) {
      assert i < |desired| ==> m'[i] == desired[i] == m[i];
    }
  }

  lemma SameForwardsSettle(first: seq<PortForward>, previous: seq<PortForward>, desired: seq<PortForward>,
                           got: seq<PortForward>, again: seq<PortForward>)
    requires SameForwards(MergeForwards(first, previous, desired), got)
    requires KeyedMerge.Covers(ForwardKey, desired, again)
    ensures SameForwards(MergeForwards(got, again, desired), got)
  {
    var m := MergeForwards(first, previous, desired);
    KeyedMerge.MergeShape(ForwardKey, first, previous, desired);
    forall i | 0 <= i < |got| ensures ForwardKey(got[i]) == ForwardKey(m[i]) {
      assert SameForward(m[i], got[i]);
    }
    KeyedMerge.MergeSettles(ForwardKey, first, previous, desired, got, again);
    var m' := MergeForwards(got, again, desired);
    forall i | 0 <= i < |m'| ensures SameForward(m'[i], got[i]) {
      assert i < |desired| ==> m'[i] == desired[i] == m[i];
    }
  }

  lemma CoversItself<T, K>(key: T -> K, list: seq<T>)
    ensures KeyedMerge.Covers(key, list, list)
  {
    forall p | p in list ensures KeyedMerge.IndexOf(key, list, key(p)) >= 0 {
      var i :| 0 <= i < |list| && list[i] == p;
    }
  }

  /** A number that was asked for is in effect; a negative one is never passed
      on, so it is asked for again unless it is what the instance has. */
  predicate NumberSettled(want: int, have: int) { want >= 0 || want == have }

  /** Repeating a resize that went through plans no edit: Lima's own spelling of
      paths, choice of host ports and inherited entries are all accepted. */
  lemma ResizeSettles(p: Resize, before: Config, after: Config)
    requires Achieved(p, before, after)
    ensures PlanEdit(Again(p), after).IsEmpty()
       <==> (&& NumberSettled(p.cpus, after.cpus)
             && NumberSettled(p.memory, after.memory) && NumberSettled(p.disk, after.disk))
  {
    if p.mounts.Some? {
      CoversItself(MountKey, p.mounts.value);
      SameMountsSettle(before.mounts, p.previousMounts, p.mounts.value, after.mounts, p.mounts.value);
    }
    if p.forwards.Some? {
      CoversItself(ForwardKey, p.forwards.value);
      SameForwardsSettle(before.forwards, p.previousForwards, p.forwards.value, after.forwards, p.forwards.value);
    }
  }

  // ---------------------------------------------------------------------
  // What the comparison does not see
  // ---------------------------------------------------------------------

  ghost predicate EqualButAddresses(f: seq<PortForward>, g: seq<PortForward>) {
    |f| == |g| && forall i | 0 <= i < |f| :: f[i] == g[i].(guestIP := f[i].guestIP, hostIP := f[i].hostIP)
  }

  lemma {:induction false} InheritedSameKeys(keep: seq<PortForward>, f: seq<PortForward>, g: seq<PortForward>)
    requires EqualButAddresses(f, g)
    ensures KeyedMerge.Inherited(ForwardKey, keep, f) == KeyedMerge.Inherited(ForwardKey, keep, g)
  {
    if keep != [] {
      InheritedSameKeys(keep[1..], f, g);
      var k := ForwardKey(keep[0]);
      var i, j := KeyedMerge.IndexOf(ForwardKey, f, k), KeyedMerge.IndexOf(ForwardKey, g, k);
      if i >= 0 { assert ForwardKey(g[i]) == ForwardKey(f[i]); }
      if j >= 0 { assert ForwardKey(g[j]) == ForwardKey(f[j]); }
    }
  }

  lemma SameOutcome(m: seq<PortForward>, n: seq<PortForward>, have: seq<PortForward>)
    requires |m| == |n|
    requires forall i | 0 <= i < |m| && i < |have| :: SameForward(m[i], have[i]) == SameForward(n[i], have[i])
    ensures SameForwards(m, have) <==> SameForwards(n, have)
  {
  }

  /** Changing only the addresses of declared forwards does not decide whether
      they are edited: by itself such a change is not applied, only along with an
      edit that something else causes. */
  lemma AddressChangeNotApplied(c: Config, p: Resize, g: seq<PortForward>)
    requires p.forwards.Some? && EqualButAddresses(p.forwards.value, g)
    ensures PlanForwards(p, c).None? <==> PlanForwards(p.(forwards := Some(g)), c).None?
    ensures var edit := PlanForwards(p.(forwards := Some(g)), c);
      edit.Some? ==> |g| <= |edit.value| && edit.value[..|g|] == g
  {
    KeyedMerge.MergeShape(ForwardKey, c.forwards, p.previousForwards, g);
    var keep := KeyedMerge.RemoveEach(ForwardKey, c.forwards, p.previousForwards);
    var f := p.forwards.value;
    InheritedSameKeys(keep, f, g);
    var m, n := MergeForwards(c.forwards, p.previousForwards, f), MergeForwards(c.forwards, p.previousForwards, g);
    assert |m| == |n|;
    forall i | 0 <= i < |m| && i < |c.forwards|
      ensures SameForward(m[i], c.forwards[i]) == SameForward(n[i], c.forwards[i])
    {
      assert if i < |f| then m[i] == f[i] && n[i] == g[i] else m[i] == n[i];
    }
    SameOutcome(m, n, c.forwards);
  }
}
