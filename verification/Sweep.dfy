// Emptying a Lima home: internal/lima/sweep.go.

module Sweep {
  import opened Values
  import opened Lima
  import opened Lifecycle
  import Paths

  datatype Failure =
    | NotUnprotected(name: string)
    | NotDeleted(name: string)
    | DisksNotListed
    | DiskStays(name: string)
    | DiskRefused(name: string)

  datatype Report = Report(instances: seq<string>, disks: seq<string>, failures: seq<Failure>)

  /** How a sweep ended; only Clean is a nil error. */
  datatype End = RefusedDefaultHome | NotListed | Interrupted | Incomplete | Clean

  /** ResolveHome: Lima's default when none is configured, and nothing when not
      even that can be told. */
  function ResolveHome(host: Paths.Host, configured: string): string {
    if configured != "" then configured
    else if host.home.None? then ""
    else Paths.JoinPath(host.home.value, ".lima")
  }

  predicate RefusesDefaultHome(host: Paths.Host, configured: string) {
    Paths.Clean(ResolveHome(host, configured)) == Paths.Clean(ResolveHome(host, ""))
  }

  predicate ListsTruly(l: Listed, w: World) {
    l.name in w.instances && l.protected == w.instances[l.name].protected
  }

  /** The instance was reported removed, or as a failure, but not both. */
  predicate InstanceSettled(r: Report, n: string) {
    (n in r.instances) != (NotDeleted(n) in r.failures)
  }

  predicate DiskSettled(r: Report, d: string) {
    (d in r.disks) != (DiskStays(d) in r.failures || DiskRefused(d) in r.failures)
  }

  /** What a report says of an instance is true: one reported removed is gone,
      one not mentioned is as it was. */
  ghost predicate InstanceTruth(r: Report, n: string, before: World, now: World) {
    && (n in r.instances ==> n in before.instances && n !in now.instances && NotDeleted(n) !in r.failures)
    && (n in before.instances && n !in r.instances && NotDeleted(n) !in r.failures ==>
          n in now.instances && now.instances[n] == before.instances[n])
    && (n in now.instances ==> n in before.instances)
  }

  ghost predicate DiskTruth(r: Report, d: string, before: World, now: World) {
    && (d in r.disks ==>
          d in before.disks && d !in now.disks && DiskStays(d) !in r.failures && DiskRefused(d) !in r.failures)
    && (d in before.disks && d !in r.disks ==> d in now.disks && now.disks[d] == before.disks[d])
    && (d in now.disks ==> d in before.disks)
    && (DiskRefused(d) in r.failures ==> InUse(now, d))
  }

  /** The instances, and only those, have been swept as far as the n-th of a
      listing. */
  ghost predicate InstancesSwept(listing: seq<Listed>, n: nat, before: World, r: Report, now: World) {
    && (forall m :: InstanceTruth(r, m, before, now))
    && (forall i | 0 <= i < |listing| ::
          if i < n then InstanceSettled(r, listing[i].name)
          else listing[i].name !in r.instances && NotDeleted(listing[i].name) !in r.failures)
    && now.disks == before.disks && r.disks == []
    && (forall f | f in r.failures :: f.NotUnprotected? || f.NotDeleted?)
  }

  ghost predicate DisksSwept(listing: seq<string>, n: nat, before: World, r: Report, now: World) {
    && (forall d :: DiskTruth(r, d, before, now))
    && (forall i | 0 <= i < |listing| ::
          if i < n then DiskSettled(r, listing[i])
          else listing[i] !in r.disks && DiskStays(listing[i]) !in r.failures && DiskRefused(listing[i]) !in r.failures)
    && now.instances == before.instances
  }

  /** The disk is held by a running instance that the report says could not be
      removed. */
  ghost predicate HeldByFailure(r: Report, d: string, now: World) {
    exists n | n in now.instances ::
      now.instances[n].status.Running? && d in now.instances[n].config.disks && NotDeleted(n) in r.failures
  }

  /** Only what the report says of one disk may differ. */
  ghost predicate OnlyAbout(d: string, before: Report, after: Report) {
    && (forall m | m != d ::
          && (m in after.disks <==> m in before.disks)
          && (DiskStays(m) in after.failures <==> DiskStays(m) in before.failures)
          && (DiskRefused(m) in after.failures <==> DiskRefused(m) in before.failures))
    && (forall m :: NotDeleted(m) in after.failures <==> NotDeleted(m) in before.failures)
    && (DisksNotListed in after.failures <==> DisksNotListed in before.failures)
  }

  class Sweeper {
    const service: Service
    const disks: DiskService
    const host: Paths.Host

    constructor (service: Service, disks: DiskService, host: Paths.Host)
      requires service.home == disks.home
      ensures this.service == service && this.disks == disks && this.host == host
    {
      this.service, this.disks, this.host := service, disks, host;
    }

    method Sweep(configured: string, allowDefaultHome: bool) returns (end: End, report: Report)
      requires service.home == disks.home
      modifies service.home
      ensures end.RefusedDefaultHome? <==> !allowDefaultHome && RefusesDefaultHome(host, configured)
      ensures end in {RefusedDefaultHome, NotListed} ==>
        report == Report([], [], []) && service.home.View() == old(service.home.View())
      // with nothing going wrong the home is emptied
      ensures !service.home.trouble ==> end.RefusedDefaultHome? || end.Clean?
      // what a nil error means
      ensures end.Clean? ==> service.home.View() == World(map[], map[]) && report.failures == []
      ensures end.Incomplete? ==> report.failures != []
      // every object ends up in the report once
      ensures end in {Incomplete, Clean} ==> forall n | n in old(service.home.instances) :: InstanceSettled(report, n)
      ensures end in {Incomplete, Clean} && DisksNotListed !in report.failures ==>
        forall d | d in old(service.home.disks) :: DiskSettled(report, d)
      // what is reported removed is gone, what is not mentioned is untouched
      ensures forall n :: InstanceTruth(report, n, old(service.home.View()), service.home.View())
      ensures forall d :: DiskTruth(report, d, old(service.home.View()), service.home.View())
      // a disk is held only by an instance that failed to go
      ensures end in {Incomplete, Clean} ==>
        forall d | DiskRefused(d) in report.failures :: HeldByFailure(report, d, service.home.View())
    {
      report := Report([], [], []);
      if !allowDefaultHome && RefusesDefaultHome(host, configured) { return RefusedDefaultHome, report; }
      var listing := service.home.List();
      if listing.None? { return NotListed, report; }
      var finished: bool;
      ghost var done: nat;
      finished, report, done := SweepInstances(listing.value);
      if finished {
        label Middle:
        if !service.home.trouble {
          forall n ensures n !in service.home.instances {
            assert InstanceTruth(report, n, old(service.home.View()), service.home.View());
            assert n in old(service.home.instances) ==> Lists(listing.value, n);
          }
          assert service.home.instances == map[];
        }
        ghost var before := report;
        end, report := SweepDisks(report);
        forall n ensures InstanceTruth(report, n, old(service.home.View()), service.home.View()) {
          assert InstanceTruth(before, n, old(service.home.View()), old@Middle(service.home.View()));
        }
        forall n | n in old(service.home.instances) ensures InstanceSettled(report, n) {
          assert Lists(listing.value, n);
        }
        forall d ensures DiskTruth(report, d, old(service.home.View()), service.home.View()) {
          assert DiskTruth(report, d, old@Middle(service.home.View()), service.home.View());
        }
        forall d | DiskRefused(d) in report.failures ensures HeldByFailure(report, d, service.home.View()) {
          assert DiskTruth(report, d, old@Middle(service.home.View()), service.home.View());
          var n :| n in service.home.instances && service.home.instances[n].status.Running?
                   && d in service.home.instances[n].config.disks;
          assert InstanceTruth(report, n, old(service.home.View()), service.home.View());
        }
        if end.Clean? {
          forall n ensures n !in service.home.instances {
            assert InstanceTruth(report, n, old(service.home.View()), service.home.View());
          }
          forall d ensures d !in service.home.disks {
            assert DiskTruth(report, d, old(service.home.View()), service.home.View());
          }
        }
      } else {
        end := Interrupted;
      }
    }

    /** The caller's context may be done between two objects. */
    method Cancelled() returns (yes: bool)
      modifies service.home`trouble
      ensures service.home.trouble == (old(service.home.trouble) || yes)
    {
      yes := *;
      service.home.trouble := service.home.trouble || yes;
    }

    /** Every listed instance in turn; one that cannot be removed does not stop
        the sweep. */
    method SweepInstances(listing: seq<Listed>) returns (finished: bool, report: Report, ghost done: nat)
      requires forall i, j | 0 <= i < j < |listing| :: listing[i].name != listing[j].name
      requires forall l | l in listing :: ListsTruly(l, service.home.View())
      modifies service.home
      ensures old(service.home.trouble) ==> service.home.trouble
      ensures !service.home.trouble ==> finished && report.failures == []
      ensures finished ==> done == |listing|
      ensures InstancesSwept(listing, done, old(service.home.View()), report, service.home.View())
    {
      report := Report([], [], []);
      done := 0;
      for n := 0 to |listing|
        invariant old(service.home.trouble) ==> service.home.trouble
        invariant !service.home.trouble ==> report.failures == []
        invariant done == n && InstancesSwept(listing, n, old(service.home.View()), report, service.home.View())
      {
        var cancelled := Cancelled();
        if cancelled { return false, report, n; }
        report := SweepInstance(listing[n], report, old(service.home.View()));
        done := n + 1;
      }
      finished := true;
    }

    method SweepInstance(l: Listed, before: Report, ghost first: World) returns (report: Report)
      requires ListsTruly(l, first) && first.disks == service.home.disks && before.disks == []
      requires l.name !in before.instances && NotDeleted(l.name) !in before.failures
      requires forall m :: InstanceTruth(before, m, first, service.home.View())
      requires forall f | f in before.failures :: f.NotUnprotected? || f.NotDeleted?
      modifies service.home
      ensures old(service.home.trouble) ==> service.home.trouble
      ensures !service.home.trouble ==> report.failures == before.failures
      ensures forall m :: InstanceTruth(report, m, first, service.home.View())
      ensures InstanceSettled(report, l.name)
      ensures forall m | m != l.name ::
        && (m in report.instances <==> m in before.instances)
        && (NotDeleted(m) in report.failures <==> NotDeleted(m) in before.failures)
      ensures report.disks == [] && service.home.disks == first.disks
      ensures forall f | f in report.failures :: f.NotUnprotected? || f.NotDeleted?
    {
      report := before;
      assert InstanceTruth(before, l.name, first, service.home.View());
      if l.protected {
        var ok := service.SetProtection(l.name, false);
        if !ok { report := report.(failures := report.failures + [NotUnprotected(l.name)]); }
      }
      var r := service.Delete(l.name);
      if r.Deleted? {
        report := report.(instances := report.instances + [l.name]);
      } else {
        report := report.(failures := report.failures + [NotDeleted(l.name)]);
      }
      forall m | m != l.name ensures InstanceTruth(report, m, first, service.home.View()) {
        assert InstanceTruth(before, m, first, old(service.home.View()));
      }
    }

    /** The disks that are there once the instances are gone. */
    method SweepDisks(before: Report) returns (end: End, report: Report)
      requires service.home == disks.home && before.disks == []
      requires forall f | f in before.failures :: f.NotUnprotected? || f.NotDeleted?
      modifies service.home
      ensures old(service.home.trouble) ==> service.home.trouble
      ensures !service.home.trouble && old(service.home.instances) == map[] ==>
        !end.Interrupted? && report.failures == before.failures
      ensures forall d :: DiskTruth(report, d, old(service.home.View()), service.home.View())
      ensures service.home.instances == old(service.home.instances)
      ensures report.instances == before.instances
      ensures forall n :: NotDeleted(n) in report.failures <==> NotDeleted(n) in before.failures
      ensures end in {Interrupted, Incomplete, Clean}
      ensures if end.Clean? then report.failures == [] else end.Incomplete? ==> report.failures != []
      ensures end in {Incomplete, Clean} && DisksNotListed !in report.failures ==>
        forall d | d in old(service.home.disks) :: DiskSettled(report, d)
    {
      report := before;
      var found := service.home.ListDisks();
      if found.None? {
        report := report.(failures := report.failures + [DisksNotListed]);
        assert DisksNotListed in report.failures;
        return Incomplete, report;
      }
      var listing := found.value;
      for n := 0 to |listing|
        invariant DisksSwept(listing, n, old(service.home.View()), report, service.home.View())
        invariant old(service.home.trouble) ==> service.home.trouble
        invariant !service.home.trouble && service.home.instances == map[] ==> report.failures == before.failures
        invariant report.instances == before.instances
        invariant forall m :: NotDeleted(m) in report.failures <==> NotDeleted(m) in before.failures
      {
        var cancelled := Cancelled();
        if cancelled { return Interrupted, report; }
        report := SweepDisk(listing[n], report, old(service.home.View()));
      }
      end := if report.failures == [] then Clean else Incomplete;
    }

    method SweepDisk(d: string, before: Report, ghost first: World) returns (report: Report)
      requires service.home == disks.home && d in first.disks && first.instances == service.home.instances
      requires d !in before.disks && DiskStays(d) !in before.failures && DiskRefused(d) !in before.failures
      requires forall m :: DiskTruth(before, m, first, service.home.View())
      modifies service.home
      ensures old(service.home.trouble) ==> service.home.trouble
      ensures !service.home.trouble && service.home.instances == map[] ==> report.failures == before.failures
      ensures forall m :: DiskTruth(report, m, first, service.home.View())
      ensures DiskSettled(report, d) && OnlyAbout(d, before, report)
      ensures service.home.instances == first.instances && report.instances == before.instances
    {
      report := before;
      var r := disks.Delete(d);
      match r {
        case DiskGone => report := report.(disks := report.disks + [d]);
        case DiskHeld => report := report.(failures := report.failures + [DiskRefused(d)]);
        case DiskNotDeleted => report := report.(failures := report.failures + [DiskStays(d)]);
      }
      forall m ensures DiskTruth(report, m, first, service.home.View()) {
        assert DiskTruth(before, m, first, old(service.home.View()));
        assert InUse(old(service.home.View()), m) == InUse(service.home.View(), m);
      }
    }
  }
}
