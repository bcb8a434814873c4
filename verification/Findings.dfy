// Inputs at which the program does not do what one might expect of it.  Each
// lemma is one concrete case; the exact conditions are with the properties.

module Findings {
  import opened Values
  import opened Lima
  import opened Reconcile
  import opened Refresh
  import Documents
  import Environment
  import Floats
  import InstanceUpdate
  import KeyedMerge
  import Lifecycle
  import Paths
  import Sizes

  const NO_CONFIG: Config := Config(0, 0, 0, [], [], [])

  function NothingAsked(): Resize { Resize(0, 0, 0, None, [], None, [], None, false) }

  // ---------------------------------------------------------------------
  // Mounts
  // ---------------------------------------------------------------------

  lemma CleanA()
    ensures Paths.Clean("/a") == Paths.PathKey("/a") == "/a"
  {
    Paths.ReducedIsClean(["a"]);
    assert "/" + "a" == "/a";
    assert !Paths.HasPrefix("/a", Paths.PRIVATE);
  }

  lemma CleanB()
    ensures Paths.Clean("/b") == Paths.PathKey("/b") == "/b"
  {
    Paths.ReducedIsClean(["b"]);
    assert "/" + "b" == "/b";
    assert !Paths.HasPrefix("/b", Paths.PRIVATE);
  }

  lemma CleanPrivateA()
    ensures Paths.Clean("/private/a") == "/private/a" && Paths.PathKey("/private/a") == "/a"
  {
    UnderPrivate("a");
    assert "/private/" + "a" == "/private/a" && "/" + "a" == "/a";
  }

  lemma UnderPrivate(name: string)
    requires '/' !in name && name !in {"", ".", ".."}
    ensures Paths.Clean("/private/" + name) == "/private/" + name && Paths.PathKey("/private/" + name) == "/" + name
  {
    var parts := ["private", name];
    assert '/' !in "private";
    Paths.ReducedIsClean(parts);
    assert parts[1..] == [name];
    assert "/" + ("private" + "/" + name) == "/private/" + name;
    assert ("/private/" + name)[..8] == Paths.PRIVATE && ("/private/" + name)[8..] == "/" + name;
  }

  /** A mount declared at /a without a mount point that Lima has mounted at /b
      compares equal, and is refreshed to something else. */
  lemma DriftedMount(h: Paths.Host)
    ensures var list := [MountModel(Known("/a"), Value.Null, Known(false))];
      var c := NO_CONFIG.(mounts := [Mount("/a", "/b", false)]);
      && Applicable(h, list[0])
      && SameMounts(MergeMounts(c.mounts, [], ConfiguredMounts(h, list)), c.mounts)
      && ObservedMounts(h, c, list) == [MountModel(Known("/a"), Known("/b"), Known(false))]
  {
    CleanA();
    CleanB();
    var d, m := MountModel(Known("/a"), Value.Null, Known(false)), Mount("/a", "/b", false);
    var want := [Mount("/a", "", false)];
    assert ConfiguredMounts(h, [d]) == want;
    assert KeyedMerge.IndexOf(MountKey, want, MountKey(m)) == 0;
    assert KeyedMerge.Inherited(MountKey, [m], want) == [];
    assert MergeMounts([m], [], want) == want;
  }

  /** Any two mounts for one place that differ in being writable: written as
      declared, and still refreshed to something else. */
  lemma ContradictingPair(h: Paths.Host, d: MountModel, e: MountModel, c: Config)
    requires Applicable(h, d) && Applicable(h, e) && d.writable != e.writable
    requires MountKey(AsMount(h, d)) == MountKey(AsMount(h, e))
    requires MountsResolve([AsMount(h, d), AsMount(h, e)], c.mounts)
    ensures MountsResolve(MergeMounts([], [], ConfiguredMounts(h, [d, e])), c.mounts)
    ensures ObservedMounts(h, c, [d, e]) != [d, e]
  {
    var list, want := [d, e], [AsMount(h, d), AsMount(h, e)];
    ConfiguredAll(h, list);
    assert ConfiguredMounts(h, list) == want;
    assert MergeMounts([], [], want) == want;
    AppliedMountsPlanClean(h, NO_CONFIG, [], list, c);
    assert d in list && e in list && !SameMeaning(AsMount(h, d), AsMount(h, e));
  }

  lemma DeclaredAt(h: Paths.Host, path: string, writable: bool)
    requires path != "" && path[0] == '/' && Paths.Clean(path) == path
    ensures var d := MountModel(Known(path), Value.Null, Known(writable));
      && Location(h, d) == Some(path) && Applicable(h, d) && AsMount(h, d) == Mount(path, "", writable)
      && MountResolves(AsMount(h, d), Mount(path, path, writable))
      && AtDefaultPoint(d, Mount(path, path, writable))
  {
    assert Paths.HasPrefix(path, "/");
  }

  /** Two spellings of one place, written as declared. */
  lemma ContradictingPaths(h: Paths.Host, a: string, b: string)
    requires a != "" && a[0] == '/' && Paths.Clean(a) == a && b != "" && b[0] == '/' && Paths.Clean(b) == b
    requires a != b && Paths.PathKey(a) == Paths.PathKey(b)
    ensures ContradictsItself(h, a, b)
  {
    DeclaredAt(h, a, true);
    DeclaredAt(h, b, false);
    var c := NO_CONFIG.(mounts := [Mount(a, a, true), Mount(b, b, false)]);
    var d := MountModel(Known(a), Value.Null, Known(true));
    var e := MountModel(Known(b), Value.Null, Known(false));
    ContradictingPair(h, d, e, c);
  }

  /** Mounts at a and at b, one writable and one not, of different locations, are
      written as declared, each at its location, and refreshed to something
      else. */
  predicate ContradictsItself(h: Paths.Host, a: string, b: string) {
    var d := MountModel(Known(a), Value.Null, Known(true));
    var e := MountModel(Known(b), Value.Null, Known(false));
    var c := NO_CONFIG.(mounts := [Mount(a, a, true), Mount(b, b, false)]);
    && Applicable(h, d) && Applicable(h, e) && Location(h, d) != Location(h, e)
    && AtDefaultPoint(d, c.mounts[0]) && AtDefaultPoint(e, c.mounts[1])
    && MountsResolve(MergeMounts([], [], ConfiguredMounts(h, [d, e])), c.mounts)
    && ObservedMounts(h, c, [d, e]) != [d, e]
  }

  /** For instance /a and /private/a, which the validation of duplicates lets
      pass, since they are different as texts. */
  lemma ContradictingMounts(h: Paths.Host)
    ensures ContradictsItself(h, "/a", "/private/a")
  {
    CleanA();
    CleanPrivateA();
    assert |"/a"| != |"/private/a"|;
    ContradictingPaths(h, "/a", "/private/a");
  }

  // ---------------------------------------------------------------------
  // Port forwards
  // ---------------------------------------------------------------------

  lemma MergesToItself(f: seq<PortForward>)
    ensures MergeForwards(f, f, f) == f
  {
    CoversItself(ForwardKey, f);
    KeyedMerge.InheritedIgnoresCovered(ForwardKey, f, f, f);
    forall i | 0 <= i < |f| ensures KeyedMerge.IndexOf(ForwardKey, f, ForwardKey(f[i])) >= 0 {}
    KeyedMerge.InheritedAllOrNothing(ForwardKey, f, f, false);
  }

  /** Any two forwards for one guest port that set different host ports: Lima has
      them as declared, a resize finds nothing to edit, and still they are
      refreshed to something else. */
  lemma DoubledPair(d: PortModel, e: PortModel, p: Resize)
    requires ApplicablePort(d) && ApplicablePort(e) && ForwardKey(AsForward(d)) == ForwardKey(AsForward(e))
    requires d.hostPort.Known? && e.hostPort.Known? && d.hostPort != e.hostPort
    requires p.forwards == Some([AsForward(d), AsForward(e)]) && p.previousForwards == [AsForward(d), AsForward(e)]
    ensures ConfiguredForwards([d, e]) == [AsForward(d), AsForward(e)]
    ensures !PortsConsistent([d, e])
    ensures var c := NO_CONFIG.(forwards := [AsForward(d), AsForward(e)]);
      PlanForwards(p, c) == None && ObservedForwards(c, [d, e]) != [d, e]
  {
    var list, f := [d, e], [AsForward(d), AsForward(e)];
    ConfiguredAllPorts(list);
    assert ConfiguredForwards(list) == f;
    MergesToItself(f);
    assert e in list && FirstForward(list, e) == 0;
    SetPortsPlanClean(NO_CONFIG.(forwards := f), f, list, NO_CONFIG.(forwards := f));
  }

  /** For instance 80 to 8080, and 80 on 127.0.0.2 to 8081, which the validation
      of duplicates lets pass, since the guest addresses differ. */
  lemma DoubledForward()
    ensures var d := PortModel(Known(80), Known(8080), Known("tcp"), Value.Null, Value.Null);
      var e := PortModel(Known(80), Known(8081), Known("tcp"), Known("127.0.0.2"), Value.Null);
      var f := ConfiguredForwards([d, e]);
      && ApplicablePort(d) && ApplicablePort(e) && !PortsConsistent([d, e])
      && PlanForwards(NothingAsked().(forwards := Some(f), previousForwards := f), NO_CONFIG.(forwards := f)) == None
      && ObservedForwards(NO_CONFIG.(forwards := f), [d, e]) != [d, e]
  {
    var d := PortModel(Known(80), Known(8080), Known("tcp"), Value.Null, Value.Null);
    var e := PortModel(Known(80), Known(8081), Known("tcp"), Known("127.0.0.2"), Value.Null);
    var f := [AsForward(d), AsForward(e)];
    DoubledPair(d, e, NothingAsked().(forwards := Some(f), previousForwards := f));
  }

  /** A new address for a declared forward: no edit. */
  lemma ChangedAddress()
    ensures var was, now := PortForward(80, 8080, "tcp", "", ""), PortForward(80, 8080, "tcp", "127.0.0.2", "");
      var p := NothingAsked().(forwards := Some([now]), previousForwards := [was]);
      PlanForwards(p, NO_CONFIG.(forwards := [was])) == None
  {
    var was, now := PortForward(80, 8080, "tcp", "", ""), PortForward(80, 8080, "tcp", "127.0.0.2", "");
    assert KeyedMerge.IndexOf(ForwardKey, [now], ForwardKey(was)) == 0;
    KeyedMerge.InheritedIgnoresCovered(ForwardKey, [was], [was], [now]);
    assert KeyedMerge.Inherited(ForwardKey, [was], [now]) == [];
    assert MergeForwards([was], [was], [now]) == [now];
  }

  // ---------------------------------------------------------------------
  // Numbers and sizes
  // ---------------------------------------------------------------------

  /** A negative number of cpus is asked for again and again.  The schema refuses
      such a number. */
  lemma NegativeCpus()
    ensures var p := NothingAsked().(cpus := -1);
      Achieved(p, NO_CONFIG, NO_CONFIG) && PlanEdit(Again(p), NO_CONFIG).cpus == -1
  {
  }

  const ODD_SIZE: nat := 0x20_0000_0000_0001

  /** 2^53 + 1 bytes print as a number that reads back as something else. */
  lemma OddSize()
    ensures Sizes.ParseSize(Sizes.FormatSize(ODD_SIZE)) != Sizes.Bytes(ODD_SIZE)
    ensures forall configured: Value<string> ::
      !configured.Null? && Sizes.ParseSize(configured.Or("")) != Sizes.Bytes(ODD_SIZE) ==>
        !Sizes.PlansAgainst(Sizes.ObservedSize(configured, ODD_SIZE), ODD_SIZE)
  {
    OddDoesNotFit();
    assert Sizes.UnitOf(ODD_SIZE) == Sizes.Unit("B", 0);
    assert Floats.Pow2(0) == 1;
    assert Sizes.Quotient(ODD_SIZE, Sizes.UnitOf(ODD_SIZE)) == ODD_SIZE;
    Sizes.FormatThenParse(ODD_SIZE);
    forall configured: Value<string>
      | !configured.Null? && Sizes.ParseSize(configured.Or("")) != Sizes.Bytes(ODD_SIZE)
      ensures !Sizes.PlansAgainst(Sizes.ObservedSize(configured, ODD_SIZE), ODD_SIZE)
    {
      Sizes.RefreshThenPlan(configured, ODD_SIZE);
    }
  }

  lemma OddDoesNotFit()
    ensures !Floats.Fits(Floats.FLOAT64_BITS, ODD_SIZE)
  {
    Sizes.UnitPowers();
    Floats.Pow2Add(40, 10);
    Floats.Pow2Add(50, 3);
    assert Floats.Pow2(3) == 8;
    OddNeedsItsBits(Floats.FLOAT64_BITS, ODD_SIZE);
  }

  /** An odd number has no shorter form. */
  lemma OddNeedsItsBits(p: nat, n: nat)
    requires n % 2 == 1 && Floats.Pow2(p) <= n
    ensures !Floats.Fits(p, n)
  {
    forall m: nat, e: nat ensures !Floats.Scaled(p, n, m, e) {
      if e > 0 {
        var k := Doubled(m, Floats.Pow2(e - 1));
        assert m * Floats.Pow2(e) == 2 * k;
      } else {
        assert Floats.Pow2(0) == 1;
      }
    }
  }

  lemma Doubled(m: nat, half: nat) returns (k: nat)
    ensures m * (2 * half) == 2 * k
  {
    k := m * half;
  }

  const GIB_AND_ONE: nat := 0x4000_0001

  /** 2^30 + 1 bytes are a positive size, "1073741825B", as the schema asks for,
      but not one of the flag. */
  lemma NoSuchFlag()
    ensures Sizes.ParseSize("1073741825B") == Sizes.Bytes(GIB_AND_ONE)
    ensures !PassesAsFlag(GIB_AND_ONE)
  {
    assert Sizes.UnitOf(GIB_AND_ONE) == Sizes.Unit("B", 0);
    assert Floats.Pow2(0) == 1;
    assert Sizes.Quotient(GIB_AND_ONE, Sizes.UnitOf(GIB_AND_ONE)) == GIB_AND_ONE;
    Sizes.SmallSizesRoundTrip(GIB_AND_ONE);
    Printed();
    Sizes.UnitPowers();
    Floats.Pow2Add(20, 4);
    assert Floats.Pow2(4) == 16;
    OddNeedsItsBits(Floats.FLOAT32_BITS, GIB_AND_ONE);
    Sizes.FlagIsExact(GIB_AND_ONE);
  }

  lemma Printed()
    ensures Sizes.FormatInt(GIB_AND_ONE) + "B" == "1073741825B"
  {
    assert Sizes.FormatInt(1) == "1";
    assert Sizes.FormatInt(10) == "10";
    assert Sizes.FormatInt(107) == "107";
    assert Sizes.FormatInt(1073) == "1073";
    assert Sizes.FormatInt(10737) == "10737";
    assert Sizes.FormatInt(107374) == "107374";
    assert Sizes.FormatInt(1073741) == "1073741";
    assert Sizes.FormatInt(10737418) == "10737418";
    assert Sizes.FormatInt(107374182) == "107374182";
    assert Sizes.FormatInt(1073741825) == "1073741825";
  }

  /** So a resize to 2^30 + 1 bytes of memory stops a running machine, issues no
      edit and leaves the machine stopped, although nothing went wrong. */
  lemma StoppedInVain(n: string, w: World, w': World, r: Lifecycle.ResizeOutcome, calls: seq<Lifecycle.Call>)
    requires n in w.instances && w.instances[n].status.Running? && w.instances[n].config.memory != GIB_AND_ONE
    ensures Lifecycle.Resized(n, MoreMemory(), w, w', r, false, calls) ==>
      r.Failed? && w' == WithStatus(w, n, Stopped) && !Lifecycle.Edits(calls)
  {
    NoSuchFlag();
    assert PlanEdit(MoreMemory(), w.instances[n].config).memory == GIB_AND_ONE;
  }

  function MoreMemory(): Resize { NothingAsked().(memory := GIB_AND_ONE, running := true) }

  // ---------------------------------------------------------------------
  // What state says after an update
  // ---------------------------------------------------------------------

  function PlainModel(protect: bool, cpus: Value<int>): InstanceUpdate.Model {
    InstanceUpdate.Model(Known(protect), Known(false), cpus, Value.Null, Value.Null, Value.Null, Value.Null, Value.Null,
                         InstanceUpdate.Origin("", None, Some(CLEARS_MOUNTS), "", "", []))
  }

  /** The overrides `mounts: []`. */
  const CLEARS_MOUNTS: Documents.Source := Documents.Parsed(Documents.Mapping(map["mounts" := Documents.List([])]))

  /** An instance defined by its cpus and the overrides `mounts: []` alone loses
      its last setting when the cpus are removed, which is an update in place: the
      plan cannot be rendered, and if protection changes in the same update state
      says the opposite of what is in effect, although every call succeeded. */
  lemma UnrenderablePlan(h: Paths.Host, have: bool)
    ensures var state, plan := PlainModel(have, Known(2)), PlainModel(!have, Value.Null);
      && InstanceUpdate.Renderable(h, state)
      && InstanceUpdate.SizesParse(plan) && !InstanceUpdate.Renderable(h, plan)
      && var end := InstanceUpdate.Course(have, !have, true, false,
                      InstanceUpdate.Replies(true, Lifecycle.ResizeOutcome.Done, true, true));
         end.exit.NotRenderable? && end.actual == !have && end.recorded == have
  {
    PlainRenders(h, PlainModel(have, Known(2)));
    PlainRenders(h, PlainModel(!have, Value.Null));
  }

  /** Such a model has a document exactly when it has cpus. */
  lemma PlainRenders(h: Paths.Host, m: InstanceUpdate.Model)
    requires m == PlainModel(m.protect.Or(false), m.cpus)
    ensures InstanceUpdate.Renderable(h, m) <==> m.cpus.Or(0) != 0
  {
    var typed := InstanceUpdate.ToRenderRequest(h, m).value.typed;
    var overlay := CLEARS_MOUNTS.tree.entries;
    Documents.ConfiguresExactly(map[], typed, overlay);
    forall k ensures k in Documents.TypedTree(typed) <==> k == "cpus" && m.cpus.Or(0) != 0 { OnlyCpus(typed, k); }
    assert "cpus" !in overlay;
  }

  lemma OnlyCpus(typed: Documents.Typed, key: string)
    requires typed == Documents.Typed([], "", "", typed.cpus, "", "", [], [], [], [])
    ensures key in Documents.TypedTree(typed) <==> key == "cpus" && typed.cpus != 0
  {
    Documents.TypedKeys(typed, key);
  }

  /** A size that does not parse does the same where protection is lifted; the
      schema refuses such a size. */
  lemma UnreadableSize()
    ensures var plan := PlainModel(false, Known(2)).(memory := Known(""));
      && !InstanceUpdate.SizesParse(plan)
      && var end := InstanceUpdate.Course(true, false, false, true,
                      InstanceUpdate.Replies(true, Lifecycle.ResizeOutcome.Done, true, true));
         end.exit.SizesInvalid? && !end.actual && end.recorded
  {
    assert Sizes.TrimSpace("") == "";
  }

  /** More cpus, and the read after the edit fails: the instance has four, and
      state says two. */
  lemma StaleCpus(h: Paths.Host)
    ensures var state, plan := PlainModel(false, Known(2)), PlainModel(false, Known(4));
      var before, after := NO_CONFIG.(cpus := 2), NO_CONFIG.(cpus := 4);
      && InstanceUpdate.ResizeParams(h, plan, state).Some?
      && Edited(before, PlanEdit(InstanceUpdate.ResizeParams(h, plan, state).value, before), after)
      && InstanceUpdate.Recorded(h, state, before)
      && !InstanceUpdate.Recorded(h, InstanceUpdate.LeftInState(InstanceUpdate.ReadFailed, plan, state), after)
  {
  }

  // ---------------------------------------------------------------------
  // Documents
  // ---------------------------------------------------------------------

  /** A mapping, cut off by a null, and a mapping again: merged from the bottom
      up the first is gone, and with the upper two merged first it is not. */
  lemma HealedMapping()
    ensures var x := Documents.Leaf(Documents.Number(1));
      var a := map["k" := Documents.Mapping(map["x" := x])];
      var b := map["k" := Documents.Tree.Null];
      var c := map["k" := Documents.Mapping(map["y" := x])];
      Documents.Merge(Documents.Merge(a, b), c) != Documents.Merge(a, Documents.Merge(b, c))
  {
    var x := Documents.Leaf(Documents.Number(1));
    var a := map["k" := Documents.Mapping(map["x" := x])];
    var b := map["k" := Documents.Tree.Null];
    var c := map["k" := Documents.Mapping(map["y" := x])];
    assert "x" != "y";
    assert "x" in a["k"].entries && "x" !in c["k"].entries;
    assert !Documents.Covers(c["k"].entries, a["k"].entries);
    assert !Documents.Reassociates(a, b, c) by { assert "k" in a && "k" in b && "k" in c; }
    Documents.MergeAssociatesExactly(a, b, c);
  }

  // ---------------------------------------------------------------------
  // Environment
  // ---------------------------------------------------------------------

  /** A caller's key "A=B" is not seen under its name. */
  lemma EqualsSignInKey()
    ensures var extra := map["A=B" := "v"];
      && Environment.Lookup([], "", extra, "A=B") == Some("v")
      && Environment.Inherited(Environment.Environ([], "", extra), "A=B") == None
  {
    var env := Environment.Environ([], "", map["A=B" := "v"]);
    assert '=' in "A=B" by { assert "A=B"[1] == '='; }
    if Environment.Inherited(env, "A=B").Some? { Environment.InheritedFromSomewhere(env, "A=B"); }
  }
}
