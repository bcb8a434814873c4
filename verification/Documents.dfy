// The Lima document of internal/lima/config.go: layers merged as trees, empty
// sequences of the overrides turned into clears, and one fixed order of keys.

module Documents {
  import opened Values
  import opened Ordering
  import Lima

  datatype Scalar = Text(s: string) | Number(n: int) | Flag(b: bool) | Decimal(digits: string)

  datatype Tree =
    | Null
    | Leaf(value: Scalar)
    | List(items: seq<Tree>)
    | Mapping(entries: Entries)

  type Entries = map<string, Tree>

  // ---------------------------------------------------------------------
  // Merging
  // ---------------------------------------------------------------------

  /** `over` laid over `under`: mappings merge, anything else replaces. */
  function Merge(under: Entries, over: Entries): Entries
    decreases Mapping(over)
  {
    map k | k in under.Keys + over.Keys ::
      if k !in over then under[k]
      else if over[k].Mapping? && k in under && under[k].Mapping?
        then Mapping(Merge(under[k].entries, over[k].entries))
      else over[k]
  }

  /** mergeMaps, with the keys of `over` taken in any order. */
  method MergeMaps(under: Entries, over: Entries) returns (out: Entries)
    ensures out == Merge(under, over)
    decreases Mapping(over)
  {
    out := under;
    var rest := over.Keys;
    while rest != {}
      invariant rest <= over.Keys
      invariant out.Keys == under.Keys + (over.Keys - rest)
      invariant forall k | k in out :: out[k] == if k in rest then under[k] else Merge(under, over)[k]
    {
      var k :| k in rest;
      rest := rest - {k};
      if over[k].Null? {
        out := out[k := Tree.Null];
      } else if k !in out {
        out := out[k := over[k]];
      } else if out[k].Mapping? && over[k].Mapping? {
        var merged := MergeMaps(out[k].entries, over[k].entries);
        out := out[k := Mapping(merged)];
      } else {
        out := out[k := over[k]];
      }
    }
  }

  // What a merged document says at a path, by asking the layers.

  /** The node a path of keys leads to, through mappings only. */
  function At(t: Tree, path: seq<string>): Option<Tree>
    decreases |path|
  {
    if path == [] then Some(t)
    else if t.Mapping? && path[0] in t.entries then At(t.entries[path[0]], path[1..])
    else None
  }

  /** Somewhere on the way to the end of the path the tree says something that
      is not a mapping. */
  predicate Blocks(t: Tree, path: seq<string>)
    decreases |path|
  {
    path != [] && (!t.Mapping? || (path[0] in t.entries && Blocks(t.entries[path[0]], path[1..])))
  }

  /** The upper layer decides wherever it says anything; a mapping there only
      adds to a mapping below; where it is silent the lower layer shows. */
  lemma {:induction false} MergeLookup(under: Entries, over: Entries, path: seq<string>)
    ensures At(Mapping(Merge(under, over)), path) ==
            var below := At(Mapping(under), path);
            match At(Mapping(over), path)
            case None => if Blocks(Mapping(over), path) then None else below
            case Some(t) =>
              if t.Mapping? && below.Some? && below.value.Mapping?
                then Some(Mapping(Merge(below.value.entries, t.entries)))
              else Some(t)
    decreases |path|
  {
    if path != [] {
      var k := path[0];
      if k in over && over[k].Mapping? && k in under && under[k].Mapping? {
        MergeLookup(under[k].entries, over[k].entries, path[1..]);
      } else if k in over {
        BlockedOrFound(over[k], path[1..]);
        if k in under && !under[k].Mapping? && over[k].Mapping? { BlockedOrFound(under[k], path[1..]); }
      }
    }
  }

  lemma {:induction false} BlockedOrFound(t: Tree, path: seq<string>)
    ensures Blocks(t, path) ==> At(t, path).None?
    ensures !t.Mapping? && path != [] ==> At(t, path).None? && Blocks(t, path)
    decreases |path|
  {
    if path != [] && t.Mapping? && path[0] in t.entries { BlockedOrFound(t.entries[path[0]], path[1..]); }
  }

  /** Applying the same layer again changes nothing. */
  lemma {:induction false} MergeIdempotent(under: Entries, over: Entries)
    ensures Merge(Merge(under, over), over) == Merge(under, over)
    decreases Mapping(over)
  {
    var once := Merge(under, over);
    forall k | k in over && over[k].Mapping? ensures Merge(once, over)[k] == once[k] {
      if k in under && under[k].Mapping? {
        MergeIdempotent(under[k].entries, over[k].entries);
      } else {
        MergeWithItself(over[k].entries);
      }
    }
    assert Merge(once, over).Keys == once.Keys;
  }

  lemma {:induction false} MergeWithItself(m: Entries)
    ensures Merge(m, m) == m
    decreases Mapping(m)
  {
    forall k | k in m && m[k].Mapping? ensures Merge(m, m)[k] == m[k] { MergeWithItself(m[k].entries); }
    assert Merge(m, m).Keys == m.Keys;
  }

  /** Every key of `under`, at every level the two share, is also in `over`. */
  predicate Covers(over: Entries, under: Entries)
    decreases Mapping(over)
  {
    forall k | k in under ::
      k in over && (over[k].Mapping? && under[k].Mapping? ==> Covers(over[k].entries, under[k].entries))
  }

  /** A layer hides the one below it exactly when it covers it. */
  lemma {:induction false} HiddenExactly(under: Entries, over: Entries)
    ensures Merge(under, over) == over <==> Covers(over, under)
    decreases Mapping(over)
  {
    var both := Merge(under, over);
    forall k | k in under && k in over && over[k].Mapping? && under[k].Mapping?
      ensures both[k] == over[k] <==> Covers(over[k].entries, under[k].entries)
    {
      HiddenExactly(under[k].entries, over[k].entries);
    }
    assert both.Keys == over.Keys <==> forall k | k in under :: k in over;
  }

  /** Where a middle layer cuts a mapping of the bottom layer off, with something
      that is not a mapping, the top layer's mapping must cover it. */
  predicate Reassociates(a: Entries, b: Entries, c: Entries)
    decreases Mapping(c)
  {
    forall k | k in a && k in b && k in c && a[k].Mapping? && c[k].Mapping? ::
      if b[k].Mapping? then Reassociates(a[k].entries, b[k].entries, c[k].entries)
      else Covers(c[k].entries, a[k].entries)
  }

  /** Layers can be combined beforehand exactly when no such cut is healed. */
  lemma {:induction false} MergeAssociatesExactly(a: Entries, b: Entries, c: Entries)
    ensures Merge(Merge(a, b), c) == Merge(a, Merge(b, c)) <==> Reassociates(a, b, c)
    decreases Mapping(c)
  {
    var left, right := Merge(Merge(a, b), c), Merge(a, Merge(b, c));
    forall k | k in a && k in b && k in c && a[k].Mapping? && c[k].Mapping?
      ensures left[k] == right[k] <==> if b[k].Mapping? then Reassociates(a[k].entries, b[k].entries, c[k].entries)
                                       else Covers(c[k].entries, a[k].entries)
    {
      if b[k].Mapping? {
        MergeAssociatesExactly(a[k].entries, b[k].entries, c[k].entries);
      } else {
        HiddenExactly(a[k].entries, c[k].entries);
      }
    }
    assert left.Keys == right.Keys;
    if left == right {
      forall k | k in left ensures left[k] == right[k] {}
    }
  }

  // ---------------------------------------------------------------------
  // Empty sequences of an overlay
  // ---------------------------------------------------------------------

  /** Empty sequences reached through mappings become clears. */
  function Mark(t: Tree): Tree {
    match t
    case Mapping(m) => Mapping(map k | k in m :: Mark(m[k]))
    case List(items) => if items == [] then Tree.Null else t
    case _ => t
  }

  method MarkEmptySequencesAsClears(tree: Entries) returns (out: Entries)
    ensures Mapping(out) == Mark(Mapping(tree))
    decreases Mapping(tree)
  {
    out := map[];
    var rest := tree.Keys;
    while rest != {}
      invariant rest <= tree.Keys && out.Keys == tree.Keys - rest
      invariant forall k | k in out :: out[k] == Mark(tree[k])
    {
      var k :| k in rest;
      rest := rest - {k};
      if tree[k].List? && tree[k].items == [] {
        out := out[k := Tree.Null];
      } else if tree[k].Mapping? {
        var marked := MarkEmptySequencesAsClears(tree[k].entries);
        out := out[k := Mapping(marked)];
      } else {
        out := out[k := tree[k]];
      }
    }
  }

  /** Marking a merged document is merging marked layers. */
  lemma {:induction false} MarkMerges(under: Entries, over: Entries)
    ensures Mark(Mapping(Merge(under, over))) ==
            Mapping(Merge(Mark(Mapping(under)).entries, Mark(Mapping(over)).entries))
    decreases Mapping(over)
  {
    var left := Mark(Mapping(Merge(under, over))).entries;
    var right := Merge(Mark(Mapping(under)).entries, Mark(Mapping(over)).entries);
    assert left.Keys == right.Keys;
    forall k | k in left ensures left[k] == right[k] {
      assert k in over ==> Mark(over[k]).Mapping? == over[k].Mapping?;
      assert k in under ==> Mark(under[k]).Mapping? == under[k].Mapping?;
      if k in over && over[k].Mapping? && k in under && under[k].Mapping? {
        MarkMerges(under[k].entries, over[k].entries);
      }
    }
  }

  /** Marking changes nothing but where a path ends in an empty sequence. */
  lemma {:induction false} MarkedLookup(t: Tree, path: seq<string>)
    ensures Blocks(Mark(t), path) == Blocks(t, path)
    ensures At(Mark(t), path) == match At(t, path)
                                 case None => None
                                 case Some(found) => Some(Mark(found))
    decreases |path|
  {
    if path != [] && t.Mapping? && path[0] in t.entries { MarkedLookup(t.entries[path[0]], path[1..]); }
  }

  // ---------------------------------------------------------------------
  // RFC 7396
  // ---------------------------------------------------------------------

  /** Keys whose value is null removed, through mappings. */
  function DropNulls(t: Tree): Tree {
    match t
    case Mapping(m) => Mapping(map k | k in m && !m[k].Null? :: DropNulls(m[k]))
    case _ => t
  }

  /** The MergePatch procedure of section 2 of RFC 7396; None is an undefined
      target. */
  function MergePatch(target: Option<Tree>, patch: Tree): Tree
    decreases patch
  {
    if patch.Mapping? then
      var t := if target.Some? && target.value.Mapping? then target.value.entries else map[];
      var p := patch.entries;
      Mapping(map k | k in t.Keys + p.Keys && (k in p ==> !p[k].Null?) ::
        if k !in p then t[k] else MergePatch(if k in t then Some(t[k]) else None, p[k]))
    else patch
  }

  /** Up to the nulls it writes out, the merge is JSON merge patch. */
  lemma {:induction false} MergeIsMergePatch(under: Entries, over: Entries)
    ensures DropNulls(Mapping(Merge(under, over))) == MergePatch(Some(DropNulls(Mapping(under))), Mapping(over))
    decreases Mapping(over)
  {
    var merged := Merge(under, over);
    var left := DropNulls(Mapping(merged)).entries;
    var target := DropNulls(Mapping(under)).entries;
    var right := MergePatch(Some(Mapping(target)), Mapping(over)).entries;
    assert left.Keys == right.Keys;
    forall k | k in left ensures left[k] == right[k] {
      if k in over {
        if over[k].Mapping? && k in under && under[k].Mapping? {
          MergeIsMergePatch(under[k].entries, over[k].entries);
        } else {
          assert k in target ==> target[k] == DropNulls(under[k]) && DropNulls(under[k]).Mapping? == under[k].Mapping?;
          PatchOfNothing(if k in target then Some(target[k]) else None, over[k]);
        }
      }
    }
  }

  lemma {:induction false} PatchOfNothing(target: Option<Tree>, patch: Tree)
    requires target.Some? ==> !target.value.Mapping? || !patch.Mapping?
    ensures MergePatch(target, patch) == DropNulls(patch)
    decreases patch
  {
    if patch.Mapping? {
      var left, right := MergePatch(target, patch).entries, DropNulls(patch).entries;
      assert left.Keys == right.Keys;
      forall k | k in left ensures left[k] == right[k] { PatchOfNothing(None, patch.entries[k]); }
    }
  }

  // ---------------------------------------------------------------------
  // Fixed key order
  // ---------------------------------------------------------------------

  /** A tree whose mappings list their keys in order, as it is serialised. */
  datatype Ordered =
    | ONull
    | OLeaf(value: Scalar)
    | OList(items: seq<Ordered>)
    | OMapping(pairs: seq<(string, Ordered)>)

  /** The one ordered form of a tree. */
  ghost function Arranged(t: Tree): Ordered
    decreases t, 2
  {
    match t
    case Null => ONull
    case Leaf(v) => OLeaf(v)
    case List(items) => OList(seq(|items|, i requires 0 <= i < |items| => Arranged(items[i])))
    case Mapping(m) => OMapping(Pairs(m))
  }

  ghost function Pairs(m: Entries): seq<(string, Ordered)>
    decreases Mapping(m), 1
  {
    PairsOf(m, InOrder(m.Keys))
  }

  ghost function PairsOf(m: Entries, keys: seq<string>): seq<(string, Ordered)>
    decreases Mapping(m), 0
  {
    seq(|keys|, i requires 0 <= i < |keys| => (keys[i], if keys[i] in m then Arranged(m[keys[i]]) else ONull))
  }

  /** toOrdered: whatever order the keys are collected in, the result is the
      same. */
  method ToOrdered(t: Tree) returns (o: Ordered)
    ensures o == Arranged(t)
    decreases t, 2
  {
    match t
    case Null => o := ONull;
    case Leaf(v) => o := OLeaf(v);
    case List(items) =>
      var out: seq<Ordered> := [];
      for i := 0 to |items|
        invariant |out| == i && forall j | 0 <= j < i :: out[j] == Arranged(items[j])
      {
        var item := ToOrdered(items[i]);
        out := out + [item];
      }
      o := OList(out);
    case Mapping(m) =>
      var collected := CollectKeys(m);
      var keys := SortStrings(collected);
      assert forall k | k in keys :: k in Elements(keys);
      var pairs := OrderPairs(m, keys);
      o := OMapping(pairs);
  }

  method OrderPairs(m: Entries, keys: seq<string>) returns (pairs: seq<(string, Ordered)>)
    requires forall k | k in keys :: k in m
    ensures pairs == PairsOf(m, keys)
    decreases Mapping(m), 0
  {
    pairs := [];
    for i := 0 to |keys|
      invariant |pairs| == i && forall j | 0 <= j < i :: pairs[j] == (keys[j], Arranged(m[keys[j]]))
    {
      var item := ToOrdered(m[keys[i]]);
      pairs := pairs + [(keys[i], item)];
    }
  }

  /** Different trees are arranged differently. */
  lemma {:induction false} ArrangedApart(a: Tree, b: Tree)
    requires Arranged(a) == Arranged(b)
    ensures a == b
    decreases a, 1
  {
    match a
    case Null =>
    case Leaf(v) =>
    case List(items) =>
      forall i | 0 <= i < |items| ensures items[i] == b.items[i] {
        assert Arranged(a).items[i] == Arranged(b).items[i];
        ArrangedApart(items[i], b.items[i]);
      }
    case Mapping(m) => PairsApart(m, b.entries);
  }

  lemma {:induction false} PairsApart(a: Entries, b: Entries)
    requires Pairs(a) == Pairs(b)
    ensures a == b
    decreases Mapping(a), 0
  {
    var keys, others := InOrder(a.Keys), InOrder(b.Keys);
    assert |keys| == |Pairs(a)| == |others|;
    forall i | 0 <= i < |keys| ensures keys[i] == others[i] {
      assert Pairs(a)[i].0 == keys[i] && Pairs(b)[i].0 == others[i];
    }
    assert keys == others;
    forall k | k in a ensures k in b && a[k] == b[k] {
      assert k in Elements(keys) && k in Elements(others);
      var i :| 0 <= i < |keys| && keys[i] == k;
      assert Pairs(a)[i].1 == Arranged(a[k]) && Pairs(b)[i].1 == Arranged(b[k]);
      ArrangedApart(a[k], b[k]);
    }
  }

  // ---------------------------------------------------------------------
  // The typed layer
  // ---------------------------------------------------------------------

  datatype Provision = Provision(mode: string, script: string)

  /** InstanceConfig; a zero number, an empty string or an empty list is unset. */
  datatype Typed = Typed(base: seq<string>, vmType: string, arch: string, cpus: int, memory: string, disk: string,
                         mounts: seq<Lima.Mount>, forwards: seq<Lima.PortForward>,
                         provision: seq<Provision>, disks: seq<string>)

  function TextField(s: string): Option<Tree> { if s == "" then None else Some(Leaf(Text(s))) }

  function NumberField(n: int): Option<Tree> { if n == 0 then None else Some(Leaf(Number(n))) }

  function ListField<T>(items: seq<T>, entries: T -> Entries): Option<Tree> {
    if items == [] then None
    else Some(List(seq(|items|, i requires 0 <= i < |items| => Mapping(entries(items[i])))))
  }

  /** The entries of the fields that are not None. */
  function Present(fields: map<string, Option<Tree>>): Entries {
    map k | k in fields && fields[k].Some? :: fields[k].value
  }

  function Single(key: string, value: string): Entries { map[key := Leaf(Text(value))] }

  function MountEntries(m: Lima.Mount): Entries {
    Present(map["location" := Some(Leaf(Text(m.location))), "mountPoint" := TextField(m.mountPoint),
                "writable" := Some(Leaf(Flag(m.writable)))])
  }

  function ForwardEntries(p: Lima.PortForward): Entries {
    Present(map["guestIP" := TextField(p.guestIP), "guestPort" := Some(Leaf(Number(p.guestPort))),
                "hostIP" := TextField(p.hostIP), "hostPort" := NumberField(p.hostPort), "proto" := TextField(p.proto)])
  }

  function ProvisionEntries(p: Provision): Entries {
    map["mode" := Leaf(Text(p.mode)), "script" := Leaf(Text(p.script))]
  }

  const TYPED_KEYS := {"base", "vmType", "arch", "cpus", "memory", "disk", "mounts", "portForwards", "provision",
                       "additionalDisks"}

  function TypedField(c: Typed, key: string): Option<Tree> {
    match key
    case "base" => ListField(c.base, url => Single("url", url))
    case "vmType" => TextField(c.vmType)
    case "arch" => TextField(c.arch)
    case "cpus" => NumberField(c.cpus)
    case "memory" => TextField(c.memory)
    case "disk" => TextField(c.disk)
    case "mounts" => ListField(c.mounts, MountEntries)
    case "portForwards" => ListField(c.forwards, ForwardEntries)
    case "provision" => ListField(c.provision, ProvisionEntries)
    case "additionalDisks" => ListField(c.disks, name => Single("name", name))
    case _ => None
  }

  /** toTree of the typed attributes. */
  function TypedTree(c: Typed): Entries {
    map k | k in TYPED_KEYS && TypedField(c, k).Some? :: TypedField(c, k).value
  }

  /** The attributes that are set, by the key Lima knows them under. */
  predicate IsSet(c: Typed, key: string) {
    match key
    case "base" => c.base != []
    case "vmType" => c.vmType != ""
    case "arch" => c.arch != ""
    case "cpus" => c.cpus != 0
    case "memory" => c.memory != ""
    case "disk" => c.disk != ""
    case "mounts" => c.mounts != []
    case "portForwards" => c.forwards != []
    case "provision" => c.provision != []
    case "additionalDisks" => c.disks != []
    case _ => false
  }

  /** A key of the typed layer stands for an attribute that is set, and what it
      holds replaces the base's value outright. */
  lemma TypedKeys(c: Typed, key: string)
    ensures key in TypedTree(c) <==> IsSet(c, key)
    ensures key in TypedTree(c) ==>
      TypedTree(c)[key].Leaf? || (TypedTree(c)[key].List? && TypedTree(c)[key].items != [])
  {
  }

  // ---------------------------------------------------------------------
  // Rendering
  // ---------------------------------------------------------------------

  /** What the YAML library makes of a text. */
  datatype Source = Broken | Parsed(tree: Tree)

  /** `config` is None when it is the empty text, `overrides` when they are
      blank: only the overrides are trimmed first. */
  datatype RenderRequest = RenderRequest(template: string, config: Option<Source>, typed: Typed,
                                         overrides: Option<Source>)

  datatype Refusal = BothGiven | ConfigRefused | OverridesRefused | NothingConfigured

  datatype Rendered = Document(doc: Ordered) | Refused(why: Refusal)

  /** A document must be a mapping; an empty document is an empty one. */
  function ParseMapping(s: Source): Option<Entries> {
    if s.Broken? then None
    else if s.tree.Null? then Some(map[])
    else if s.tree.Mapping? then Some(s.tree.entries)
    else None
  }

  function TemplateBase(template: string): Tree { List([Mapping(Single("url", template))]) }

  ghost function BaseOf(r: RenderRequest): Option<Entries> {
    if r.config.Some? then ParseMapping(r.config.value)
    else if r.template != "" then Some(map["base" := TemplateBase(r.template)])
    else Some(map[])
  }

  ghost function OverlayOf(r: RenderRequest): Option<Entries> {
    if r.overrides.Some? then ParseMapping(r.overrides.value) else Some(map[])
  }

  /** The three layers the provider combines. */
  ghost function Layered(base: Entries, typed: Typed, overlay: Entries): Entries {
    Merge(Merge(base, TypedTree(typed)), Mark(Mapping(overlay)).entries)
  }

  ghost predicate Configures(doc: Entries) { exists k | k in doc :: !doc[k].Null? }

  method ConfiguresAnything(doc: Entries) returns (r: bool)
    ensures r <==> Configures(doc)
  {
    var rest := doc.Keys;
    while rest != {}
      invariant rest <= doc.Keys && forall k | k in doc && !doc[k].Null? :: k in rest
    {
      var k :| k in rest;
      if !doc[k].Null? { return true; }
      rest := rest - {k};
    }
    r := false;
  }

  /** The document of three layers, if there is anything in it. */
  ghost function Composed(base: Entries, typed: Typed, overlay: Entries): Rendered {
    var doc := Layered(base, typed, overlay);
    if Configures(doc) then Document(Arranged(Mapping(doc))) else Refused(NothingConfigured)
  }

  /** Builds the document layer by layer. */
  method Render(req: RenderRequest) returns (r: Rendered)
    ensures r == var base, overlay := BaseOf(req), OverlayOf(req);
                 if req.template != "" && req.config.Some? then Refused(BothGiven)
                 else if base.None? then Refused(ConfigRefused)
                 else if overlay.None? then Refused(OverridesRefused)
                 else Composed(base.value, req.typed, overlay.value)
  {
    if req.template != "" && req.config.Some? { return Refused(BothGiven); }
    var doc: Entries := map[];
    if req.config.Some? {
      var parsed := ParseMapping(req.config.value);
      if parsed.None? { return Refused(ConfigRefused); }
      doc := parsed.value;
    } else if req.template != "" {
      doc := doc["base" := TemplateBase(req.template)];
    }
    assert BaseOf(req) == Some(doc);
    r := RenderOver(doc, req.typed, req.overrides);
  }

  /** Lays the typed attributes and the overrides over a base document. */
  method RenderOver(base: Entries, typed: Typed, overrides: Option<Source>) returns (r: Rendered)
    ensures r == if overrides.None? then Composed(base, typed, map[])
                 else if ParseMapping(overrides.value).None? then Refused(OverridesRefused)
                 else Composed(base, typed, ParseMapping(overrides.value).value)
  {
    var doc := MergeMaps(base, TypedTree(typed));
    if overrides.Some? {
      var parsed := ParseMapping(overrides.value);
      if parsed.None? { return Refused(OverridesRefused); }
      var overlay := MarkEmptySequencesAsClears(parsed.value);
      doc := MergeMaps(doc, overlay);
    } else {
      assert Mark(Mapping(map[])) == Mapping(map[]) && Merge(doc, map[]) == doc;
    }
    var any := ConfiguresAnything(doc);
    if !any { return Refused(NothingConfigured); }
    var ordered := ToOrdered(Mapping(doc));
    r := Document(ordered);
  }

  /** Which layer a top-level key comes from. */
  lemma LayerOf(base: Entries, typed: Typed, overlay: Entries, key: string)
    ensures var doc := Layered(base, typed, overlay);
            var below := if IsSet(typed, key) then Some(TypedTree(typed)[key])
                         else if key in base then Some(base[key]) else None;
            && (key in doc <==> key in overlay || below.Some?)
            && (key in doc && key !in overlay ==> Some(doc[key]) == below)
            && (key in overlay ==>
                  doc[key] == if overlay[key].Mapping? && below.Some? && below.value.Mapping?
                    then Mapping(Merge(below.value.entries, Mark(overlay[key]).entries))
                    else Mark(overlay[key]))
  {
    TypedKeys(typed, key);
    assert key in overlay ==> Mark(overlay[key]).Mapping? == overlay[key].Mapping?;
  }

  /** An attribute that is not set leaves its key to the other layers, whatever
      else is set. */
  lemma UnsetAttributeIsSilent(base: Entries, typed: Typed, overlay: Entries, key: string)
    requires !IsSet(typed, key)
    ensures var doc, without := Layered(base, typed, overlay), Merge(base, Mark(Mapping(overlay)).entries);
            (key in doc <==> key in without) && (key in doc ==> doc[key] == without[key])
  {
    LayerOf(base, typed, overlay, key);
    assert key in overlay ==> Mark(overlay[key]).Mapping? == overlay[key].Mapping?;
  }

  /** A null or an empty sequence that the overrides reach through mappings is a
      null in the document, at any depth and over any base. */
  lemma ClearsReachTheDocument(base: Entries, typed: Typed, overlay: Entries, path: seq<string>)
    requires path != [] && At(Mapping(overlay), path) in {Some(Tree.Null), Some(List([]))}
    ensures At(Mapping(Layered(base, typed, overlay)), path) == Some(Tree.Null)
  {
    MarkedLookup(Mapping(overlay), path);
    MergeLookup(Merge(base, TypedTree(typed)), Mark(Mapping(overlay)).entries, path);
  }

  /** Conversely, a null in the document is one of the overrides' clears, or one
      the base has and nothing above it touches. */
  lemma NullsComeFromSomewhere(base: Entries, typed: Typed, overlay: Entries, path: seq<string>)
    requires path != [] && At(Mapping(Layered(base, typed, overlay)), path) == Some(Tree.Null)
    ensures At(Mapping(overlay), path) in {Some(Tree.Null), Some(List([]))}
         || (At(Mapping(overlay), path).None? && At(Mapping(base), path) == Some(Tree.Null) && !IsSet(typed, path[0]))
  {
    MarkedLookup(Mapping(overlay), path);
    MergeLookup(Merge(base, TypedTree(typed)), Mark(Mapping(overlay)).entries, path);
    MergeLookup(base, TypedTree(typed), path);
    TypedKeys(typed, path[0]);
    if IsSet(typed, path[0]) { BlockedOrFound(TypedTree(typed)[path[0]], path[1..]); }
  }

  /** The tree with something else at a path it has. */
  function SetAt(t: Tree, path: seq<string>, v: Tree): Tree
    decreases |path|
  {
    if path == [] then v
    else if t.Mapping? && path[0] in t.entries
      then Mapping(t.entries[path[0] := SetAt(t.entries[path[0]], path[1..], v)])
    else t
  }

  /** `[]` and `null` are two spellings of one override. */
  lemma {:induction false} SpellingsOfAClear(t: Tree, path: seq<string>)
    ensures Mark(SetAt(t, path, List([]))) == Mark(SetAt(t, path, Tree.Null))
    decreases |path|
  {
    if path != [] && t.Mapping? && path[0] in t.entries {
      SpellingsOfAClear(t.entries[path[0]], path[1..]);
      var a, b := Mark(SetAt(t, path, List([]))).entries, Mark(SetAt(t, path, Tree.Null)).entries;
      assert a.Keys == b.Keys == t.entries.Keys;
      forall k | k in a ensures a[k] == b[k] {}
    }
  }

  lemma SpellingsRenderAlike(base: Entries, typed: Typed, overlay: Entries, path: seq<string>)
    requires path != []
    ensures SetAt(Mapping(overlay), path, List([])).Mapping? && SetAt(Mapping(overlay), path, Tree.Null).Mapping?
    ensures Composed(base, typed, SetAt(Mapping(overlay), path, List([])).entries) ==
            Composed(base, typed, SetAt(Mapping(overlay), path, Tree.Null).entries)
  {
    SpellingsOfAClear(Mapping(overlay), path);
  }

  /** When a document is refused as empty. */
  lemma ConfiguresExactly(base: Entries, typed: Typed, overlay: Entries)
    ensures Configures(Layered(base, typed, overlay)) <==>
            || (exists k | k in overlay :: overlay[k] !in {Tree.Null, List([])})
            || (exists k | k in TypedTree(typed) :: k !in overlay)
            || (exists k | k in base :: !base[k].Null? && k !in overlay)
  {
    var doc := Layered(base, typed, overlay);
    forall k ensures k in doc && !doc[k].Null? <==>
                     if k in overlay then overlay[k] !in {Tree.Null, List([])}
                     else k in TypedTree(typed) || (k in base && !base[k].Null?)
    {
      LayerOf(base, typed, overlay, k);
      TypedKeys(typed, k);
      if k in overlay && overlay[k].Mapping? { assert !doc[k].Null?; }
    }
  }
}
