// The environment a limactl process is given: buildEnv of
// internal/lima/commands.go.

module Environment {
  import opened Values
  import opened Ordering

  /** strings.Cut at the first "=": the key, and the value if there is one. */
  function Cut(entry: string): (r: (string, Option<string>))
    ensures '=' !in r.0
    ensures entry == match r.1 case None => r.0 case Some(v) => r.0 + "=" + v
  {
    if entry == "" then ("", None)
    else if entry[0] == '=' then ("", Some(entry[1..]))
    else var rest := Cut(entry[1..]); ([entry[0]] + rest.0, rest.1)
  }

  predicate WellFormed(entry: string) { Cut(entry).0 != "" && Cut(entry).1.Some? }

  /** The last inherited value of a key. */
  function Inherited(base: seq<string>, key: string): Option<string> {
    if base == [] then None
    else
      var last := base[|base| - 1];
      if WellFormed(last) && Cut(last).0 == key then Cut(last).1 else Inherited(base[..|base| - 1], key)
  }

  /** What the process sees: provider entries first, then the configured home,
      then what was inherited. */
  function Lookup(base: seq<string>, home: string, extra: map<string, string>, key: string): Option<string> {
    if key in extra then Some(extra[key]) else Configured(base, home, key)
  }

  function Configured(base: seq<string>, home: string, key: string): Option<string> {
    if home != "" && key == HOME_KEY then Some(home) else Inherited(base, key)
  }

  const HOME_KEY := "LIMA_HOME"

  /** The keys of the well-formed entries, in order. */
  function KeysOf(base: seq<string>): seq<string> {
    if base == [] then []
    else
      var last := base[|base| - 1];
      KeysOf(base[..|base| - 1]) + if WellFormed(last) then [Cut(last).0] else []
  }

  /** Every key that gets a value, in the order the values are given. */
  ghost function Announced(base: seq<string>, home: string, extra: map<string, string>): seq<string> {
    ConfiguredKeys(base, home) + InOrder(extra.Keys)
  }

  function ConfiguredKeys(base: seq<string>, home: string): seq<string> {
    if home != "" then KeysOf(base) + [HOME_KEY] else KeysOf(base)
  }

  /** Repetitions dropped, first appearances kept in place. */
  function FirstSeen(s: seq<string>): seq<string> {
    if s == [] then []
    else
      var seen := FirstSeen(s[..|s| - 1]);
      if s[|s| - 1] in seen then seen else seen + [s[|s| - 1]]
  }

  /** The composed environment. */
  ghost function Environ(base: seq<string>, home: string, extra: map<string, string>): seq<string> {
    var order := FirstSeen(Announced(base, home, extra));
    seq(|order|, i requires 0 <= i < |order| => Entry(order[i], Lookup(base, home, extra, order[i])))
  }

  function Entry(key: string, value: Option<string>): string { key + "=" + value.Or("") }

  // ---------------------------------------------------------------------
  // What the process sees
  // ---------------------------------------------------------------------

  /** Where a key first appears. */
  function First(s: seq<string>, k: string): (i: nat)
    requires k in s
    ensures i < |s| && s[i] == k && forall j | 0 <= j < i :: s[j] != k
  {
    if s[0] == k then 0 else 1 + First(s[1..], k)
  }

  /** First appearances stay in order; so no key is there twice. */
  lemma {:induction false} FirstSeenOrder(s: seq<string>, i: nat, j: nat)
    requires i < j < |FirstSeen(s)|
    ensures FirstSeen(s)[i] in s && FirstSeen(s)[j] in s && First(s, FirstSeen(s)[i]) < First(s, FirstSeen(s)[j])
  {
    var init, last := s[..|s| - 1], s[|s| - 1];
    var seen := FirstSeen(init);
    assert s == init + [last];
    FirstSeenKeeps(init);
    assert seen[i] in Elements(seen);
    FirstAppended(init, last, seen[i]);
    if j < |seen| {
      assert seen[j] in Elements(seen);
      FirstSeenOrder(init, i, j);
      FirstAppended(init, last, seen[j]);
    } else {
      assert last !in Elements(seen);
      assert First(s, last) >= |init|;
    }
  }

  lemma FirstAppended(s: seq<string>, last: string, k: string)
    requires k in s
    ensures First(s + [last], k) == First(s, k)
  {
    assert (s + [last])[First(s, k)] == k;
  }

  /** A key has a value exactly when it was announced. */
  lemma {:induction false} AnnouncedHasValue(base: seq<string>, k: string)
    ensures k in Elements(KeysOf(base)) <==> Inherited(base, k).Some?
  {
    if base != [] {
      var last := base[|base| - 1];
      AnnouncedHasValue(base[..|base| - 1], k);
      ElementsOfAppend(KeysOf(base[..|base| - 1]), Cut(last).0);
    }
  }

  lemma ValueOfEvery(base: seq<string>, home: string, extra: map<string, string>, k: string)
    ensures k in Elements(FirstSeen(Announced(base, home, extra))) <==> Lookup(base, home, extra, k).Some?
  {
    FirstSeenKeeps(Announced(base, home, extra));
    AnnouncedHasValue(base, k);
    ElementsOfAppend(KeysOf(base), HOME_KEY);
    var left, right := ConfiguredKeys(base, home), InOrder(extra.Keys);
    assert k in Elements(left + right) <==> k in Elements(left) || k in Elements(right);
  }

  predicate KeysUsable(extra: map<string, string>) { forall k | k in extra :: k != "" && '=' !in k }

  lemma {:induction false} CutOfEntry(key: string, value: string)
    requires '=' !in key
    ensures Cut(key + "=" + value) == (key, Some(value))
  {
    var entry := key + "=" + value;
    if key == "" {
      assert entry[1..] == value;
    } else {
      assert entry[1..] == key[1..] + "=" + value;
      CutOfEntry(key[1..], value);
      assert key == [key[0]] + key[1..];
    }
  }

  lemma {:induction false} LastWins(env: seq<string>, i: nat, key: string)
    requires i < |env| && WellFormed(env[i]) && Cut(env[i]).0 == key
    requires forall j | i < j < |env| :: Cut(env[j]).0 != key
    ensures Inherited(env, key) == Cut(env[i]).1
  {
    if i < |env| - 1 { LastWins(env[..|env| - 1], i, key); }
  }

  lemma {:induction false} InheritedFromSomewhere(env: seq<string>, key: string)
    requires Inherited(env, key).Some?
    ensures key != "" && '=' !in key && exists i | 0 <= i < |env| :: Cut(env[i]).0 == key
  {
    var last := env[|env| - 1];
    if WellFormed(last) && Cut(last).0 == key {
      assert Cut(env[|env| - 1]).0 == key;
    } else {
      InheritedFromSomewhere(env[..|env| - 1], key);
    }
  }

  lemma {:induction false} KeysOfUsable(base: seq<string>)
    ensures forall k | k in KeysOf(base) :: k != "" && '=' !in k
  {
    if base != [] { KeysOfUsable(base[..|base| - 1]); }
  }

  /** Each entry of the result splits back into the key it was made for. */
  lemma EntriesSplit(base: seq<string>, home: string, extra: map<string, string>, i: nat)
    requires KeysUsable(extra) && i < |Environ(base, home, extra)|
    ensures var key := FirstSeen(Announced(base, home, extra))[i];
            && WellFormed(Environ(base, home, extra)[i])
            && Cut(Environ(base, home, extra)[i]) == (key, Lookup(base, home, extra, key))
  {
    var announced := Announced(base, home, extra);
    var key := FirstSeen(announced)[i];
    assert key in Elements(FirstSeen(announced));
    ValueOfEvery(base, home, extra, key);
    FirstSeenKeeps(announced);
    KeysOfUsable(base);
    assert key in InOrder(extra.Keys) ==> key in Elements(InOrder(extra.Keys));
    CutOfEntry(key, Lookup(base, home, extra, key).value);
  }

  /** Read back, the environment answers as the layers do. */
  lemma ProcessSees(base: seq<string>, home: string, extra: map<string, string>, key: string)
    requires KeysUsable(extra)
    ensures Inherited(Environ(base, home, extra), key) == Lookup(base, home, extra, key)
  {
    var env, order := Environ(base, home, extra), FirstSeen(Announced(base, home, extra));
    ValueOfEvery(base, home, extra, key);
    if Lookup(base, home, extra, key).Some? {
      var i: nat :| i < |order| && order[i] == key;
      EntriesSplit(base, home, extra, i);
      forall j | i < j < |env| ensures Cut(env[j]).0 != key {
        EntriesSplit(base, home, extra, j);
        FirstSeenOrder(Announced(base, home, extra), i, j);
      }
      LastWins(env, i, key);
    } else if Inherited(env, key).Some? {
      InheritedFromSomewhere(env, key);
      var i: nat :| i < |env| && Cut(env[i]).0 == key;
      EntriesSplit(base, home, extra, i);
    }
  }

  /** The layered lookup holds for every key exactly when no caller key is empty
      or contains "=". */
  lemma ProcessSeesExactly(base: seq<string>, home: string, extra: map<string, string>)
    ensures (forall key :: Inherited(Environ(base, home, extra), key) == Lookup(base, home, extra, key))
            <==> KeysUsable(extra)
  {
    if KeysUsable(extra) {
      forall key ensures Inherited(Environ(base, home, extra), key) == Lookup(base, home, extra, key) {
        ProcessSees(base, home, extra, key);
      }
    } else {
      var bad :| bad in extra && (bad == "" || '=' in bad);
      if Inherited(Environ(base, home, extra), bad).Some? { InheritedFromSomewhere(Environ(base, home, extra), bad); }
      assert Inherited(Environ(base, home, extra), bad) != Lookup(base, home, extra, bad);
    }
  }

  // ---------------------------------------------------------------------
  // The method
  // ---------------------------------------------------------------------

  /** `order` and `merged` hold exactly the keys announced so far. */
  ghost predicate Records(order: seq<string>, merged: map<string, string>, announced: seq<string>) {
    order == FirstSeen(announced) && merged.Keys == Elements(order)
  }

  lemma FirstSeenAppend(s: seq<string>, k: string)
    ensures FirstSeen(s + [k]) == if k in Elements(FirstSeen(s)) then FirstSeen(s) else FirstSeen(s) + [k]
  {
    assert (s + [k])[..|s|] == s;
  }

  lemma {:induction false} FirstSeenKeeps(s: seq<string>)
    ensures Elements(FirstSeen(s)) == Elements(s)
  {
    if s != [] {
      var init, last := s[..|s| - 1], s[|s| - 1];
      FirstSeenKeeps(init);
      ElementsOfAppend(init, last);
      ElementsOfAppend(FirstSeen(init), last);
      assert s == init + [last];
    }
  }

  /** One more inherited entry. */
  lemma InheritedAppend(base: seq<string>, entry: string)
    ensures KeysOf(base + [entry]) == if WellFormed(entry) then KeysOf(base) + [Cut(entry).0] else KeysOf(base)
    ensures forall k :: Inherited(base + [entry], k) ==
                        if WellFormed(entry) && Cut(entry).0 == k then Cut(entry).1 else Inherited(base, k)
  {
    assert (base + [entry])[..|base|] == base;
  }

  method Put(order: seq<string>, merged: map<string, string>, k: string, v: string, ghost announced: seq<string>)
    returns (order': seq<string>, merged': map<string, string>)
    requires Records(order, merged, announced)
    ensures Records(order', merged', announced + [k]) && merged' == merged[k := v]
  {
    order', merged' := order, merged;
    FirstSeenAppend(announced, k);
    ElementsOfAppend(order, k);
    if k !in merged { order' := order + [k]; }
    merged' := merged'[k := v];
  }

  method BuildEnv(base: seq<string>, home: string, extra: map<string, string>) returns (out: seq<string>)
    ensures out == Environ(base, home, extra)
  {
    var order, merged := PutInherited(base);
    if home != "" {
      order, merged := Put(order, merged, HOME_KEY, home, KeysOf(base));
    }
    order, merged := PutExtra(order, merged, base, home, extra);
    out := Join(order, merged);
  }

  /** Exactly what the entries read so far give. */
  ghost predicate Inherits(order: seq<string>, merged: map<string, string>, done: seq<string>) {
    Records(order, merged, KeysOf(done)) && forall k | k in merged :: Some(merged[k]) == Inherited(done, k)
  }

  method PutInherited(base: seq<string>) returns (order: seq<string>, merged: map<string, string>)
    ensures Inherits(order, merged, base)
  {
    merged, order := map[], [];
    ghost var done: seq<string> := [];
    for n := 0 to |base|
      invariant done == base[..n]
      invariant Inherits(order, merged, done)
    {
      order, merged := PutEntry(order, merged, base[n], done);
      done := done + [base[n]];
    }
    assert done == base;
  }

  /** One inherited entry; one without a key or without "=" is skipped. */
  method PutEntry(order: seq<string>, merged: map<string, string>, entry: string, ghost done: seq<string>)
    returns (order': seq<string>, merged': map<string, string>)
    requires Inherits(order, merged, done)
    ensures Inherits(order', merged', done + [entry])
  {
    order', merged' := order, merged;
    InheritedAppend(done, entry);
    var cut := Cut(entry);
    if cut.1.Some? && cut.0 != "" {
      order', merged' := Put(order, merged, cut.0, cut.1.value, KeysOf(done));
    }
  }

  /** The caller's entries, in key order rather than in map order. */
  method PutExtra(order: seq<string>, merged: map<string, string>, ghost base: seq<string>, ghost home: string,
                  extra: map<string, string>)
    returns (order': seq<string>, merged': map<string, string>)
    requires Records(order, merged, ConfiguredKeys(base, home))
    requires forall k | k in merged :: Some(merged[k]) == Configured(base, home, k)
    ensures Records(order', merged', Announced(base, home, extra))
    ensures forall k | k in merged' :: Some(merged'[k]) == Lookup(base, home, extra, k)
  {
    var collected := CollectKeys(extra);
    var keys := SortStrings(collected);
    assert forall k | k in keys :: k in Elements(keys);
    order', merged' := PutKeys(order, merged, extra, keys, ConfiguredKeys(base, home));
  }

  /** The values of `done` come from `extra`, all others from `below`. */
  ghost predicate Overlays(merged: map<string, string>, below: map<string, string>, extra: map<string, string>,
                           done: set<string>) {
    forall k | k in merged ::
      if k in done then k in extra && merged[k] == extra[k] else k in below && merged[k] == below[k]
  }

  method PutKeys(order: seq<string>, merged: map<string, string>, extra: map<string, string>, keys: seq<string>,
                 ghost announced: seq<string>)
    returns (order': seq<string>, merged': map<string, string>)
    requires Records(order, merged, announced) && forall k | k in keys :: k in extra
    ensures Records(order', merged', announced + keys) && Overlays(merged', merged, extra, Elements(keys))
  {
    order', merged' := order, merged;
    ghost var done: seq<string> := [];
    assert announced + done == announced;
    for n := 0 to |keys|
      invariant done == keys[..n]
      invariant Records(order', merged', announced + done) && Overlays(merged', merged, extra, Elements(done))
    {
      order', merged' := Put(order', merged', keys[n], extra[keys[n]], announced + done);
      ElementsOfAppend(done, keys[n]);
      assert announced + (done + [keys[n]]) == announced + done + [keys[n]];
      done := done + [keys[n]];
    }
    assert done == keys;
  }

  method Join(order: seq<string>, merged: map<string, string>) returns (out: seq<string>)
    requires Elements(order) <= merged.Keys
    ensures |out| == |order|
    ensures forall i | 0 <= i < |order| :: order[i] in merged && out[i] == Entry(order[i], Some(merged[order[i]]))
  {
    out := [];
    for n := 0 to |order|
      invariant |out| == n
      invariant forall i | 0 <= i < n :: order[i] in merged && out[i] == Entry(order[i], Some(merged[order[i]]))
    {
      assert order[n] in Elements(order);
      out := out + [order[n] + "=" + merged[order[n]]];
    }
  }
}
