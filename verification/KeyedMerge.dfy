// The list merge shared by mounts and port forwards in
// internal/lima/lifecycle.go: entries are identified by a key, the first match
// of every previously declared entry is taken out of the resolved list, and
// what is left follows the newly declared entries.

module KeyedMerge {

  /** The position of the first entry with a key, or -1. */
  function IndexOf<T, K(==)>(key: T -> K, list: seq<T>, k: K): (r: int)
    ensures -1 <= r < |list|
    ensures r >= 0 ==> key(list[r]) == k && forall i | 0 <= i < r :: key(list[i]) != k
    ensures r < 0 ==> forall i | 0 <= i < |list| :: key(list[i]) != k
  {
    if list == [] then -1
    else if key(list[0]) == k then 0
    else
      var rest := IndexOf(key, list[1..], k);
      if rest < 0 then -1 else rest + 1
  }

  function RemoveFirst<T, K(==)>(key: T -> K, list: seq<T>, k: K): seq<T> {
    var i := IndexOf(key, list, k);
    if i < 0 then list else list[..i] + list[i + 1..]
  }

  /** Takes out the first match of every previous entry, in order. */
  function RemoveEach<T, K(==)>(key: T -> K, list: seq<T>, previous: seq<T>): seq<T>
    decreases |previous|
  {
    if previous == [] then list else RemoveEach(key, RemoveFirst(key, list, key(previous[0])), previous[1..])
  }

  /** The entries whose key no desired entry has. */
  function Inherited<T, K(==)>(key: T -> K, keep: seq<T>, desired: seq<T>): seq<T> {
    if keep == [] then []
    else
      var rest := Inherited(key, keep[1..], desired);
      if IndexOf(key, desired, key(keep[0])) >= 0 then rest else [keep[0]] + rest
  }

  function Merge<T, K(==)>(key: T -> K, resolved: seq<T>, previous: seq<T>, desired: seq<T>): seq<T> {
    desired + Inherited(key, RemoveEach(key, resolved, previous), desired)
  }

  // ---------------------------------------------------------------------
  // What a merge is, key by key
  // ---------------------------------------------------------------------

  /** The entries with one key, in order. */
  function OfKey<T, K(==)>(key: T -> K, list: seq<T>, k: K): seq<T> {
    if list == [] then []
    else if key(list[0]) == k then [list[0]] + OfKey(key, list[1..], k)
    else OfKey(key, list[1..], k)
  }

  /** `part` is `list` with some entries left out and the order kept. */
  ghost predicate Selection<T>(part: seq<T>, list: seq<T>) {
    || part == []
    || (list != [] && ((part[0] == list[0] && Selection(part[1..], list[1..])) || Selection(part, list[1..])))
  }

  ghost predicate Distinct<T, K>(key: T -> K, list: seq<T>) {
    forall i, j | 0 <= i < j < |list| :: key(list[i]) != key(list[j])
  }

  lemma {:induction false} OfKeyAppend<T, K>(key: T -> K, a: seq<T>, b: seq<T>, k: K)
    ensures OfKey(key, a + b, k) == OfKey(key, a, k) + OfKey(key, b, k)
  {
    if a == [] {
      assert a + b == b;
    } else {
      assert (a + b)[1..] == a[1..] + b;
      OfKeyAppend(key, a[1..], b, k);
    }
  }

  lemma {:induction false} OfKeyNone<T, K>(key: T -> K, list: seq<T>, k: K)
    ensures OfKey(key, list, k) == [] <==> IndexOf(key, list, k) < 0
  {
    if list != [] { OfKeyNone(key, list[1..], k); }
  }

  lemma {:induction false} RemoveFirstByKey<T, K>(key: T -> K, list: seq<T>, k: K, j: K)
    ensures OfKey(key, RemoveFirst(key, list, k), j)
         == if j == k && OfKey(key, list, k) != [] then OfKey(key, list, k)[1..] else OfKey(key, list, j)
  {
    OfKeyNone(key, list, k);
    if list == [] {
    } else if key(list[0]) == k {
      assert RemoveFirst(key, list, k) == list[1..];
    } else if IndexOf(key, list, k) >= 0 {
      RemoveFirstByKey(key, list[1..], k, j);
      assert RemoveFirst(key, list, k) == [list[0]] + RemoveFirst(key, list[1..], k);
    }
  }

  lemma {:induction false} RemoveEachByKey<T, K>(key: T -> K, list: seq<T>, previous: seq<T>, k: K)
    ensures var have, gone := OfKey(key, list, k), |OfKey(key, previous, k)|;
      OfKey(key, RemoveEach(key, list, previous), k) == if gone <= |have| then have[gone..] else []
    decreases |previous|
  {
    if previous != [] {
      RemoveFirstByKey(key, list, key(previous[0]), k);
      RemoveEachByKey(key, RemoveFirst(key, list, key(previous[0])), previous[1..], k);
    }
  }

  lemma {:induction false} InheritedByKey<T, K>(key: T -> K, keep: seq<T>, desired: seq<T>, k: K)
    ensures OfKey(key, Inherited(key, keep, desired), k)
         == if IndexOf(key, desired, k) >= 0 then [] else OfKey(key, keep, k)
  {
    if keep != [] {
      InheritedByKey(key, keep[1..], desired, k);
      OfKeyAppend(key, [keep[0]], Inherited(key, keep[1..], desired), k);
    }
  }

  /** The merge, exactly, on all inputs: a declared key has the declared entries;
      any other key has what was resolved for it, less as many of its first
      entries as were previously declared. */
  lemma MergeByKey<T, K>(key: T -> K, resolved: seq<T>, previous: seq<T>, desired: seq<T>, k: K)
    ensures var have, gone := OfKey(key, resolved, k), |OfKey(key, previous, k)|;
      OfKey(key, Merge(key, resolved, previous, desired), k)
        == if OfKey(key, desired, k) != [] then OfKey(key, desired, k)
           else if gone <= |have| then have[gone..] else []
  {
    var keep := RemoveEach(key, resolved, previous);
    RemoveEachByKey(key, resolved, previous, k);
    InheritedByKey(key, keep, desired, k);
    OfKeyNone(key, desired, k);
    OfKeyAppend(key, desired, Inherited(key, keep, desired), k);
  }

  lemma {:induction false} SelectionTransitive<T>(a: seq<T>, b: seq<T>, c: seq<T>)
    requires Selection(a, b) && Selection(b, c)
    ensures Selection(a, c)
    decreases |c|
  {
    if a != [] {
      if b[0] == c[0] && Selection(b[1..], c[1..]) {
        if a[0] == b[0] && Selection(a[1..], b[1..]) {
          SelectionTransitive(a[1..], b[1..], c[1..]);
        } else {
          SelectionTransitive(a, b[1..], c[1..]);
        }
      } else {
        SelectionTransitive(a, b, c[1..]);
      }
    }
  }

  lemma {:induction false} SelectionReflexive<T>(a: seq<T>)
    ensures Selection(a, a)
  {
    if a != [] { SelectionReflexive(a[1..]); }
  }

  lemma {:induction false} DropOneSelects<T>(list: seq<T>, i: nat)
    requires i < |list|
    ensures Selection(list[..i] + list[i + 1..], list)
  {
    if i == 0 {
      SelectionReflexive(list[1..]);
      assert list[..0] + list[1..] == list[1..];
    } else {
      DropOneSelects(list[1..], i - 1);
      var part := list[..i] + list[i + 1..];
      assert part[1..] == list[1..][..i - 1] + list[1..][i..];
    }
  }

  lemma {:induction false} RemoveEachSelects<T, K>(key: T -> K, list: seq<T>, previous: seq<T>)
    ensures Selection(RemoveEach(key, list, previous), list)
    decreases |previous|
  {
    if previous == [] {
      SelectionReflexive(list);
    } else {
      var i := IndexOf(key, list, key(previous[0]));
      var next := RemoveFirst(key, list, key(previous[0]));
      if i >= 0 { DropOneSelects(list, i); } else { SelectionReflexive(list); }
      RemoveEachSelects(key, next, previous[1..]);
      SelectionTransitive(RemoveEach(key, next, previous[1..]), next, list);
    }
  }

  lemma {:induction false} InheritedSelects<T, K>(key: T -> K, keep: seq<T>, desired: seq<T>)
    ensures Selection(Inherited(key, keep, desired), keep)
  {
    if keep != [] { InheritedSelects(key, keep[1..], desired); }
  }

  /** The declared list comes first, untouched, and the rest is an
      order-preserving selection of the resolved entries. */
  lemma MergeShape<T, K>(key: T -> K, resolved: seq<T>, previous: seq<T>, desired: seq<T>)
    ensures var m := Merge(key, resolved, previous, desired);
      |desired| <= |m| && m[..|desired|] == desired && Selection(m[|desired|..], resolved)
  {
    var keep := RemoveEach(key, resolved, previous);
    RemoveEachSelects(key, resolved, previous);
    InheritedSelects(key, keep, desired);
    SelectionTransitive(Inherited(key, keep, desired), keep, resolved);
    var m := Merge(key, resolved, previous, desired);
    assert m[|desired|..] == Inherited(key, keep, desired);
  }

  lemma {:induction false} DistinctByKey<T, K>(key: T -> K, list: seq<T>)
    ensures Distinct(key, list) <==> forall i | 0 <= i < |list| :: |OfKey(key, list, key(list[i]))| <= 1
  {
    if list != [] {
      var x, rest := list[0], list[1..];
      DistinctByKey(key, rest);
      forall i | 0 <= i < |list|
        ensures OfKey(key, list, key(list[i]))
             == (if key(x) == key(list[i]) then [x] else []) + OfKey(key, rest, key(list[i]))
      {
      }
      OfKeyNone(key, rest, key(x));
      if Distinct(key, list) {
        forall i | 0 <= i < |list| ensures |OfKey(key, list, key(list[i]))| <= 1 {
          if i > 0 { assert key(list[0]) != key(list[i]) && rest[i - 1] == list[i]; }
        }
      } else if Distinct(key, rest) {
        assert |OfKey(key, list, key(list[0]))| >= 2;
      } else {
        var i :| 0 <= i < |rest| && |OfKey(key, rest, key(rest[i]))| > 1;
        assert list[i + 1] == rest[i];
      }
    }
  }

  lemma {:induction false} OfKeyHas<T, K>(key: T -> K, list: seq<T>, i: nat)
    requires i < |list|
    ensures list[i] in OfKey(key, list, key(list[i]))
  {
    if i > 0 { OfKeyHas(key, list[1..], i - 1); }
  }

  /** On lists without duplicate keys the merge has none either; it keeps each
      resolved entry that was not and is not declared, exactly once, and drops
      one that was declared and no longer is. */
  lemma MergeWithoutDuplicates<T, K>(key: T -> K, resolved: seq<T>, previous: seq<T>, desired: seq<T>)
    requires Distinct(key, resolved) && Distinct(key, desired)
    ensures Distinct(key, Merge(key, resolved, previous, desired))
    ensures forall i | 0 <= i < |resolved| && IndexOf(key, desired, key(resolved[i])) < 0 ::
      OfKey(key, Merge(key, resolved, previous, desired), key(resolved[i]))
        == if IndexOf(key, previous, key(resolved[i])) < 0 then [resolved[i]] else []
  {
    var m := Merge(key, resolved, previous, desired);
    forall i | 0 <= i < |m| ensures |OfKey(key, m, key(m[i]))| <= 1 {
      MergeByKey(key, resolved, previous, desired, key(m[i]));
      AtMostOne(key, resolved, key(m[i]));
      AtMostOne(key, desired, key(m[i]));
    }
    DistinctByKey(key, m);
    forall i | 0 <= i < |resolved| && IndexOf(key, desired, key(resolved[i])) < 0
      ensures OfKey(key, m, key(resolved[i]))
           == if IndexOf(key, previous, key(resolved[i])) < 0 then [resolved[i]] else []
    {
      var k := key(resolved[i]);
      MergeByKey(key, resolved, previous, desired, k);
      AtMostOne(key, resolved, k);
      OfKeyHas(key, resolved, i);
      assert OfKey(key, resolved, k) == [resolved[i]];
      OfKeyNone(key, desired, k);
      OfKeyNone(key, previous, k);
    }
  }

  lemma AtMostOne<T, K>(key: T -> K, list: seq<T>, k: K)
    requires Distinct(key, list)
    ensures |OfKey(key, list, k)| <= 1
  {
    OfKeyNone(key, list, k);
    DistinctByKey(key, list);
  }

  // ---------------------------------------------------------------------
  // Merging again
  // ---------------------------------------------------------------------

  ghost predicate Covers<T, K>(key: T -> K, desired: seq<T>, previous: seq<T>) {
    forall p | p in previous :: IndexOf(key, desired, key(p)) >= 0
  }

  lemma {:induction false} InheritedAppend<T, K>(key: T -> K, a: seq<T>, b: seq<T>, desired: seq<T>)
    ensures Inherited(key, a + b, desired) == Inherited(key, a, desired) + Inherited(key, b, desired)
  {
    if a == [] {
      assert a + b == b;
    } else {
      assert (a + b)[1..] == a[1..] + b;
      InheritedAppend(key, a[1..], b, desired);
    }
  }

  /** Taking out entries that the filter would drop anyway changes nothing. */
  lemma {:induction false} InheritedIgnoresCovered<T, K>(key: T -> K, list: seq<T>, previous: seq<T>, desired: seq<T>)
    requires Covers(key, desired, previous)
    ensures Inherited(key, RemoveEach(key, list, previous), desired) == Inherited(key, list, desired)
    decreases |previous|
  {
    if previous != [] {
      var i := IndexOf(key, list, key(previous[0]));
      if i >= 0 {
        assert list == list[..i] + ([list[i]] + list[i + 1..]);
        InheritedAppend(key, list[..i], [list[i]] + list[i + 1..], desired);
        InheritedAppend(key, list[..i], list[i + 1..], desired);
      }
      InheritedIgnoresCovered(key, RemoveFirst(key, list, key(previous[0])), previous[1..], desired);
    }
  }

  /** Lists with the same keys are filtered alike. */
  lemma {:induction false} InheritedAllOrNothing<T, K>(key: T -> K, list: seq<T>, desired: seq<T>, all: bool)
    requires forall i | 0 <= i < |list| :: (IndexOf(key, desired, key(list[i])) < 0) == all
    ensures Inherited(key, list, desired) == if all then list else []
  {
    if list != [] {
      assert (IndexOf(key, desired, key(list[0])) < 0) == all;
      InheritedAllOrNothing(key, list[1..], desired, all);
    }
  }

  lemma {:induction false} InheritedNotDesired<T, K>(key: T -> K, keep: seq<T>, desired: seq<T>)
    ensures forall x | x in Inherited(key, keep, desired) :: IndexOf(key, desired, key(x)) < 0
  {
    if keep != [] { InheritedNotDesired(key, keep[1..], desired); }
  }

  /** A list that starts with declared keys and goes on with others. */
  ghost predicate SplitBy<T, K>(key: T -> K, got: seq<T>, desired: seq<T>) {
    && |desired| <= |got|
    && (forall i | 0 <= i < |desired| :: IndexOf(key, desired, key(got[i])) >= 0)
    && (forall i | |desired| <= i < |got| :: IndexOf(key, desired, key(got[i])) < 0)
  }

  lemma SplitInherited<T, K>(key: T -> K, got: seq<T>, desired: seq<T>)
    requires SplitBy(key, got, desired)
    ensures Inherited(key, got, desired) == got[|desired|..]
  {
    var d := |desired|;
    assert got == got[..d] + got[d..];
    InheritedAppend(key, got[..d], got[d..], desired);
    InheritedAllOrNothing(key, got[..d], desired, false);
    InheritedAllOrNothing(key, got[d..], desired, true);
  }

  lemma MergeIsSplit<T, K>(key: T -> K, first: seq<T>, previous: seq<T>, desired: seq<T>)
    ensures SplitBy(key, Merge(key, first, previous, desired), desired)
  {
    var tail := Inherited(key, RemoveEach(key, first, previous), desired);
    var m := Merge(key, first, previous, desired);
    InheritedNotDesired(key, RemoveEach(key, first, previous), desired);
    forall i | |desired| <= i < |m| ensures IndexOf(key, desired, key(m[i])) < 0 {
      assert m[i] == tail[i - |desired|] && tail[i - |desired|] in tail;
    }
    forall i | 0 <= i < |desired| ensures IndexOf(key, desired, key(m[i])) >= 0 {
      assert m[i] == desired[i];
    }
  }

  /** A list whose keys are those of an earlier merge, merged once more with
      nothing newly declared and nothing else previously declared, is taken over
      as it is behind the declared entries. */
  lemma MergeSettles<T, K>(key: T -> K, first: seq<T>, previous: seq<T>, desired: seq<T>, got: seq<T>, again: seq<T>)
    requires |got| == |Merge(key, first, previous, desired)|
    requires forall i | 0 <= i < |got| :: key(got[i]) == key(Merge(key, first, previous, desired)[i])
    requires Covers(key, desired, again)
    ensures Merge(key, got, again, desired) == desired + got[|desired|..]
  {
    MergeIsSplit(key, first, previous, desired);
    SplitInherited(key, got, desired);
    InheritedIgnoresCovered(key, got, again, desired);
  }

  // ---------------------------------------------------------------------
  // The merge as the program computes it
  // ---------------------------------------------------------------------

  lemma {:induction false} RemoveEachSnoc<T, K>(key: T -> K, list: seq<T>, previous: seq<T>, p: T)
    ensures RemoveEach(key, list, previous + [p]) == RemoveFirst(key, RemoveEach(key, list, previous), key(p))
    decreases |previous|
  {
    if previous == [] {
      assert previous + [p] == [p];
    } else {
      assert (previous + [p])[1..] == previous[1..] + [p];
      RemoveEachSnoc(key, RemoveFirst(key, list, key(previous[0])), previous[1..], p);
    }
  }

  lemma {:induction false} InheritedSnoc<T, K>(key: T -> K, keep: seq<T>, desired: seq<T>, x: T)
    ensures Inherited(key, keep + [x], desired)
         == Inherited(key, keep, desired) + if IndexOf(key, desired, key(x)) >= 0 then [] else [x]
  {
    if keep == [] {
      assert keep + [x] == [x];
    } else {
      assert (keep + [x])[1..] == keep[1..] + [x];
      InheritedSnoc(key, keep[1..], desired, x);
    }
  }

  /** Deletes position `at` from the first `len` slots of `keep`, in place. */
  method DeleteAt<T>(keep: array<T>, len: nat, at: nat)
    requires at < len <= keep.Length
    modifies keep
    ensures keep[..len - 1] == old(keep[..at]) + old(keep[at + 1..len])
  {
    var i := at;
    while i + 1 < len
      invariant at <= i < len
      invariant keep[..i] == old(keep[..at]) + old(keep[at + 1..i + 1])
      invariant keep[i + 1..len] == old(keep[i + 1..len])
    {
      assert keep[i + 1] == old(keep[i + 1]) by { assert keep[i + 1..len][0] == old(keep[i + 1..len])[0]; }
      assert keep[i + 2..len] == keep[i + 1..len][1..];
      keep[i] := keep[i + 1];
      i := i + 1;
    }
  }

  /** mergeMounts and mergePortForwards: a private copy of the resolved list is
      cut down in place, so the caller's list is never written to. */
  method MergeLists<T, K(==)>(key: T -> K, resolved: array<T>, previous: seq<T>, desired: seq<T>) returns (out: seq<T>)
    ensures out == Merge(key, resolved[..], previous, desired)
  {
    var keep := new T[resolved.Length](i requires 0 <= i < resolved.Length reads resolved => resolved[i]);
    assert keep[..] == resolved[..];
    var len := DropPrevious(key, keep, previous);
    ghost var cut := RemoveEach(key, resolved[..], previous);
    assert keep[..len] == cut;
    out := desired;
    for i := 0 to len
      invariant keep[..len] == cut
      invariant out == desired + Inherited(key, cut[..i], desired)
    {
      InheritedSnoc(key, cut[..i], desired, keep[i]);
      assert cut[..i + 1] == cut[..i] + [keep[i]];
      if IndexOf(key, desired, key(keep[i])) < 0 {
        out := out + [keep[i]];
      }
    }
    assert cut[..len] == cut;
  }

  /** The first loop of the merge: what survives is the first `len` slots. */
  method DropPrevious<T, K(==)>(key: T -> K, keep: array<T>, previous: seq<T>) returns (len: nat)
    modifies keep
    ensures len <= keep.Length && keep[..len] == RemoveEach(key, old(keep[..]), previous)
  {
    len := keep.Length;
    ghost var all := keep[..];
    assert keep[..len] == all;
    for p := 0 to |previous|
      invariant len <= keep.Length
      invariant keep[..len] == RemoveEach(key, all, previous[..p])
    {
      RemoveEachSnoc(key, all, previous[..p], previous[p]);
      assert previous[..p + 1] == previous[..p] + [previous[p]];
      len := DropFirst(key, keep, len, key(previous[p]));
    }
    assert previous[..|previous|] == previous;
  }

  method DropFirst<T, K(==)>(key: T -> K, keep: array<T>, len: nat, k: K) returns (rest: nat)
    requires len <= keep.Length
    modifies keep
    ensures rest <= len && keep[..rest] == RemoveFirst(key, old(keep[..len]), k)
  {
    ghost var now := keep[..len];
    var at := IndexOf(key, keep[..len], k);
    rest := len;
    if at >= 0 {
      assert now[..at] == keep[..at] && now[at + 1..] == keep[at + 1..len];
      DeleteAt(keep, len, at);
      rest := len - 1;
    }
  }
}
