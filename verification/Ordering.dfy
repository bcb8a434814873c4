// Key order: what sort.Strings gives a set of keys, whatever order Go's map
// iteration handed them over in.

module Ordering {

  /** `a` sorts strictly before `b`.  Comparing code points agrees with comparing
      the UTF-8 bytes. */
  predicate Below(a: string, b: string) {
    b != [] && (a == [] || a[0] < b[0] || (a[0] == b[0] && Below(a[1..], b[1..])))
  }

  predicate Sorted(s: seq<string>) {
    forall i, j | 0 <= i < j < |s| :: Below(s[i], s[j])
  }

  function Elements(s: seq<string>): set<string> { set x | x in s }

  lemma ElementsOfAppend(s: seq<string>, k: string)
    ensures Elements(s + [k]) == Elements(s) + {k}
  {
    assert (s + [k])[|s|] == k;
    assert forall x | x in s :: x in s + [k];
  }

  lemma {:induction false} BelowIsTotal(a: string, b: string)
    ensures Below(a, b) || Below(b, a) || a == b
  {
    if a != [] && b != [] && a[0] == b[0] {
      BelowIsTotal(a[1..], b[1..]);
      assert a == [a[0]] + a[1..] && b == [b[0]] + b[1..];
    }
  }

  lemma {:induction false} BelowIsStrict(a: string, b: string)
    requires Below(a, b)
    ensures !Below(b, a) && a != b
  {
    if a != [] && a[0] == b[0] { BelowIsStrict(a[1..], b[1..]); }
  }

  lemma {:induction false} BelowIsTransitive(a: string, b: string, c: string)
    requires Below(a, b) && Below(b, c)
    ensures Below(a, c)
  {
    if a != [] && a[0] == b[0] && b[0] == c[0] { BelowIsTransitive(a[1..], b[1..], c[1..]); }
  }

  predicate Least(k: string, keys: set<string>) {
    k in keys && forall o | o in keys && o != k :: Below(k, o)
  }

  lemma {:induction false} LeastExists(keys: set<string>) returns (k: string)
    requires keys != {}
    ensures Least(k, keys)
  {
    var x :| x in keys;
    k := x;
    if keys != {x} {
      assert keys == {x} + (keys - {x});
      var y := LeastExists(keys - {x});
      BelowIsTotal(x, y);
      k := if Below(x, y) then x else y;
      forall o | o in keys && o != k ensures Below(k, o) {
        if k == x && o != y { BelowIsTransitive(x, y, o); }
      }
    }
  }

  /** The keys in increasing order. */
  ghost function InOrder(keys: set<string>): (s: seq<string>)
    ensures |s| == |keys| && Elements(s) == keys
  {
    if keys == {} then []
    else
      assert exists k :: Least(k, keys) by { var k := LeastExists(keys); }
      var k :| Least(k, keys);
      assert keys == {k} + (keys - {k});
      [k] + InOrder(keys - {k})
  }

  lemma {:induction false} InOrderIsSorted(keys: set<string>)
    ensures Sorted(InOrder(keys))
  {
    var s := InOrder(keys);
    if keys != {} {
      InOrderIsSorted(keys - {s[0]});
      forall i, j | 0 <= i < j < |s| ensures Below(s[i], s[j]) {
        assert s[1..] == InOrder(keys - {s[0]});
        assert s[j] == s[1..][j - 1] && s[1..][j - 1] in Elements(s[1..]);
        if i > 0 { assert s[i] == s[1..][i - 1]; }
      }
    }
  }

  lemma NoElements(s: seq<string>)
    ensures Elements(s) == {} <==> s == []
  {
    assert s != [] ==> s[0] in Elements(s);
  }

  /** There is only one way to put a set of keys in order. */
  lemma {:induction false} OrderIsUnique(s: seq<string>, t: seq<string>)
    requires Sorted(s) && Sorted(t) && Elements(s) == Elements(t)
    ensures s == t
  {
    if s == [] || t == [] {
      NoElements(s);
      NoElements(t);
    } else {
      FirstIsLeast(s, t);
      FirstIsLeast(t, s);
      TailLosesFirst(s);
      TailLosesFirst(t);
      OrderIsUnique(s[1..], t[1..]);
    }
  }

  lemma FirstIsLeast(s: seq<string>, t: seq<string>)
    requires s != [] && t != [] && Sorted(s) && Sorted(t) && Elements(s) == Elements(t)
    ensures s[0] == t[0]
  {
    assert s[0] in Elements(t) && t[0] in Elements(s);
    var i :| 0 <= i < |s| && s[i] == t[0];
    var j :| 0 <= j < |t| && t[j] == s[0];
    if i > 0 && j > 0 { BelowIsStrict(s[0], s[i]); }
  }

  lemma TailLosesFirst(s: seq<string>)
    requires s != [] && Sorted(s)
    ensures Sorted(s[1..]) && Elements(s[1..]) == Elements(s) - {s[0]}
  {
    assert s == [s[0]] + s[1..];
    forall i | 0 < i < |s| ensures s[i] != s[0] { BelowIsStrict(s[0], s[i]); }
  }

  /** Ranging over a map visits every key once. */
  method CollectKeys<V>(m: map<string, V>) returns (keys: seq<string>)
    ensures Elements(keys) == m.Keys
    ensures forall i, j | 0 <= i < j < |keys| :: keys[i] != keys[j]
  {
    keys := [];
    var rest := m.Keys;
    while rest != {}
      invariant Elements(keys) == m.Keys - rest && rest <= m.Keys
      invariant forall i, j | 0 <= i < j < |keys| :: keys[i] != keys[j]
    {
      var k :| k in rest;
      rest := rest - {k};
      assert k !in Elements(keys);
      ElementsOfAppend(keys, k);
      keys := keys + [k];
    }
  }

  /** sort.Strings on keys without repetition. */
  method SortStrings(keys: seq<string>) returns (s: seq<string>)
    requires forall i, j | 0 <= i < j < |keys| :: keys[i] != keys[j]
    ensures s == InOrder(Elements(keys))
  {
    s := [];
    for n := 0 to |keys|
      invariant Sorted(s) && Elements(s) == Elements(keys[..n])
    {
      assert keys[n] !in Elements(keys[..n]);
      s := Place(keys[n], s);
      ElementsOfAppend(keys[..n], keys[n]);
      assert keys[..n + 1] == keys[..n] + [keys[n]];
    }
    assert keys[..|keys|] == keys;
    InOrderIsSorted(Elements(keys));
    OrderIsUnique(s, InOrder(Elements(keys)));
  }

  /** Puts one new key where it belongs. */
  method Place(k: string, s: seq<string>) returns (t: seq<string>)
    requires Sorted(s) && k !in Elements(s)
    ensures Sorted(t) && Elements(t) == Elements(s) + {k}
  {
    var i := 0;
    while i < |s| && Below(s[i], k)
      invariant i <= |s| && forall j | 0 <= j < i :: Below(s[j], k)
    {
      i := i + 1;
    }
    t := s[..i] + [k] + s[i..];
    forall j | i <= j < |s| ensures Below(k, s[j]) {
      assert s[i] in Elements(s);
      BelowIsTotal(k, s[i]);
      if j > i { BelowIsTransitive(k, s[i], s[j]); }
    }
    assert forall x | x in t :: x == k || x in s;
    assert s == s[..i] + s[i..];
  }
}
