/** Shared helpers: optional values, searching and filtering sequences, and
    dictionaries whose values are lists. */
module Collections {

  datatype Option<+T> = None | Some(value: T)

  /** The list stored under `k`, or the empty list: how a `defaultdict` reads. */
  function Get<K, V>(d: map<K, seq<V>>, k: K): seq<V> {
    if k in d then d[k] else []
  }

  /** Index of the first element satisfying `p`, or the length of `s`. */
  function First<T>(s: seq<T>, p: T -> bool): (i: nat)
    ensures i <= |s|
    ensures i < |s| ==> p(s[i])
    ensures forall j :: 0 <= j < i ==> !p(s[j])
  {
    if s == [] then 0
    else if p(s[0]) then 0
    else 1 + First(s[1..], p)
  }

  /** `First` is the only index with its three properties. */
  lemma FirstUnique<T>(s: seq<T>, p: T -> bool, i: nat)
    requires i <= |s|
    requires i < |s| ==> p(s[i])
    requires forall j :: 0 <= j < i ==> !p(s[j])
    ensures First(s, p) == i
  {
  }

  /** Search loops: nothing found in the prefix, and one more element looked at. */
  lemma FirstPrefix<T>(s: seq<T>, p: T -> bool, i: nat)
    requires i < |s| && First(s[..i], p) == i
    ensures if p(s[i]) then First(s, p) == i else First(s[..i + 1], p) == i + 1
  {
    forall j | 0 <= j < i ensures !p(s[j]) {
      assert s[..i][j] == s[j];
    }
    if p(s[i]) {
      FirstUnique(s, p, i);
    } else {
      FirstUnique(s[..i + 1], p, i + 1);
    }
  }

  lemma Associate<T>(s: seq<T>, t: seq<T>, u: seq<T>)
    ensures s + (t + u) == s + t + u
  {
  }

  function Delete<T>(s: seq<T>, i: nat): (r: seq<T>)
    requires i < |s|
    ensures forall j :: 0 <= j < |r| ==> r[j] in s
  {
    s[..i] + s[i + 1..]
  }

  lemma DeleteMultiset<T>(s: seq<T>, i: nat)
    requires i < |s|
    ensures multiset(s) == multiset(Delete(s, i)) + multiset{s[i]}
  {
    assert s == s[..i] + [s[i]] + s[i + 1..];
  }

  /** The elements satisfying `p`, in order. */
  function Filter<T>(s: seq<T>, p: T -> bool): (r: seq<T>)
    ensures |r| <= |s|
  {
    if s == [] then []
    else
      var last := s[|s| - 1];
      if p(last) then Filter(s[..|s| - 1], p) + [last] else Filter(s[..|s| - 1], p)
  }

  lemma {:induction false} FilterMembers<T>(s: seq<T>, p: T -> bool)
    ensures forall i :: 0 <= i < |Filter(s, p)| ==> Filter(s, p)[i] in s && p(Filter(s, p)[i])
    ensures forall i :: 0 <= i < |s| && p(s[i]) ==> s[i] in Filter(s, p)
  {
    if s != [] {
      assert s == s[..|s| - 1] + [s[|s| - 1]];
      FilterMembers(s[..|s| - 1], p);
    }
  }

  lemma FilterSnoc<T>(s: seq<T>, x: T, p: T -> bool)
    ensures Filter(s + [x], p) == if p(x) then Filter(s, p) + [x] else Filter(s, p)
  {
    assert (s + [x])[..|s|] == s;
  }

  lemma {:induction false} FilterConcat<T>(s: seq<T>, t: seq<T>, p: T -> bool)
    ensures Filter(s + t, p) == Filter(s, p) + Filter(t, p)
  {
    if t == [] {
      assert s + t == s;
    } else {
      var u := t[..|t| - 1];
      assert s + t == (s + u) + [t[|t| - 1]];
      assert t == u + [t[|t| - 1]];
      FilterConcat(s, u, p);
      FilterSnoc(s + u, t[|t| - 1], p);
      FilterSnoc(u, t[|t| - 1], p);
    }
  }

  lemma {:induction false} FilterAll<T>(s: seq<T>, p: T -> bool)
    requires forall x :: x in s ==> p(x)
    ensures Filter(s, p) == s
  {
    if s != [] {
      assert s == s[..|s| - 1] + [s[|s| - 1]];
      FilterAll(s[..|s| - 1], p);
    }
  }

  lemma {:induction false} FilterNone<T>(s: seq<T>, p: T -> bool)
    requires forall x :: x in s ==> !p(x)
    ensures Filter(s, p) == []
  {
    if s != [] {
      FilterNone(s[..|s| - 1], p);
    }
  }

  /** Filtering only looks at multiplicities: permuted lists filter to permuted lists. */
  lemma {:induction false} FilterMultiset<T>(s: seq<T>, p: T -> bool, x: T)
    ensures multiset(Filter(s, p))[x] == if p(x) then multiset(s)[x] else 0
  {
    if s != [] {
      assert s == s[..|s| - 1] + [s[|s| - 1]];
      FilterMultiset(s[..|s| - 1], p, x);
    }
  }

  lemma FilterPermutation<T(!new)>(s: seq<T>, t: seq<T>, p: T -> bool)
    requires multiset(s) == multiset(t)
    ensures multiset(Filter(s, p)) == multiset(Filter(t, p))
  {
    var f, g := multiset(Filter(s, p)), multiset(Filter(t, p));
    forall x ensures f[x] == g[x] {
      FilterMultiset(s, p, x);
      FilterMultiset(t, p, x);
    }
  }

  /** Filtering keeps the order: the elements kept are at increasing positions. */
  lemma {:induction false} FilterKeepsOrder<T>(s: seq<T>, p: T -> bool) returns (at: seq<nat>)
    ensures |at| == |Filter(s, p)| && forall i :: 0 <= i < |at| ==> at[i] < |s| && s[at[i]] == Filter(s, p)[i]
    ensures forall i, j :: 0 <= i < j < |at| ==> at[i] < at[j]
  {
    at := [];
    if s != [] {
      var n := |s| - 1;
      at := FilterKeepsOrder(s[..n], p);
      if p(s[n]) {
        at := at + [n];
      }
    }
  }

  // -- counting and enumerating --------------------------------------------------

  function AsNat(b: bool): nat { if b then 1 else 0 }

  lemma CountSnoc<T>(s: seq<T>, y: T, x: T)
    ensures multiset(s + [y])[x] == multiset(s)[x] + AsNat(y == x)
  {
  }

  lemma CountLast<T>(s: seq<T>, x: T)
    requires s != []
    ensures multiset(s)[x] == multiset(s[..|s| - 1])[x] + AsNat(s[|s| - 1] == x)
  {
    assert s == s[..|s| - 1] + [s[|s| - 1]];
  }

  lemma CountConcat<T>(s: seq<T>, t: seq<T>, x: T)
    ensures multiset(s + t)[x] == multiset(s)[x] + multiset(t)[x]
  {
  }

  function Elements<T(==)>(ids: seq<T>): set<T> {
    set i | 0 <= i < |ids| :: ids[i]
  }

  predicate NoDuplicates<T(==)>(ids: seq<T>) {
    forall i, j :: 0 <= i < j < |ids| ==> ids[i] != ids[j]
  }

  lemma ElementsConcat<T>(s: seq<T>, t: seq<T>)
    ensures Elements(s + t) == Elements(s) + Elements(t)
  {
    forall x | x in Elements(s) + Elements(t) ensures x in Elements(s + t) {
      if x in Elements(s) {
        var i :| 0 <= i < |s| && s[i] == x;
        assert (s + t)[i] == x;
      } else {
        var i :| 0 <= i < |t| && t[i] == x;
        assert (s + t)[|s| + i] == x;
      }
    }
  }

  lemma ElementsMember<T>(s: seq<T>, x: T)
    ensures x in Elements(s) <==> x in s
  {
  }

  // -- dictionaries of lists -----------------------------------------------------

  /** Number of list entries in the whole dictionary. */
  ghost function Total<K, V>(d: map<K, seq<V>>): nat
    decreases |d|
  {
    if d == map[] then 0
    else
      var k :| k in d;
      TotalRemoveSmaller(d, k);
      |d[k]| + Total(d - {k})
  }

  lemma TotalRemoveSmaller<K, V>(d: map<K, seq<V>>, k: K)
    requires k in d
    ensures |d - {k}| < |d|
  {
    assert (d - {k}).Keys == d.Keys - {k};
    assert |(d - {k}).Keys| == |d.Keys| - 1;
  }

  /** `Total` does not depend on the order in which keys are visited. */
  lemma {:induction false} TotalRemove<K, V>(d: map<K, seq<V>>, k: K)
    requires k in d
    ensures Total(d) == |d[k]| + Total(d - {k})
    decreases |d|
  {
    var j :| j in d && Total(d) == |d[j]| + Total(d - {j});
    if j != k {
      TotalRemoveSmaller(d, j);
      TotalRemoveSmaller(d, k);
      TotalRemove(d - {j}, k);
      TotalRemove(d - {k}, j);
      assert d - {j} - {k} == d - {k} - {j};
    }
  }

  lemma TotalUpdate<K, V>(d: map<K, seq<V>>, k: K, s: seq<V>)
    ensures Total(d[k := s]) == Total(d) - |Get(d, k)| + |s|
  {
    TotalRemove(d[k := s], k);
    if k in d {
      TotalRemove(d, k);
      assert d[k := s] - {k} == d - {k};
    } else {
      assert d[k := s] - {k} == d;
    }
  }

  lemma TotalDelete<K, V>(d: map<K, seq<V>>, k: K)
    ensures Total(d - {k}) == Total(d) - |Get(d, k)|
  {
    if k in d {
      TotalRemove(d, k);
    } else {
      assert d - {k} == d;
    }
  }

  /** `count` of phasematcher.py and confirmationmatcher.py. */
  method Count<K(==), V>(d: map<K, seq<V>>) returns (cnt: nat)
    ensures cnt == Total(d)
  {
    cnt := 0;
    var rest := d;
    while rest != map[]
      invariant cnt + Total(rest) == Total(d)
      decreases |rest|
    {
      var k :| k in rest;
      TotalRemove(rest, k);
      TotalRemoveSmaller(rest, k);
      cnt := cnt + |rest[k]|;
      rest := rest - {k};
    }
  }
}
