/** The consistent hash ring: lookups, neighbours, and what inserting and erasing a bucket
    changes. */
module HashRing {
  import opened Collections
  import opened Events

  /** An entry of the `std::map` behind the ring. */
  datatype Entry<T> = Entry(key: Word, value: T)

  /** Entries in iteration order: keys strictly ascending. */
  predicate Sorted<T>(ring: seq<Entry<T>>) {
    forall i, j :: 0 <= i < j < |ring| ==> ring[i].key < ring[j].key
  }

  function AtLeast<T>(h: Word): Entry<T> -> bool {
    (e: Entry<T>) => e.key >= h
  }

  function Above<T>(h: Word): Entry<T> -> bool {
    (e: Entry<T>) => e.key > h
  }

  /** `std::map::lower_bound` and `upper_bound`, as indices. */
  function LowerBound<T>(ring: seq<Entry<T>>, h: Word): nat {
    First(ring, AtLeast(h))
  }

  function UpperBound<T>(ring: seq<Entry<T>>, h: Word): nat {
    First(ring, Above(h))
  }

  // -- resolve ---------------------------------------------------------------------------------

  /** How far clockwise it is from `h` to `key`. */
  function Distance(h: Word, key: Word): nat {
    if key >= h then key - h else key + 0x1_0000_0000 - h
  }

  /** `e` is the entry next to `h` in clockwise direction. */
  predicate Nearest<T(==, !new)>(ring: seq<Entry<T>>, h: Word, e: Entry<T>) {
    e in ring && forall f :: f in ring ==> Distance(h, e.key) <= Distance(h, f.key)
  }

  function Resolve<T>(ring: seq<Entry<T>>, h: Word): Option<Entry<T>> {
    if ring == [] then None
    else
      var i := LowerBound(ring, h);
      Some(ring[if i == |ring| then 0 else i])
  }

  /** `resolve` finds the clockwise nearest entry, and there is only one. */
  lemma ResolveIsNearest<T(!new)>(ring: seq<Entry<T>>, h: Word, e: Entry<T>)
    requires Sorted(ring)
    ensures Resolve(ring, h) == Some(e) <==> Nearest(ring, h, e)
  {
    if ring != [] {
      var i := LowerBound(ring, h);
      var j := if i == |ring| then 0 else i;
      var found := ring[j];
      forall f | f in ring ensures Distance(h, found.key) <= Distance(h, f.key) && (f != found ==> Distance(h, found.key) < Distance(h, f.key)) {
        var k :| 0 <= k < |ring| && ring[k] == f;
        if k < i {
          assert !AtLeast(h)(ring[k]);
        } else {
          assert AtLeast(h)(ring[i]);
        }
      }
    }
  }

  // -- insert and erase ---------------------------------------------------------------------------

  predicate HasKey<T>(ring: seq<Entry<T>>, key: Word) {
    exists i :: 0 <= i < |ring| && ring[i].key == key
  }

  /** `insert`: an existing key keeps its value. */
  function Insert<T>(ring: seq<Entry<T>>, e: Entry<T>): seq<Entry<T>> {
    var i := LowerBound(ring, e.key);
    if i < |ring| && ring[i].key == e.key then ring else ring[..i] + [e] + ring[i..]
  }

  function NotValue<T(==)>(x: T): Entry<T> -> bool {
    (e: Entry<T>) => e.value != x
  }

  /** `erase_all` */
  function EraseAll<T(==)>(ring: seq<Entry<T>>, x: T): seq<Entry<T>> {
    Filter(ring, NotValue(x))
  }

  lemma InsertMembers<T(!new)>(ring: seq<Entry<T>>, e: Entry<T>)
    requires Sorted(ring)
    ensures Sorted(Insert(ring, e))
    ensures forall f :: f in Insert(ring, e) <==> f in ring || (f == e && !HasKey(ring, e.key))
  {
    var i := LowerBound(ring, e.key);
    assert forall j :: 0 <= j < i ==> !AtLeast(e.key)(ring[j]);
    if i < |ring| {
      assert AtLeast(e.key)(ring[i]);
    }
    var r := Insert(ring, e);
    if r != ring {
      assert !HasKey(ring, e.key);
      forall f | f in ring ensures f in r {
        var k :| 0 <= k < |ring| && ring[k] == f;
        assert r[if k < i then k else k + 1] == f;
      }
      assert r[i] == e;
    }
  }

  lemma {:induction false} EraseSorted<T>(ring: seq<Entry<T>>, x: T)
    requires Sorted(ring)
    ensures Sorted(EraseAll(ring, x))
  {
    if ring != [] {
      var n := |ring| - 1;
      EraseSorted(ring[..n], x);
      var r := EraseAll(ring[..n], x);
      FilterMembers(ring[..n], NotValue(x));
      forall j | 0 <= j < |r| ensures r[j].key < ring[n].key {
        assert r[j] in ring[..n];
      }
    }
  }

  /** Inserting an entry changes a lookup exactly if its key is new and the lookup now finds it. */
  lemma InsertDisruptsExactly<T(!new)>(ring: seq<Entry<T>>, e: Entry<T>, h: Word)
    requires Sorted(ring)
    ensures Resolve(Insert(ring, e), h) != Resolve(ring, h) <==>
            !HasKey(ring, e.key) && Resolve(Insert(ring, e), h) == Some(e)
  {
    var r := Insert(ring, e);
    InsertMembers(ring, e);
    var f := Resolve(r, h).value;
    ResolveIsNearest(r, h, f);
    if f != e {
      ResolveIsNearest(ring, h, f);
    } else if ring != [] && !HasKey(ring, e.key) {
      var g := Resolve(ring, h).value;
      ResolveIsNearest(ring, h, g);
      assert exists i :: 0 <= i < |ring| && ring[i] == g;
    } else if ring != [] {
      assert r == ring;
    }
  }

  /** Erasing a bucket changes the result of a lookup exactly for the keys that found it. */
  lemma EraseDisruptsExactly<T(!new)>(ring: seq<Entry<T>>, x: T, h: Word)
    requires Sorted(ring)
    ensures Resolve(EraseAll(ring, x), h) != Resolve(ring, h) <==> Resolve(ring, h).Some? && Resolve(ring, h).value.value == x
  {
    var r := EraseAll(ring, x);
    EraseSorted(ring, x);
    FilterMembers(ring, NotValue(x));
    if ring != [] {
      var e := Resolve(ring, h).value;
      ResolveIsNearest(ring, h, e);
      if e.value == x {
        if r != [] {
          ResolveIsNearest(r, h, Resolve(r, h).value);
        }
      } else {
        ResolveIsNearest(r, h, e);
      }
    }
  }

  // -- neighbours -----------------------------------------------------------------------------------

  /** One trip clockwise, from just behind `origin` to just in front of it. */
  function Trip<T>(ring: seq<Entry<T>>, origin: Word): seq<Entry<T>> {
    ring[UpperBound(ring, origin)..] + ring[..LowerBound(ring, origin)]
  }

  /** Clockwise steps from `h` to `key` on the ring of 2^32 numbers. */
  function Clockwise(h: Word, key: Word): nat {
    (key - h) % 0x1_0000_0000
  }

  lemma ClockwiseIs(h: Word, key: Word)
    ensures Clockwise(h, key) == if key >= h then key - h else key + 0x1_0000_0000 - h
  {
  }

  lemma TripOrder<T>(ring: seq<Entry<T>>, origin: Word, i: nat, j: nat)
    requires Sorted(ring) && i < j < |Trip(ring, origin)|
    ensures Clockwise(origin, Trip(ring, origin)[i].key) < Clockwise(origin, Trip(ring, origin)[j].key)
  {
    var l, u, trip := LowerBound(ring, origin), UpperBound(ring, origin), Trip(ring, origin);
    BoundsOf(ring, origin);
    ClockwiseIs(origin, trip[i].key);
    ClockwiseIs(origin, trip[j].key);
    var behind := |ring| - u;
    assert i < behind ==> trip[i] == ring[u + i] && Above(origin)(ring[u]);
    assert j < behind ==> trip[j] == ring[u + j];
    assert i >= behind ==> trip[i] == ring[i - behind];
    assert j >= behind ==> trip[j] == ring[j - behind] && !AtLeast(origin)(ring[j - behind]);
  }

  lemma TripMembers<T>(ring: seq<Entry<T>>, origin: Word, e: Entry<T>)
    requires Sorted(ring)
    ensures e in Trip(ring, origin) <==> e in ring && e.key != origin
  {
    var l, u, trip := LowerBound(ring, origin), UpperBound(ring, origin), Trip(ring, origin);
    BoundsOf(ring, origin);
    if e in ring[u..] {
      var i :| 0 <= i < |ring[u..]| && ring[u..][i] == e;
      assert Above(origin)(ring[u]) && ring[u + i] == e;
    }
    if e in ring[..l] {
      var i :| 0 <= i < l && ring[..l][i] == e;
      assert !AtLeast(origin)(ring[i]);
    }
    if e in ring && e.key != origin {
      var k :| 0 <= k < |ring| && ring[k] == e;
      if k < l {
        assert ring[..l][k] == e;
      } else {
        assert ring[u..][k - u] == e;
      }
    }
  }

  /** A trip visits every entry but the one at `origin`, each farther clockwise than the last. */
  lemma TripIsClockwise<T>(ring: seq<Entry<T>>, origin: Word, e: Entry<T>)
    requires Sorted(ring)
    ensures e in Trip(ring, origin) <==> e in ring && e.key != origin
    ensures forall i, j :: 0 <= i < j < |Trip(ring, origin)| ==>
              Clockwise(origin, Trip(ring, origin)[i].key) < Clockwise(origin, Trip(ring, origin)[j].key)
  {
    TripMembers(ring, origin, e);
    forall i, j | 0 <= i < j < |Trip(ring, origin)|
      ensures Clockwise(origin, Trip(ring, origin)[i].key) < Clockwise(origin, Trip(ring, origin)[j].key)
    {
      TripOrder(ring, origin, i, j);
    }
  }

  /** `back` is the same trip in the other direction. */
  predicate Mirrored<T(==)>(back: seq<T>, trip: seq<T>) {
    |back| == |trip| && forall k :: 0 <= k < |back| ==> back[k] == trip[|trip| - 1 - k]
  }

  function Mirror<T>(trip: seq<T>): (back: seq<T>)
    ensures Mirrored(back, trip)
  {
    seq(|trip|, k requires 0 <= k < |trip| => trip[|trip| - 1 - k])
  }

  /** The values other than `x`. */
  function Others<T(==)>(walk: seq<Entry<T>>, x: T): set<T> {
    set i | 0 <= i < |walk| && walk[i].value != x :: walk[i].value
  }

  function HasValue<T(==)>(v: T): Entry<T> -> bool {
    (e: Entry<T>) => e.value == v
  }

  /** `r` holds the first `n` values other than `x` met on `walk`, or all there are. */
  predicate FirstOthers<T(==, !new)>(walk: seq<Entry<T>>, x: T, n: nat, r: set<T>) {
    r <= Others(walk, x) && |r| == (if n < |Others(walk, x)| then n else |Others(walk, x)|) &&
    forall v, w :: v in r && w in Others(walk, x) && w !in r ==> First(walk, HasValue(v)) < First(walk, HasValue(w))
  }

  /** That leaves no choice. */
  lemma FirstOthersUnique<T(!new)>(walk: seq<Entry<T>>, x: T, n: nat, r: set<T>, s: set<T>)
    requires FirstOthers(walk, x, n, r) && FirstOthers(walk, x, n, s)
    ensures r == s
  {
    if r != s {
      NotSubset(r, s);
      NotSubset(s, r);
    }
  }

  lemma SameSizeSubset<T>(r: set<T>, s: set<T>)
    requires |r| == |s|
    ensures r <= s ==> r == s
  {
    if r <= s {
      assert |s - r| == |s| - |r|;
    }
  }

  lemma NotSubset<T>(r: set<T>, s: set<T>)
    requires |r| == |s| && r != s
    ensures exists v :: v in r && v !in s
  {
    SameSizeSubset(r, s);
  }

  lemma OthersSnoc<T>(walk: seq<Entry<T>>, k: nat, x: T)
    requires k < |walk|
    ensures Others(walk[..k + 1], x) == Others(walk[..k], x) + (if walk[k].value != x then {walk[k].value} else {})
  {
    assert walk[..k + 1] == walk[..k] + [walk[k]];
    var all := walk[..k + 1];
    forall v | v in Others(walk[..k], x) ensures v in Others(all, x) {
      var i :| 0 <= i < k && walk[..k][i].value == v && v != x;
      assert all[i].value == v;
    }
    assert all[k] == walk[k];
  }

  /** The walk may stop once `n` values are found or the trip is over. */
  lemma WalkEnds<T(!new)>(walk: seq<Entry<T>>, k: nat, x: T, n: nat)
    requires k <= |walk| && |Others(walk[..k], x)| <= n
    requires k == |walk| || |Others(walk[..k], x)| == n
    ensures FirstOthers(walk, x, n, Others(walk[..k], x))
  {
    var r := Others(walk[..k], x);
    assert walk[..|walk|] == walk;
    forall v | v in r ensures v in Others(walk, x) && First(walk, HasValue(v)) < k {
      var i :| 0 <= i < k && walk[..k][i].value == v && v != x;
      assert walk[i].value == v && HasValue(v)(walk[i]);
    }
    forall w | w in Others(walk, x) && w !in r ensures First(walk, HasValue(w)) >= k {
      assert forall f :: 0 <= f < k ==> walk[..k][f] == walk[f];
    }
    SubsetSize(r, Others(walk, x));
  }

  lemma SubsetSize<T>(r: set<T>, s: set<T>)
    requires r <= s
    ensures |r| <= |s|
  {
    assert |s - r| == |s| - |r|;
  }

  /** The loops of `next` and `previous` end: the trip comes back to `x`'s own entry, or there
      are `n` other values to find, or the ring is empty. */
  predicate Ends<T(==)>(ring: seq<Entry<T>>, origin: Word, x: T, n: nat) {
    ring == [] || HasKey(ring, origin) || n <= |Others(Trip(ring, origin), x)|
  }

  lemma BoundsOf<T>(ring: seq<Entry<T>>, h: Word)
    requires Sorted(ring)
    ensures var l, u := LowerBound(ring, h), UpperBound(ring, h);
            if l < |ring| && ring[l].key == h then u == l + 1 else u == l
    ensures forall i :: 0 <= i < |ring| && i != LowerBound(ring, h) ==> ring[i].key != h
  {
    var l := LowerBound(ring, h);
    assert forall i :: 0 <= i < l ==> !AtLeast(h)(ring[i]);
    if l < |ring| {
      assert AtLeast(h)(ring[l]);
      if ring[l].key == h {
        FirstUnique(ring, Above(h), l + 1);
      } else {
        FirstUnique(ring, Above(h), l);
      }
    } else {
      FirstUnique(ring, Above(h), l);
    }
  }

  /** Where the iterator of `next` is after `k` steps. */
  function NextIndex<T>(ring: seq<Entry<T>>, origin: Word, k: nat): int {
    var u := if UpperBound(ring, origin) == |ring| then 0 else UpperBound(ring, origin);
    if u + k < |ring| then u + k else u + k - |ring|
  }

  lemma NextIndexIsOnTrip<T>(ring: seq<Entry<T>>, origin: Word, k: nat)
    requires Sorted(ring) && ring != [] && k <= |Trip(ring, origin)|
    ensures var i, trip := NextIndex(ring, origin, k), Trip(ring, origin);
            0 <= i < |ring| && (if k < |trip| then ring[i] == trip[k] && ring[i].key != origin
                                else ring[i].key == origin || !HasKey(ring, origin))
    ensures k < |Trip(ring, origin)| ==>
              NextIndex(ring, origin, k + 1) ==
              if NextIndex(ring, origin, k) + 1 == |ring| then 0 else NextIndex(ring, origin, k) + 1
  {
    BoundsOf(ring, origin);
  }

  /** Where the iterator of `previous` is after `k` steps. */
  function PreviousIndex<T>(ring: seq<Entry<T>>, origin: Word, k: nat): int {
    var l := if LowerBound(ring, origin) == 0 then |ring| else LowerBound(ring, origin);
    if l - 1 - k >= 0 then l - 1 - k else l - 1 - k + |ring|
  }

  lemma PreviousIndexIsOnTrip<T>(ring: seq<Entry<T>>, origin: Word, k: nat)
    requires Sorted(ring) && ring != [] && k <= |Trip(ring, origin)|
    ensures var i, trip := PreviousIndex(ring, origin, k), Trip(ring, origin);
            0 <= i < |ring| && (if k < |trip| then ring[i] == trip[|trip| - 1 - k] && ring[i].key != origin
                                else ring[i].key == origin || !HasKey(ring, origin))
    ensures k < |Trip(ring, origin)| ==>
              PreviousIndex(ring, origin, k + 1) ==
              if PreviousIndex(ring, origin, k) == 0 then |ring| - 1 else PreviousIndex(ring, origin, k) - 1
  {
    BoundsOf(ring, origin);
  }

  lemma OthersMirrored<T>(back: seq<Entry<T>>, trip: seq<Entry<T>>, x: T)
    requires Mirrored(back, trip)
    ensures Others(back, x) == Others(trip, x)
  {
    forall v | v in Others(trip, x) ensures v in Others(back, x) {
      var i :| 0 <= i < |trip| && trip[i].value == v && v != x;
      assert back[|trip| - 1 - i].value == v;
    }
  }

  function Collected<T(==)>(result: set<T>, e: Entry<T>, x: T): set<T> {
    if e.value != x then result + {e.value} else result
  }

  /** The iterator `i` is at step `k` of the walk, or after it, where the origin is if it was
      `found` on the ring. */
  predicate On<T(==)>(ring: seq<Entry<T>>, origin: Word, found: bool, walk: seq<Entry<T>>, k: nat, i: nat) {
    i < |ring| && k <= |walk| &&
    if k < |walk| then ring[i] == walk[k] && ring[i].key != origin else found ==> ring[i].key == origin
  }

  /** Both loops after `k` steps. */
  predicate At<T(==)>(ring: seq<Entry<T>>, origin: Word, found: bool, walk: seq<Entry<T>>, x: T, n: nat, k: nat, i: nat, result: set<T>) {
    On(ring, origin, found, walk, k, i) && result == Others(walk[..k], x) && |result| <= n
  }

  /** A loop goes on inside the trip only, and collects one more entry of it. */
  lemma WalkStep<T>(ring: seq<Entry<T>>, origin: Word, found: bool, walk: seq<Entry<T>>, x: T, n: nat, k: nat, i: nat, result: set<T>)
    requires At(ring, origin, found, walk, x, n, k, i, result) && |result| < n && ring[i].key != origin
    requires found || n <= |Others(walk, x)|
    ensures k < |walk| && Collected(result, ring[i], x) == Others(walk[..k + 1], x) && |Collected(result, ring[i], x)| <= n
  {
    assert walk[..|walk|] == walk;
    OthersSnoc(walk, k, x);
  }

  lemma NextStep<T>(ring: seq<Entry<T>>, origin: Word, found: bool, x: T, n: nat, k: nat, i: nat, result: set<T>,
                    j: nat, more: set<T>)
    requires found == HasKey(ring, origin)
    requires Sorted(ring) && Ends(ring, origin, x, n)
    requires At(ring, origin, found, Trip(ring, origin), x, n, k, i, result) && |result| < n && ring[i].key != origin
    requires j == (if i + 1 == |ring| then 0 else i + 1) && more == Collected(result, ring[i], x)
    ensures k < |Trip(ring, origin)|
    ensures At(ring, origin, found, Trip(ring, origin), x, n, k + 1, j, more)
  {
    WalkStep(ring, origin, found, Trip(ring, origin), x, n, k, i, result);
    NextIndexIsOnTrip(ring, origin, k);
    assert i == NextIndex(ring, origin, k);
    NextIndexIsOnTrip(ring, origin, k + 1);
    assert j == NextIndex(ring, origin, k + 1);
    assert On(ring, origin, found, Trip(ring, origin), k + 1, j);
  }

  lemma PreviousOn<T>(ring: seq<Entry<T>>, origin: Word, found: bool, walk: seq<Entry<T>>, k: nat)
    requires found == HasKey(ring, origin) && ring != [] && k <= |walk|
    requires Sorted(ring) && Mirrored(walk, Trip(ring, origin))
    ensures PreviousIndex(ring, origin, k) >= 0 && On(ring, origin, found, walk, k, PreviousIndex(ring, origin, k))
  {
    var trip := Trip(ring, origin);
    PreviousIndexIsOnTrip(ring, origin, k);
    assert k < |walk| ==> walk[k] == trip[|trip| - 1 - k];
  }

  lemma PreviousStep<T>(ring: seq<Entry<T>>, origin: Word, found: bool, walk: seq<Entry<T>>, x: T, n: nat, k: nat, i: nat, result: set<T>,
                    j: nat, more: set<T>)
    requires found == HasKey(ring, origin)
    requires Sorted(ring) && Ends(ring, origin, x, n) && Mirrored(walk, Trip(ring, origin))
    requires At(ring, origin, found, walk, x, n, k, i, result) && |result| < n && ring[i].key != origin
    requires j == (if i == 0 then |ring| - 1 else i - 1) && more == Collected(result, ring[i], x)
    ensures k < |walk|
    ensures At(ring, origin, found, walk, x, n, k + 1, j, more)
  {
    OthersMirrored(walk, Trip(ring, origin), x);
    WalkStep(ring, origin, found, walk, x, n, k, i, result);
    PreviousIndexIsOnTrip(ring, origin, k);
    PreviousOn(ring, origin, found, walk, k);
    assert i == PreviousIndex(ring, origin, k);
    PreviousOn(ring, origin, found, walk, k + 1);
  }

  lemma NextStart<T>(ring: seq<Entry<T>>, origin: Word, found: bool, x: T, n: nat)
    requires found == HasKey(ring, origin)
    requires Sorted(ring) && ring != []
    ensures var u := UpperBound(ring, origin);
            At(ring, origin, found, Trip(ring, origin), x, n, 0, if u == |ring| then 0 else u, {})
  {
    NextIndexIsOnTrip(ring, origin, 0);
  }

  lemma PreviousStart<T>(ring: seq<Entry<T>>, origin: Word, found: bool, walk: seq<Entry<T>>, x: T, n: nat)
    requires found == HasKey(ring, origin)
    requires Sorted(ring) && ring != [] && Mirrored(walk, Trip(ring, origin))
    ensures var l := LowerBound(ring, origin);
            At(ring, origin, found, walk, x, n, 0, if l == 0 then |ring| - 1 else l - 1, {})
  {
    PreviousOn(ring, origin, found, walk, 0);
  }

  lemma LoopEnd<T(!new)>(ring: seq<Entry<T>>, origin: Word, found: bool, walk: seq<Entry<T>>, x: T, n: nat, k: nat, i: nat, result: set<T>)
    requires At(ring, origin, found, walk, x, n, k, i, result) && (ring[i].key == origin || |result| >= n)
    ensures FirstOthers(walk, x, n, result)
  {
    WalkEnds(walk, k, x, n);
  }

  /** The loop of `next`. */
  method LoopForward<T(==)>(ring: seq<Entry<T>>, origin: Word, x: T, n: nat, start: nat, ghost found: bool)
    returns (result: set<T>, ghost k: nat, ghost last: nat)
    requires found == HasKey(ring, origin) && Sorted(ring) && Ends(ring, origin, x, n)
    requires At(ring, origin, found, Trip(ring, origin), x, n, 0, start, {})
    ensures At(ring, origin, found, Trip(ring, origin), x, n, k, last, result)
    ensures ring[last].key == origin || |result| >= n
  {
    result, k := {}, 0;
    var itr: nat := start;
    while ring[itr].key != origin && |result| < n
      invariant At(ring, origin, found, Trip(ring, origin), x, n, k, itr, result)
      decreases |Trip(ring, origin)| - k
    {
      ghost var i, r := itr, result;
      if ring[itr].value != x {
        result := result + {ring[itr].value};
      }
      itr := itr + 1;
      if itr == |ring| {
        itr := 0;
      }
      NextStep(ring, origin, found, x, n, k, i, r, itr, result);
      k := k + 1;
    }
    last := itr;
  }

  method WalkForward<T(==, !new)>(ring: seq<Entry<T>>, origin: Word, x: T, n: nat) returns (result: set<T>)
    requires Sorted(ring) && ring != [] && Ends(ring, origin, x, n)
    ensures FirstOthers(Trip(ring, origin), x, n, result)
  {
    var itr: nat := UpperBound(ring, origin);
    if itr == |ring| {
      itr := 0;
    }
    ghost var found := HasKey(ring, origin);
    NextStart(ring, origin, found, x, n);
    ghost var k, last;
    result, k, last := LoopForward(ring, origin, x, n, itr, found);
    LoopEnd(ring, origin, found, Trip(ring, origin), x, n, k, last, result);
  }

  /** The loop of `previous`. */
  method LoopBackward<T(==)>(ring: seq<Entry<T>>, origin: Word, ghost walk: seq<Entry<T>>, x: T, n: nat, start: nat, ghost found: bool)
    returns (result: set<T>, ghost k: nat, ghost last: nat)
    requires found == HasKey(ring, origin) && Sorted(ring) && Ends(ring, origin, x, n) && Mirrored(walk, Trip(ring, origin))
    requires At(ring, origin, found, walk, x, n, 0, start, {})
    ensures At(ring, origin, found, walk, x, n, k, last, result)
    ensures ring[last].key == origin || |result| >= n
  {
    result, k := {}, 0;
    var itr: nat := start;
    while ring[itr].key != origin && |result| < n
      invariant At(ring, origin, found, walk, x, n, k, itr, result)
      decreases |walk| - k
    {
      ghost var i, r := itr, result;
      if ring[itr].value != x {
        result := result + {ring[itr].value};
      }
      if itr == 0 {
        itr := |ring|;
      }
      itr := itr - 1;
      PreviousStep(ring, origin, found, walk, x, n, k, i, r, itr, result);
      k := k + 1;
    }
    last := itr;
  }

  method WalkBackward<T(==, !new)>(ring: seq<Entry<T>>, origin: Word, ghost walk: seq<Entry<T>>, x: T, n: nat) returns (result: set<T>)
    requires Sorted(ring) && ring != [] && Ends(ring, origin, x, n) && Mirrored(walk, Trip(ring, origin))
    ensures FirstOthers(walk, x, n, result)
  {
    var itr: nat := LowerBound(ring, origin);
    if itr == 0 {
      itr := |ring|;
    }
    itr := itr - 1;
    ghost var found := HasKey(ring, origin);
    PreviousStart(ring, origin, found, walk, x, n);
    ghost var k, last;
    result, k, last := LoopBackward(ring, origin, walk, x, n, itr, found);
    LoopEnd(ring, origin, found, walk, x, n, k, last, result);
  }

  /** What a loop holds after `k` turns, if it gets that far. */
  function Turns<T(==)>(ring: seq<Entry<T>>, x: T, start: nat, forward: bool, k: nat): (state: (nat, set<T>))
    requires start < |ring|
    ensures state.0 < |ring|
  {
    if k == 0 then (start, {})
    else
      var (i, result) := Turns(ring, x, start, forward, k - 1);
      (if forward then (if i + 1 == |ring| then 0 else i + 1) else if i == 0 then |ring| - 1 else i - 1,
       Collected(result, ring[i], x))
  }

  lemma {:induction false} TurnsCollectOthers<T>(ring: seq<Entry<T>>, origin: Word, x: T, start: nat, forward: bool, k: nat)
    requires Sorted(ring) && start < |ring| && !HasKey(ring, origin)
    ensures Turns(ring, x, start, forward, k).1 <= Others(Trip(ring, origin), x)
  {
    if k > 0 {
      TurnsCollectOthers(ring, origin, x, start, forward, k - 1);
      AllOnTrip(ring, origin, Turns(ring, x, start, forward, k - 1).0, x);
    }
  }

  lemma AllOnTrip<T>(ring: seq<Entry<T>>, origin: Word, i: nat, x: T)
    requires Sorted(ring) && i < |ring| && !HasKey(ring, origin)
    ensures ring[i].value != x ==> ring[i].value in Others(Trip(ring, origin), x)
  {
    BoundsOf(ring, origin);
    var u, trip := UpperBound(ring, origin), Trip(ring, origin);
    assert trip[if i >= u then i - u else |ring| - u + i] == ring[i];
  }

  /** Otherwise the loops never end: after any number of turns they go on. */
  lemma LoopsNeverEnd<T>(ring: seq<Entry<T>>, origin: Word, x: T, n: nat, start: nat, forward: bool, k: nat)
    requires Sorted(ring) && start < |ring| && !Ends(ring, origin, x, n)
    ensures var (i, result) := Turns(ring, x, start, forward, k);
            ring[i].key != origin && |result| < n
  {
    TurnsCollectOthers(ring, origin, x, start, forward, k);
    SubsetSize(Turns(ring, x, start, forward, k).1, Others(Trip(ring, origin), x));
  }

  // -- the container ------------------------------------------------------------------------------------

  class ConsistentHashMap<T(==, !new)> {
    const hash: T -> Word
    var ring: seq<Entry<T>>

    ghost predicate Valid()
      reads `ring
    {
      Sorted(ring)
    }

    constructor (hash: T -> Word)
      ensures Valid() && ring == [] && this.hash == hash
    {
      this.hash, ring := hash, [];
    }

    /** `std::map::insert` of a key and a value. */
    method InsertEntry(e: Entry<T>) returns (position: nat, inserted: bool)
      requires Valid()
      modifies `ring
      ensures Valid() && ring == Insert(old(ring), e)
      ensures inserted == !HasKey(old(ring), e.key)
      ensures position < |ring| && ring[position].key == e.key
    {
      InsertMembers(ring, e);
      position := LowerBound(ring, e.key);
      assert forall j :: 0 <= j < position ==> !AtLeast(e.key)(ring[j]);
      assert position < |ring| ==> AtLeast(e.key)(ring[position]);
      inserted := !(position < |ring| && ring[position].key == e.key);
      if inserted {
        ring := ring[..position] + [e] + ring[position..];
      }
    }

    /** `insert` of a bucket under its own hash. */
    method InsertBucket(x: T) returns (position: nat, inserted: bool)
      requires Valid()
      modifies `ring
      ensures Valid() && ring == Insert(old(ring), Entry(hash(x), x))
      ensures inserted == !HasKey(old(ring), hash(x)) && position < |ring| && ring[position].key == hash(x)
    {
      position, inserted := InsertEntry(Entry(hash(x), x));
    }

    /** `erase_all` */
    method EraseBucket(x: T)
      requires Valid()
      modifies `ring
      ensures Valid() && ring == EraseAll(old(ring), x)
    {
      EraseSorted(ring, x);
      var it := 0;
      ghost var done, kept, rest := [], [], ring;
      while it < |ring|
        invariant it == |kept| && ring == kept + rest
        invariant old(ring) == done + rest && kept == EraseAll(done, x)
        decreases |rest|
      {
        assert ring[it] == rest[0];
        FilterSnoc(done, rest[0], NotValue(x));
        Associate(done, [rest[0]], rest[1..]);
        assert rest == [rest[0]] + rest[1..];
        if ring[it].value == x {
          ring := ring[..it] + ring[it + 1..];
        } else {
          Associate(kept, [rest[0]], rest[1..]);
          kept := kept + [rest[0]];
          it := it + 1;
        }
        done, rest := done + [rest[0]], rest[1..];
      }
      assert rest == [] && done + [] == done && kept + [] == kept;
    }

    /** `next`: the first `n` other buckets clockwise. */
    method NextBuckets(x: T, n: nat) returns (result: set<T>)
      requires Valid() && Ends(ring, hash(x), x, n)
      ensures FirstOthers(Trip(ring, hash(x)), x, n, result)
    {
      if |ring| == 0 {
        return {};
      }
      result := WalkForward(ring, hash(x), x, n);
    }

    /** `previous`: the first `n` other buckets counter-clockwise. */
    method PreviousBuckets(x: T, n: nat) returns (result: set<T>)
      requires Valid() && Ends(ring, hash(x), x, n)
      ensures FirstOthers(Mirror(Trip(ring, hash(x))), x, n, result)
    {
      if |ring| == 0 {
        return {};
      }
      result := WalkBackward(ring, hash(x), Mirror(Trip(ring, hash(x))), x, n);
    }

    /** `resolve` */
    method ResolveKey(h: Word) returns (bucket: Option<T>)
      requires Valid()
      ensures bucket == if ring == [] then None else Some(Resolve(ring, h).value.value)
    {
      if |ring| == 0 {
        return None;
      }
      var itr := LowerBound(ring, h);
      if itr == |ring| {
        itr := 0;
      }
      bucket := Some(ring[itr].value);
    }
  }
}
