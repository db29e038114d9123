/** `std::stable_sort` by timestamp, with the properties that pin it down. */
module StableSort {
  datatype Timed<+T> = Timed(ts: nat, item: T)

  predicate Sorted<T>(s: seq<Timed<T>>) {
    forall i, j :: 0 <= i < j < |s| ==> s[i].ts <= s[j].ts
  }

  /** `x` goes in front of everything that is not earlier. */
  function Insert<T>(x: Timed<T>, s: seq<Timed<T>>): seq<Timed<T>> {
    if s == [] || x.ts <= s[0].ts then [x] + s else [s[0]] + Insert(x, s[1..])
  }

  function Sort<T>(s: seq<Timed<T>>): seq<Timed<T>> {
    if s == [] then [] else Insert(s[0], Sort(s[1..]))
  }

  function Filter<T>(s: seq<T>, p: T -> bool): seq<T> {
    if s == [] then []
    else if p(s[0]) then [s[0]] + Filter(s[1..], p)
    else Filter(s[1..], p)
  }

  lemma {:induction false} InsertSorted<T>(x: Timed<T>, s: seq<Timed<T>>)
    requires Sorted(s)
    ensures Sorted(Insert(x, s)) && |Insert(x, s)| == |s| + 1
    ensures Insert(x, s)[0] == x || (s != [] && Insert(x, s)[0] == s[0])
  {
    if s != [] && x.ts > s[0].ts {
      InsertSorted(x, s[1..]);
      SortedCons(s[0], Insert(x, s[1..]));
    }
  }

  lemma SortedCons<T>(x: Timed<T>, s: seq<Timed<T>>)
    requires Sorted(s) && (s != [] ==> x.ts <= s[0].ts)
    ensures Sorted([x] + s)
  {
  }

  lemma {:induction false} InsertKeeps<T>(x: Timed<T>, s: seq<Timed<T>>)
    ensures multiset(Insert(x, s)) == multiset(s) + multiset{x}
  {
    if s != [] && x.ts > s[0].ts {
      InsertKeeps(x, s[1..]);
      assert s == [s[0]] + s[1..];
    }
  }

  lemma {:induction false} SortSorts<T>(s: seq<Timed<T>>)
    ensures Sorted(Sort(s)) && multiset(Sort(s)) == multiset(s) && |Sort(s)| == |s|
  {
    if s != [] {
      SortSorts(s[1..]);
      InsertSorted(s[0], Sort(s[1..]));
      InsertKeeps(s[0], Sort(s[1..]));
      assert s == [s[0]] + s[1..];
    }
  }

  lemma {:induction false} SortOfSorted<T>(s: seq<Timed<T>>)
    requires Sorted(s)
    ensures Sort(s) == s
  {
    if s != [] {
      SortOfSorted(s[1..]);
      assert s == [s[0]] + s[1..];
    }
  }

  lemma {:induction false} FilterInsert<T>(x: Timed<T>, s: seq<Timed<T>>, p: Timed<T> -> bool)
    requires Sorted(s)
    ensures Filter(Insert(x, s), p) == if p(x) then Insert(x, Filter(s, p)) else Filter(s, p)
  {
    if s == [] || x.ts <= s[0].ts {
      assert ([x] + s)[1..] == s;
      FilterBounded(s, p, x.ts);
    } else {
      var t := [s[0]] + Insert(x, s[1..]);
      assert t[1..] == Insert(x, s[1..]);
      FilterInsert(x, s[1..], p);
      if p(s[0]) {
        var f := Filter(s[1..], p);
        assert Filter(s, p) == [s[0]] + f;
        assert ([s[0]] + f)[1..] == f;
      }
    }
  }

  lemma {:induction false} FilterBounded<T>(s: seq<Timed<T>>, p: Timed<T> -> bool, ts: nat)
    requires forall i :: 0 <= i < |s| ==> ts <= s[i].ts
    ensures forall i :: 0 <= i < |Filter(s, p)| ==> ts <= Filter(s, p)[i].ts
  {
    if s != [] {
      FilterBounded(s[1..], p, ts);
    }
  }

  /** Sorting and selecting commute: whatever is selected keeps its order among equal timestamps. */
  lemma {:induction false} FilterSort<T>(s: seq<Timed<T>>, p: Timed<T> -> bool)
    ensures Filter(Sort(s), p) == Sort(Filter(s, p))
  {
    if s != [] {
      FilterSort(s[1..], p);
      SortSorts(s[1..]);
      FilterInsert(s[0], Sort(s[1..]), p);
      if p(s[0]) {
        var f := Filter(s[1..], p);
        assert Filter(s, p) == [s[0]] + f;
        assert ([s[0]] + f)[1..] == f;
      }
    }
  }

  ghost function AtTime<T>(s: seq<Timed<T>>, ts: nat): seq<Timed<T>> {
    Filter(s, (x: Timed<T>) => x.ts == ts)
  }

  /** What a stable sort by timestamp promises. */
  ghost predicate IsStableSortOf<T>(t: seq<Timed<T>>, s: seq<Timed<T>>) {
    Sorted(t) && forall ts: nat :: AtTime(t, ts) == AtTime(s, ts)
  }

  lemma {:induction false} AtTimeConstant<T>(s: seq<Timed<T>>, ts: nat)
    ensures forall i :: 0 <= i < |AtTime(s, ts)| ==> AtTime(s, ts)[i].ts == ts
  {
    if s != [] {
      AtTimeConstant(s[1..], ts);
      var rest := AtTime(s[1..], ts);
      assert AtTime(s, ts) == if s[0].ts == ts then [s[0]] + rest else rest;
    }
  }

  lemma SortIsStable<T>(s: seq<Timed<T>>)
    ensures IsStableSortOf(Sort(s), s)
  {
    SortSorts(s);
    forall ts: nat
      ensures AtTime(Sort(s), ts) == AtTime(s, ts)
    {
      FilterSort(s, (x: Timed<T>) => x.ts == ts);
      AtTimeConstant(s, ts);
      SortOfSorted(AtTime(s, ts));
    }
  }

  /** Two sorted sequences that agree at every timestamp are the same: the promise leaves no freedom. */
  lemma {:induction false} StableSortUnique<T>(t: seq<Timed<T>>, u: seq<Timed<T>>)
    requires Sorted(t) && Sorted(u) && forall ts: nat :: AtTime(t, ts) == AtTime(u, ts)
    ensures t == u
    decreases |t|
  {
    assert t != [] ==> AtTime(t, t[0].ts) != [] && AtTime(t, t[0].ts)[0] == t[0];
    assert u != [] ==> AtTime(u, u[0].ts) != [] && AtTime(u, u[0].ts)[0] == u[0];
    if t != [] && u != [] {
      FirstTime(t, u);
      FirstTime(u, t);
      forall ts: nat
        ensures AtTime(t[1..], ts) == AtTime(u[1..], ts)
      {
        AtTimeTail(t, ts);
        AtTimeTail(u, ts);
      }
      StableSortUnique(t[1..], u[1..]);
      assert t == [t[0]] + t[1..] && u == [u[0]] + u[1..];
    }
  }

  lemma AtTimeTail<T>(t: seq<Timed<T>>, ts: nat)
    requires t != []
    ensures AtTime(t[1..], ts) == if t[0].ts == ts then AtTime(t, ts)[1..] else AtTime(t, ts)
  {
  }

  lemma FirstTime<T>(t: seq<Timed<T>>, u: seq<Timed<T>>)
    requires t != [] && u != [] && Sorted(t) && AtTime(t, u[0].ts) == AtTime(u, u[0].ts)
    ensures t[0].ts <= u[0].ts
  {
    assert AtTime(u, u[0].ts) != [];
    var i := SomeAtTime(t, u[0].ts);
  }

  lemma {:induction false} SomeAtTime<T>(t: seq<Timed<T>>, ts: nat) returns (i: nat)
    requires AtTime(t, ts) != []
    ensures i < |t| && t[i].ts == ts
  {
    if t[0].ts == ts {
      i := 0;
    } else {
      i := SomeAtTime(t[1..], ts);
      i := i + 1;
    }
  }

  // ---- positions inside a filtered sequence ----

  lemma {:induction false} FilterAppend<T>(a: seq<T>, b: seq<T>, p: T -> bool)
    ensures Filter(a + b, p) == Filter(a, p) + Filter(b, p)
  {
    if a == [] {
      assert [] + b == b;
    } else {
      assert (a + b)[1..] == a[1..] + b;
      FilterAppend(a[1..], b, p);
    }
  }

  /** A selected element sits at the position given by how many were selected up to it. */
  lemma FilterPosition<T>(s: seq<T>, p: T -> bool, k: nat)
    requires k < |s| && p(s[k])
    ensures var n := |Filter(s[..k + 1], p)|; 0 < n <= |Filter(s, p)| && Filter(s, p)[n - 1] == s[k]
  {
    assert s == s[..k + 1] + s[k + 1..];
    FilterAppend(s[..k + 1], s[k + 1..], p);
    assert s[..k + 1] == s[..k] + [s[k]];
    FilterAppend(s[..k], [s[k]], p);
    assert [s[k]][1..] == [];
  }

  /** Every position of the selection comes from somewhere. */
  lemma {:induction false} FilterSource<T>(s: seq<T>, p: T -> bool, j: nat) returns (k: nat)
    requires j < |Filter(s, p)|
    ensures k < |s| && p(s[k]) && |Filter(s[..k + 1], p)| == j + 1 && Filter(s, p)[j] == s[k]
    decreases |s|
  {
    var n := |s| - 1;
    assert s == s[..n] + [s[n]];
    FilterAppend(s[..n], [s[n]], p);
    assert [s[n]][1..] == [];
    if j < |Filter(s[..n], p)| {
      k := FilterSource(s[..n], p, j);
      assert s[..n][..k + 1] == s[..k + 1];
    } else {
      k := n;
      assert s[..n + 1] == s;
    }
  }
}
