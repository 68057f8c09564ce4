/** Sorting by a strict total order, as `sort.Strings` and `sort.Slice` are used. */
module Sorting {

  predicate SortedBy<T>(less: (T, T) -> bool, s: seq<T>) {
    forall i, j :: 0 <= i < j < |s| ==> less(s[i], s[j])
  }

  predicate Distinct<T(==)>(s: seq<T>) {
    forall i, j :: 0 <= i < j < |s| ==> s[i] != s[j]
  }

  function Elems<T>(s: seq<T>): set<T> {
    set x | x in s
  }

  /** `less` orders the elements of `s` strictly and totally. */
  ghost predicate StrictOrderOn<T>(less: (T, T) -> bool, s: set<T>) {
    && (forall a :: a in s ==> !less(a, a))
    && (forall a, b :: a in s && b in s && a != b ==> less(a, b) || less(b, a))
    && (forall a, b, c :: a in s && b in s && c in s && less(a, b) && less(b, c) ==> less(a, c))
  }

  /** Puts `x` into the sorted sequence `s`. */
  function Insert<T(==)>(less: (T, T) -> bool, x: T, s: seq<T>): (r: seq<T>)
    requires StrictOrderOn(less, {x} + Elems(s))
    requires SortedBy(less, s) && x !in s
    ensures SortedBy(less, r) && Elems(r) == {x} + Elems(s) && |r| == |s| + 1
  {
    if s == [] then [x]
    else if less(x, s[0]) then
      assert forall j :: 0 <= j < |s| ==> less(x, s[j]) by {
        forall j | 0 <= j < |s| ensures less(x, s[j]) {
          assert s[j] in Elems(s) && s[0] in Elems(s);
        }
      }
      assert Elems([x] + s) == {x} + Elems(s);
      [x] + s
    else
      assert s[0] in Elems(s);
      assert less(s[0], x);
      assert s == [s[0]] + s[1..];
      assert Elems(s) == {s[0]} + Elems(s[1..]);
      var rest := Insert(less, x, s[1..]);
      forall y | y in rest ensures less(s[0], y) {
        assert y in Elems(rest);
      }
      assert Elems([s[0]] + rest) == {s[0]} + Elems(rest);
      [s[0]] + rest
  }

  /** The sorted arrangement of distinct elements. */
  function Sort<T(==)>(less: (T, T) -> bool, s: seq<T>): (r: seq<T>)
    requires Distinct(s) && StrictOrderOn(less, Elems(s))
    ensures SortedBy(less, r) && Elems(r) == Elems(s) && |r| == |s|
  {
    if s == [] then []
    else
      assert s == [s[0]] + s[1..];
      assert Elems(s) == {s[0]} + Elems(s[1..]);
      var rest := Sort(less, s[1..]);
      assert s[0] !in Elems(rest);
      Insert(less, s[0], rest)
  }

  /** The next element of a sequence whose first `i` have been seen. */
  lemma NextOf<T>(q: seq<T>, i: nat)
    requires i < |q| && Distinct(q)
    ensures q[i] in Elems(q) && q[i] !in q[..i] && q[..i + 1] == q[..i] + [q[i]]
    ensures q[i] !in Elems(q[..i]) && Elems(q[..i + 1]) == Elems(q[..i]) + {q[i]} <= Elems(q)
    ensures forall x :: x in q[..i] ==> x in Elems(q)
  {
  }

  lemma SortedIsDistinct<T>(less: (T, T) -> bool, s: seq<T>)
    requires SortedBy(less, s) && StrictOrderOn(less, Elems(s))
    ensures Distinct(s)
  {
  }

  /** A sorted sequence is determined by its elements. */
  lemma {:induction false} SortedIsUnique<T>(less: (T, T) -> bool, a: seq<T>, b: seq<T>)
    requires SortedBy(less, a) && SortedBy(less, b)
    requires Elems(a) == Elems(b) && StrictOrderOn(less, Elems(a))
    ensures a == b
  {
    assert |a| > 0 ==> a[0] in Elems(a);
    assert |b| > 0 ==> b[0] in Elems(b);
    if a != [] {
      FirstIsLeast(less, a, b[0]);
      FirstIsLeast(less, b, a[0]);
      assert a[0] == b[0];
      TailElems(less, a);
      TailElems(less, b);
      SortedIsUnique(less, a[1..], b[1..]);
      assert a == [a[0]] + a[1..];
      assert b == [b[0]] + b[1..];
    }
  }

  lemma FirstIsLeast<T>(less: (T, T) -> bool, s: seq<T>, x: T)
    requires SortedBy(less, s) && x in Elems(s)
    ensures s[0] == x || less(s[0], x)
  {
  }

  lemma TailElems<T>(less: (T, T) -> bool, s: seq<T>)
    requires s != [] && SortedBy(less, s) && StrictOrderOn(less, Elems(s))
    ensures Elems(s[1..]) == Elems(s) - {s[0]}
    ensures SortedBy(less, s[1..]) && StrictOrderOn(less, Elems(s[1..]))
  {
  }

  lemma {:induction false} DistinctCount<T>(s: seq<T>)
    requires Distinct(s)
    ensures |Elems(s)| == |s|
  {
    if s != [] {
      var t := s[..|s| - 1];
      DistinctCount(t);
      assert s == t + [s[|s| - 1]];
      assert Elems(s) == Elems(t) + {s[|s| - 1]};
      assert s[|s| - 1] !in t;
    }
  }

  lemma {:induction false} SubsetSize<T>(a: set<T>, b: set<T>)
    requires a <= b
    ensures |a| <= |b|
    ensures |a| == |b| ==> a == b
  {
    if a != {} {
      var x :| x in a;
      SubsetSize(a - {x}, b - {x});
    }
  }

  lemma OneMoreKey<K, V>(m: map<K, V>, k: K, v: V)
    requires k !in m
    ensures m[k := v].Keys == m.Keys + {k} && |m.Keys + {k}| == |m| + 1 == |m[k := v]|
  {
  }

  /** Some enumeration of a finite set, in no particular order, as a directory read gives it. */
  method Enumerate<T(==)>(s: set<T>) returns (q: seq<T>)
    ensures Elems(q) == s && Distinct(q)
  {
    q := [];
    var todo := s;
    while todo != {}
      invariant Elems(q) + todo == s && Elems(q) !! todo && Distinct(q)
      decreases todo
    {
      var x :| x in todo;
      assert x !in Elems(q);
      q := q + [x];
      todo := todo - {x};
    }
  }

  ghost function AnySeq<T>(s: set<T>): (q: seq<T>)
    ensures Elems(q) == s && Distinct(q)
  {
    if s == {} then [] else
      var x :| x in s;
      var rest := AnySeq(s - {x});
      assert x !in Elems(rest);
      assert Elems([x] + rest) == {x} + Elems(rest);
      [x] + rest
  }
}
