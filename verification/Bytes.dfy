/** Byte strings and their lexicographic order, the order of Go's `<` on strings. */
module Bytes {
  import opened Sorting

  newtype byte = x: int | 0 <= x < 256
  type Bytes = seq<byte>

  /** The bytes of an ASCII text. */
  function Ascii(s: string): (b: Bytes)
    ensures |b| == |s| && forall i :: 0 <= i < |s| && s[i] as int < 128 ==> b[i] as int == s[i] as int
  {
    seq(|s|, i requires 0 <= i < |s| => if s[i] as int < 128 then s[i] as int as byte else 63)
  }

  predicate Less(a: Bytes, b: Bytes) {
    b != [] && (a == [] || a[0] < b[0] || (a[0] == b[0] && Less(a[1..], b[1..])))
  }

  /** The first `k` bytes agree, and then `a` ends or has the smaller byte. */
  ghost predicate LessAt(a: Bytes, b: Bytes, k: int) {
    0 <= k <= |a| && k < |b| && a[..k] == b[..k] && (k == |a| || a[k] < b[k])
  }

  /** The order is the lexicographic one. */
  lemma {:induction false} LessExactly(a: Bytes, b: Bytes)
    ensures Less(a, b) <==> exists k :: LessAt(a, b, k)
  {
    if a != [] && b != [] && a[0] == b[0] {
      LessExactly(a[1..], b[1..]);
      forall k | LessAt(a[1..], b[1..], k) ensures LessAt(a, b, k + 1) {
        assert a[..k + 1] == [a[0]] + a[1..][..k] && b[..k + 1] == [b[0]] + b[1..][..k];
      }
      forall k | LessAt(a, b, k) ensures k > 0 && LessAt(a[1..], b[1..], k - 1) {
        assert a[1..][..k - 1] == a[..k][1..] && b[1..][..k - 1] == b[..k][1..];
      }
    } else if b != [] && (a == [] || a[0] < b[0]) {
      assert LessAt(a, b, 0);
    }
  }

  lemma {:induction false} LessIrreflexive(a: Bytes)
    ensures !Less(a, a)
  {
    if a != [] {
      LessIrreflexive(a[1..]);
    }
  }

  lemma {:induction false} LessTotal(a: Bytes, b: Bytes)
    requires a != b
    ensures Less(a, b) || Less(b, a)
  {
    if a != [] && b != [] && a[0] == b[0] {
      assert a == [a[0]] + a[1..] && b == [b[0]] + b[1..];
      LessTotal(a[1..], b[1..]);
    }
  }

  lemma {:induction false} LessTransitive(a: Bytes, b: Bytes, c: Bytes)
    requires Less(a, b) && Less(b, c)
    ensures Less(a, c)
  {
    if a != [] && a[0] == b[0] && b[0] == c[0] {
      LessTransitive(a[1..], b[1..], c[1..]);
    }
  }

  lemma LessAsymmetric(a: Bytes, b: Bytes)
    ensures !(Less(a, b) && Less(b, a))
  {
  }

  /** In a sorted list, order and position agree. */
  lemma OrderIsPosition(s: seq<Bytes>, i: nat, j: nat)
    requires SortedBy(Less, s) && i < |s| && j < |s|
    ensures Less(s[j], s[i]) <==> j < i
  {
    LessIrreflexive(s[i]);
    LessAsymmetric(s[i], s[j]);
  }

  lemma LessIsStrictOrder(s: set<Bytes>)
    ensures StrictOrderOn(Less, s)
  {
    forall a | a in s ensures !Less(a, a) { LessIrreflexive(a); }
    forall a, b | a in s && b in s && a != b ensures Less(a, b) || Less(b, a) { LessTotal(a, b); }
    forall a, b, c | a in s && b in s && c in s && Less(a, b) && Less(b, c) ensures Less(a, c) {
      LessTransitive(a, b, c);
    }
  }

  /** `sort.Strings` on distinct strings. */
  function SortStrings(s: seq<Bytes>): (r: seq<Bytes>)
    requires Distinct(s)
    ensures SortedBy(Less, r) && Elems(r) == Elems(s) && |r| == |s|
  {
    LessIsStrictOrder(Elems(s));
    Sort(Less, s)
  }

  /** The elements of a set in increasing byte order. */
  ghost function SortedNames(s: set<Bytes>): (r: seq<Bytes>)
    ensures SortedBy(Less, r) && Elems(r) == s
  {
    SortStrings(AnySeq(s))
  }

  lemma SortedNamesUnique(q: seq<Bytes>)
    requires SortedBy(Less, q)
    ensures q == SortedNames(Elems(q))
  {
    LessIsStrictOrder(Elems(q));
    SortedIsUnique(Less, q, SortedNames(Elems(q)));
  }

  /** All of `parts`, one after the other. */
  function Concat(parts: seq<Bytes>): Bytes {
    if parts == [] then [] else Concat(parts[..|parts| - 1]) + parts[|parts| - 1]
  }
}
