/** The file names a backup tree and its manifest may use. */
module Paths {
  import opened Bytes

  const NUL: byte := 0
  const LF: byte := 10
  const CR: byte := 13
  const SPACE: byte := 32
  const DOT: byte := 46
  const SLASH: byte := 47
  const BACKSLASH: byte := 92

  /** Well-formed UTF-8, by the byte ranges of section 4 of RFC 3629. */
  predicate ValidUtf8(s: Bytes) {
    s == [] ||
    var n :=
      if s[0] < 0x80 then 1
      else if 0xC2 <= s[0] <= 0xDF then 2
      else if 0xE0 <= s[0] <= 0xEF then 3
      else if 0xF0 <= s[0] <= 0xF4 then 4
      else 0;
    && 0 < n <= |s|
    && (n >= 2 ==> SecondByte(s[0], s[1]))
    && (n >= 3 ==> 0x80 <= s[2] <= 0xBF)
    && (n == 4 ==> 0x80 <= s[3] <= 0xBF)
    && ValidUtf8(s[n..])
  }

  predicate SecondByte(lead: byte, b: byte) {
    (if lead == 0xE0 then 0xA0 else if lead == 0xF0 then 0x90 else 0x80) <= b <=
    (if lead == 0xED then 0x9F else if lead == 0xF4 then 0x8F else 0xBF)
  }

  /** A Unicode scalar value. */
  type Scalar = c: int | 0 <= c < 0xD800 || 0xE000 <= c < 0x110000

  /** Its encoding, as the table in section 3 of RFC 3629 gives it. */
  function Encoded(c: Scalar): Bytes {
    if c < 0x80 then [c as byte]
    else if c < 0x800 then [(0xC0 + c / 0x40) as byte, (0x80 + c % 0x40) as byte]
    else if c < 0x10000 then
      [(0xE0 + c / 0x1000) as byte, (0x80 + c / 0x40 % 0x40) as byte, (0x80 + c % 0x40) as byte]
    else
      [(0xF0 + c / 0x40000) as byte, (0x80 + c / 0x1000 % 0x40) as byte, (0x80 + c / 0x40 % 0x40) as byte,
       (0x80 + c % 0x40) as byte]
  }

  function EncodedText(cs: seq<Scalar>): Bytes {
    if cs == [] then [] else Encoded(cs[0]) + EncodedText(cs[1..])
  }

  /** The text encodes some sequence of scalar values. */
  ghost predicate IsEncoded(s: Bytes) {
    exists cs: seq<Scalar> :: EncodedText(cs) == s
  }

  lemma EncodedIsValid(c: Scalar, rest: Bytes)
    requires ValidUtf8(rest)
    ensures ValidUtf8(Encoded(c) + rest)
  {
    var s, n := Encoded(c) + rest, |Encoded(c)|;
    assert s[n..] == rest;
    assert forall i :: 0 <= i < n ==> s[i] == Encoded(c)[i];
  }

  /** The scalar value that a valid text begins with. */
  lemma FirstScalar(s: Bytes) returns (c: Scalar, rest: Bytes)
    requires s != [] && ValidUtf8(s)
    ensures s == Encoded(c) + rest && ValidUtf8(rest) && |rest| < |s|
  {
    if s[0] < 0x80 {
      c, rest := s[0] as int, s[1..];
      assert s == [s[0]] + rest;
    } else {
      var n := if s[0] <= 0xDF then 2 else if s[0] <= 0xEF then 3 else 4;
      rest := s[n..];
      if n == 2 {
        c := Two(s[0], s[1]);
      } else if n == 3 {
        c := Three(s[0], s[1], s[2]);
      } else {
        c := Four(s[0], s[1], s[2], s[3]);
      }
      assert s[..n] == Encoded(c);
    }
  }

  lemma Two(a: byte, b: byte) returns (c: Scalar)
    requires 0xC2 <= a <= 0xDF && SecondByte(a, b)
    ensures Encoded(c) == [a, b]
  {
    c := (a as int - 0xC0) * 0x40 + (b as int - 0x80);
  }

  lemma Three(a: byte, b: byte, d: byte) returns (c: Scalar)
    requires 0xE0 <= a <= 0xEF && SecondByte(a, b) && 0x80 <= d <= 0xBF
    ensures Encoded(c) == [a, b, d]
  {
    c := (a as int - 0xE0) * 0x1000 + (b as int - 0x80) * 0x40 + (d as int - 0x80);
    assert c / 0x40 == (a as int - 0xE0) * 0x40 + (b as int - 0x80);
  }

  lemma Four(a: byte, b: byte, d: byte, e: byte) returns (c: Scalar)
    requires 0xF0 <= a <= 0xF4 && SecondByte(a, b) && 0x80 <= d <= 0xBF && 0x80 <= e <= 0xBF
    ensures Encoded(c) == [a, b, d, e]
  {
    var w, x, y, z := a as int - 0xF0, b as int - 0x80, d as int - 0x80, e as int - 0x80;
    SixBits(w, x, y, z);
    c := w * 0x40000 + x * 0x1000 + y * 0x40 + z;
  }

  lemma SixBits(w: int, x: int, y: int, z: int)
    requires 0 <= x < 0x40 && 0 <= y < 0x40 && 0 <= z < 0x40
    ensures var c := w * 0x40000 + x * 0x1000 + y * 0x40 + z;
            c / 0x40000 == w && c / 0x1000 % 0x40 == x && c / 0x40 % 0x40 == y && c % 0x40 == z
  {
    var c := w * 0x40000 + x * 0x1000 + y * 0x40 + z;
    assert c / 0x40 == w * 0x1000 + x * 0x40 + y;
    assert c / 0x1000 == w * 0x40 + x;
  }

  /** The valid texts are the encodings of the sequences of scalar values. */
  lemma {:induction false} Utf8Exactly(s: Bytes)
    ensures ValidUtf8(s) <==> IsEncoded(s)
    decreases |s|
  {
    hide ValidUtf8;
    if ValidUtf8(s) {
      TextOf(s);
    } else if IsEncoded(s) {
      var cs: seq<Scalar> :| EncodedText(cs) == s;
      TextIsValid(cs);
    }
  }

  lemma {:induction false} TextOf(s: Bytes)
    requires ValidUtf8(s)
    ensures IsEncoded(s)
    decreases |s|
  {
    if s == [] {
      assert EncodedText([]) == s;
    } else {
      hide ValidUtf8, Encoded, EncodedText;
      var c, rest := FirstScalar(s);
      TextOf(rest);
      var cs: seq<Scalar> :| EncodedText(cs) == rest;
      TextNext(c, cs);
    }
  }

  lemma TextNext(c: Scalar, cs: seq<Scalar>)
    ensures EncodedText([c] + cs) == Encoded(c) + EncodedText(cs)
  {
  }

  lemma {:induction false} TextIsValid(cs: seq<Scalar>)
    ensures ValidUtf8(EncodedText(cs))
  {
    if cs != [] {
      TextIsValid(cs[1..]);
      EncodedIsValid(cs[0], EncodedText(cs[1..]));
    }
  }

  /** `strings.Split(s, "/")`: the components between slashes, at least one. */
  function Split(s: Bytes): (parts: seq<Bytes>)
    ensures parts != []
  {
    if s == [] then [[]]
    else
      var rest := Split(s[1..]);
      if s[0] == SLASH then [[]] + rest else [[s[0]] + rest[0]] + rest[1..]
  }

  function Join(parts: seq<Bytes>): Bytes
    requires parts != []
  {
    if |parts| == 1 then parts[0] else parts[0] + [SLASH] + Join(parts[1..])
  }

  /** Where the first component ends. */
  function FirstSlash(s: Bytes): (k: nat)
    ensures k <= |s| && SLASH !in s[..k] && (k < |s| ==> s[k] == SLASH)
  {
    if s == [] || s[0] == SLASH then 0
    else
      var k := 1 + FirstSlash(s[1..]);
      assert s[..k] == [s[0]] + s[1..][..k - 1];
      k
  }

  lemma {:induction false} SplitFirst(s: Bytes)
    ensures var k := FirstSlash(s);
            Split(s) == if k == |s| then [s] else [s[..k]] + Split(s[k + 1..])
  {
    if s != [] && s[0] != SLASH {
      var t, k := s[1..], FirstSlash(s);
      SplitFirst(t);
      assert FirstSlash(t) == k - 1 && s[..k] == [s[0]] + t[..k - 1];
      if k < |s| {
        assert t[k..] == s[k + 1..];
      } else {
        assert [s[0]] + t == s;
      }
    }
  }

  /** No part holds a slash; and joined with slashes the parts are the text (`JoinSplit`). */
  lemma {:induction false} PartsHaveNoSlash(s: Bytes)
    ensures forall p :: p in Split(s) ==> SLASH !in p
    decreases |s|
  {
    hide Split;
    SplitFirst(s);
    var k := FirstSlash(s);
    if k < |s| {
      PartsHaveNoSlash(s[k + 1..]);
    } else {
      assert s == s[..k];
    }
  }

  /** The text from `i` to `j` stands between two neighbouring slashes, or a slash and an end. */
  predicate Component(s: Bytes, i: int, j: int) {
    && 0 <= i <= j <= |s| && 47 !in s[i..j]
    && (i == 0 || s[i - 1] == 47) && (j == |s| || s[j] == 47)
  }

  predicate AllProper(parts: seq<Bytes>) {
    forall p :: p in parts ==> ProperPart(p)
  }

  /** From any beginning of a component on, the parts are the components. */
  lemma {:induction false} PartsAreComponents(s: Bytes, a: nat)
    requires a <= |s| && (a == 0 || s[a - 1] == SLASH)
    ensures AllProper(Split(s[a..])) <==> forall i, j :: a <= i && Component(s, i, j) ==> ProperPart(s[i..j])
    decreases |s| - a
  {
    hide Split, ProperPart;
    var t := s[a..];
    SplitFirst(t);
    var k := a + FirstSlash(t);
    assert s[a..k] == t[..k - a];
    assert Component(s, a, k);
    forall i, j | a <= i <= k && Component(s, i, j) ensures i == a && j == k {
      OneComponent(s, a, k, i, j);
    }
    if k < |s| {
      assert t[k - a + 1..] == s[k + 1..];
      PartsAreComponents(s, k + 1);
    } else {
      assert t == s[a..k];
    }
  }

  lemma OneComponent(s: Bytes, a: int, k: int, i: int, j: int)
    requires Component(s, a, k) && Component(s, i, j) && a <= i <= k
    ensures i == a && j == k
  {
  }

  predicate ProperPart(p: Bytes) {
    p != [] && p != [DOT] && p != [DOT, DOT]
  }

  /** The element stack of `path.Clean` on a path that is not rooted. */
  function CleanParts(parts: seq<Bytes>, out: seq<Bytes>): seq<Bytes> {
    if parts == [] then out
    else if parts[0] == [] || parts[0] == [DOT] then CleanParts(parts[1..], out)
    else if parts[0] == [DOT, DOT] && out != [] && out[|out| - 1] != [DOT, DOT] then
      CleanParts(parts[1..], out[..|out| - 1])
    else CleanParts(parts[1..], out + [parts[0]])
  }

  /** `path.Clean` on a path that does not start with a slash. */
  function CleanPath(s: Bytes): Bytes {
    var out := CleanParts(Split(s), []);
    if out == [] then [DOT] else Join(out)
  }

  predicate ValidRelative(n: Bytes) {
    && n != [] && n[0] != SLASH
    && BACKSLASH !in n && CR !in n && LF !in n && NUL !in n
    && ValidUtf8(n)
    && forall p :: p in Split(n) ==> ProperPart(p)
  }

  /** The rules for a name, byte by byte and component by component. */
  ghost predicate NameRules(n: Bytes) {
    && n != [] && n[0] != 47 && 92 !in n && 13 !in n && 10 !in n && 0 !in n
    && IsEncoded(n)
    && forall i, j :: Component(n, i, j) ==> n[i..j] != [] && n[i..j] != [46] && n[i..j] != [46, 46]
  }

  /** The test accepts exactly the names that follow the rules. */
  lemma ValidRelativeExactly(n: Bytes)
    ensures ValidRelative(n) <==> NameRules(n)
  {
    hide ValidUtf8, Split, IsEncoded;
    Utf8Exactly(n);
    assert n[0..] == n;
    PartsAreComponents(n, 0);
  }

  /** The same test with the comparison that `validRelative` makes besides. */
  predicate ValidRelativeAsWritten(n: Bytes) {
    && n != [] && n[0] != SLASH
    && BACKSLASH !in n && CR !in n && LF !in n && NUL !in n
    && ValidUtf8(n) && CleanPath(n) == n
    && forall p :: p in Split(n) ==> ProperPart(p)
  }

  lemma {:induction false} JoinSplit(s: Bytes)
    ensures Join(Split(s)) == s
  {
    if s != [] {
      JoinSplit(s[1..]);
      var rest := Split(s[1..]);
      assert s == [s[0]] + s[1..];
      if s[0] == SLASH {
        assert Split(s)[1..] == rest;
      } else {
        assert Split(s)[1..] == rest[1..];
      }
    }
  }

  lemma {:induction false} CleanKeepsProper(parts: seq<Bytes>, out: seq<Bytes>)
    requires forall p :: p in parts ==> ProperPart(p)
    ensures CleanParts(parts, out) == out + parts
  {
    if parts != [] {
      assert ProperPart(parts[0]);
      CleanKeepsProper(parts[1..], out + [parts[0]]);
      assert out + [parts[0]] + parts[1..] == out + parts;
    } else {
      assert out + parts == out;
    }
  }

  /** The comparison with the cleaned path rejects nothing that the component test accepts. */
  lemma CleanTestIsRedundant(n: Bytes)
    ensures ValidRelativeAsWritten(n) <==> ValidRelative(n)
  {
    if forall p :: p in Split(n) ==> ProperPart(p) {
      CleanKeepsProper(Split(n), []);
      assert [] + Split(n) == Split(n);
      JoinSplit(n);
    }
  }

  /** The length of the text before the first newline, as `bytes.Cut` finds it. */
  function Cut(s: Bytes): (i: nat)
    ensures i <= |s| && LF !in s[..i] && (i < |s| ==> s[i] == LF)
  {
    if s == [] || s[0] == LF then 0
    else
      var i := 1 + Cut(s[1..]);
      assert s[..i] == [s[0]] + s[1..][..i - 1];
      i
  }

  lemma {:induction false} CutIsUnique(s: Bytes, k: nat)
    requires k < |s| && s[k] == LF && LF !in s[..k]
    ensures Cut(s) == k
  {
  }
}
