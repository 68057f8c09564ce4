/** The text of a `SHA256SUMS` manifest: its canonical printing and its strict parser. */
module Manifests {
  import opened Bytes
  import opened Paths
  import opened Sorting

  const MANIFEST_NAME: Bytes := Ascii("SHA256SUMS")
  const MAX_MANIFEST: nat := 0x1000000
  const MAX_ENTRIES: nat := 100000

  predicate HexDigit(c: byte) {
    48 <= c <= 57 || 97 <= c <= 102
  }

  predicate IsDigest(d: Bytes) {
    |d| == 64 && forall i :: 0 <= i < 64 ==> HexDigit(d[i])
  }

  type Digest = d: Bytes | IsDigest(d) witness seq(64, _ => 48)

  datatype Option<+T> = None | Some(value: T)
  datatype Entry = Entry(digest: Digest, name: Bytes)

  /** File name to digest. */
  type Manifest = map<Bytes, Digest>

  function Line(e: Entry): Bytes {
    e.digest + [SPACE, SPACE] + e.name + [LF]
  }

  function Render(es: seq<Entry>): Bytes {
    if es == [] then [] else Line(es[0]) + Render(es[1..])
  }

  /** The entries of `m` for these names. */
  ghost function EntriesFor(m: Manifest, names: seq<Bytes>): (es: seq<Entry>)
    requires Elems(names) <= m.Keys
    ensures |es| == |names| && forall i :: 0 <= i < |es| ==> es[i].name == names[i]
  {
    seq(|names|, i requires 0 <= i < |names| => assert names[i] in Elems(names); Entry(m[names[i]], names[i]))
  }

  ghost function EntriesOf(m: Manifest): seq<Entry> {
    EntriesFor(m, SortedNames(m.Keys))
  }

  /** The one text that stands for `m`: a line for each name, in increasing order. */
  ghost function Print(m: Manifest): Bytes {
    Render(EntriesOf(m))
  }

  predicate ListableName(n: Bytes) {
    ValidRelative(n) && n != MANIFEST_NAME
  }

  ghost predicate Canonical(m: Manifest) {
    && 0 < |m| <= MAX_ENTRIES
    && |Print(m)| <= MAX_MANIFEST
    && forall n :: n in m ==> ListableName(n)
  }

  // ---------- sequences of entries and the maps they stand for ----------

  predicate Ordered(es: seq<Entry>) {
    forall i, j :: 0 <= i < j < |es| ==> Less(es[i].name, es[j].name)
  }

  predicate Listable(es: seq<Entry>) {
    Ordered(es) && forall i :: 0 <= i < |es| ==> ListableName(es[i].name)
  }

  function Names(es: seq<Entry>): seq<Bytes> {
    seq(|es|, i requires 0 <= i < |es| => es[i].name)
  }

  function ToMap(es: seq<Entry>): (m: Manifest)
    ensures forall n :: n in m <==> n in Names(es)
  {
    if es == [] then map[]
    else
      var m := ToMap(es[..|es| - 1]);
      var e := es[|es| - 1];
      assert Names(es) == Names(es[..|es| - 1]) + [e.name];
      m[e.name := e.digest]
  }

  lemma {:induction false} ToMapValues(es: seq<Entry>)
    requires Ordered(es)
    ensures |ToMap(es)| == |es|
    ensures forall i :: 0 <= i < |es| ==> es[i].name in ToMap(es) && ToMap(es)[es[i].name] == es[i].digest
  {
    hide Less;
    if es != [] {
      var front := es[..|es| - 1];
      var e := es[|es| - 1];
      ToMapValues(front);
      forall i | 0 <= i < |front| ensures front[i].name != e.name {
        LessIrreflexive(e.name);
        assert Less(es[i].name, es[|es| - 1].name);
      }
      assert e.name !in Names(front);
      assert ToMap(es) == ToMap(front)[e.name := e.digest];
      forall i | 0 <= i < |es| ensures es[i].name in ToMap(es) && ToMap(es)[es[i].name] == es[i].digest {
        if i < |front| {
          assert es[i] == front[i];
        }
      }
    }
  }

  /** An ordered list of entries is recovered from its map. */
  lemma EntriesOfToMap(es: seq<Entry>)
    requires Ordered(es)
    ensures EntriesOf(ToMap(es)) == es && Print(ToMap(es)) == Render(es)
  {
    ToMapValues(es);
    var names := Names(es);
    assert Elems(names) == ToMap(es).Keys;
    SortedNamesUnique(names);
    assert |EntriesOf(ToMap(es))| == |es|;
    forall i | 0 <= i < |es| ensures EntriesOf(ToMap(es))[i] == es[i] {
      assert names[i] == es[i].name;
    }
  }

  lemma EntriesOfOrdered(m: Manifest)
    ensures Ordered(EntriesOf(m)) && |EntriesOf(m)| == |m| && Elems(Names(EntriesOf(m))) == m.Keys
  {
    var es := EntriesOf(m);
    var names := SortedNames(m.Keys);
    assert Names(es) == names;
    LessIsStrictOrder(m.Keys);
    SortedIsDistinct(Less, names);
    DistinctCount(names);
    forall i, j | 0 <= i < j < |es| ensures Less(es[i].name, es[j].name) {
      assert Less(names[i], names[j]);
    }
  }

  lemma EntryAt(m: Manifest, n: Bytes) returns (i: nat)
    requires n in m
    ensures i < |EntriesOf(m)| && EntriesOf(m)[i] == Entry(m[n], n)
  {
    var names := SortedNames(m.Keys);
    assert n in Elems(names);
    i :| 0 <= i < |names| && names[i] == n;
  }

  lemma ToMapKeys(es: seq<Entry>)
    ensures ToMap(es).Keys == Elems(Names(es))
  {
  }

  lemma ToMapAt(m: Manifest, n: Bytes)
    requires n in m
    ensures n in ToMap(EntriesOf(m)) && ToMap(EntriesOf(m))[n] == m[n]
  {
    hide Less, EntriesOf;
    EntriesOfOrdered(m);
    var i := EntryAt(m, n);
    ToMapValues(EntriesOf(m));
  }

  lemma ToMapOfEntries(m: Manifest)
    ensures ToMap(EntriesOf(m)) == m
  {
    hide Less;
    var es := EntriesOf(m);
    EntriesOfOrdered(m);
    ToMapKeys(es);
    forall n | n in m ensures ToMap(es)[n] == m[n] {
      ToMapAt(m, n);
    }
  }

  /** Two listable lists with the same text are the same list. */
  lemma {:induction false} RenderInjective(a: seq<Entry>, b: seq<Entry>)
    requires Listable(a) && Listable(b) && Render(a) == Render(b)
    ensures a == b
  {
    hide ListableName, Less;
    if a != [] && b != [] {
      ReadLine(a[0], Render(a[1..]));
      ReadLine(b[0], Render(b[1..]));
      assert a[0] == b[0];
      ListableTail(a);
      ListableTail(b);
      RenderInjective(a[1..], b[1..]);
      assert a == [a[0]] + a[1..] && b == [b[0]] + b[1..];
    } else if a != [] {
      RenderEnds(a);
    } else if b != [] {
      RenderEnds(b);
    }
  }

  lemma ListableTail(es: seq<Entry>)
    requires Listable(es) && es != []
    ensures Listable(es[1..])
  {
  }

  lemma ListableEntries(m: Manifest)
    requires forall n :: n in m ==> ListableName(n)
    ensures Listable(EntriesOf(m)) && |EntriesOf(m)| == |m|
  {
    hide ListableName, Less;
    var es := EntriesOf(m);
    EntriesOfOrdered(m);
    forall i | 0 <= i < |es| ensures ListableName(es[i].name) {
      assert Names(es)[i] in Elems(Names(es));
    }
  }

  /** The text determines the map. */
  lemma PrintInjective(a: Manifest, b: Manifest)
    requires forall n :: n in a ==> ListableName(n)
    requires forall n :: n in b ==> ListableName(n)
    requires Print(a) == Print(b)
    ensures a == b
  {
    hide ListableName, Less;
    ListableEntries(a);
    ListableEntries(b);
    RenderInjective(EntriesOf(a), EntriesOf(b));
    ToMapOfEntries(a);
    ToMapOfEntries(b);
  }

  /** The map a text stands for, if it is a canonical text. */
  ghost function Decode(data: Bytes): Option<Manifest> {
    if exists m :: Canonical(m) && Print(m) == data
    then var m :| Canonical(m) && Print(m) == data; Some(m)
    else None
  }

  /** Decoding what was printed gives the map back exactly when it is canonical. */
  lemma DecodeExactly(m: Manifest)
    requires forall n :: n in m ==> ListableName(n)
    ensures Decode(Print(m)) == if Canonical(m) then Some(m) else None
  {
    hide ListableName, Less, Print;
    if Decode(Print(m)).Some? {
      PrintInjective(m, Decode(Print(m)).value);
    }
  }

  // ---------- the rules for the text ----------

  /** A line for each of the names: the digest, two spaces, the name and a newline. */
  function TextFor(m: Manifest, names: seq<Bytes>): Bytes
    requires forall n :: n in names ==> n in m
  {
    if names == [] then []
    else
      var n := names[|names| - 1];
      TextFor(m, names[..|names| - 1]) + m[n] + [32, 32] + n + [10]
  }

  ghost predicate IsTextFor(data: Bytes, m: Manifest, names: seq<Bytes>) {
    && (forall n :: n in names <==> n in m)
    && (forall i, j :: 0 <= i < j < |names| ==> Less(names[i], names[j]))
    && TextFor(m, names) == data
  }

  /** What a manifest may hold, and how it is written, with all limits. */
  ghost predicate TextRules(data: Bytes, m: Manifest) {
    && 0 < |m| <= 100000 && |data| <= 16777216
    && (forall n :: n in m ==> NameRules(n) && n != Ascii("SHA256SUMS"))
    && (forall n, i :: n in m && 0 <= i < 64 ==> 48 <= m[n][i] <= 57 || 97 <= m[n][i] <= 102)
    && exists names: seq<Bytes> :: IsTextFor(data, m, names)
  }

  lemma {:induction false} TextIsRender(m: Manifest, names: seq<Bytes>)
    requires forall n :: n in names ==> n in m
    ensures Elems(names) <= m.Keys && TextFor(m, names) == Render(EntriesFor(m, names))
  {
    if names != [] {
      hide Render, EntriesFor, Line;
      var front, n := names[..|names| - 1], names[|names| - 1];
      TextIsRender(m, front);
      EntriesNext(m, names);
      RenderAppend(EntriesFor(m, front), Entry(m[n], n));
      LineText(TextFor(m, front), Entry(m[n], n));
    }
  }

  lemma EntriesNext(m: Manifest, names: seq<Bytes>)
    requires names != [] && Elems(names[..|names| - 1]) <= m.Keys && names[|names| - 1] in m
    ensures Elems(names) <= m.Keys
    ensures EntriesFor(m, names) ==
            EntriesFor(m, names[..|names| - 1]) + [Entry(m[names[|names| - 1]], names[|names| - 1])]
  {
  }

  lemma LineText(text: Bytes, e: Entry)
    ensures text + e.digest + [32, 32] + e.name + [10] == text + Line(e)
  {
  }

  /** The text of a map is the one that follows the rules. */
  lemma PrintedExactly(m: Manifest, data: Bytes)
    ensures Print(m) == data <==> exists names: seq<Bytes> :: IsTextFor(data, m, names)
  {
    hide Render, Less, TextFor;
    var sorted := SortedNames(m.Keys);
    assert forall n :: n in sorted <==> n in Elems(sorted);
    TextIsRender(m, sorted);
    if Print(m) == data {
      assert IsTextFor(data, m, sorted);
    }
    forall names: seq<Bytes> | IsTextFor(data, m, names) ensures names == sorted {
      assert Elems(names) == m.Keys;
      SortedNamesUnique(names);
    }
  }

  /** The canonical maps and their printings are those that follow the rules. */
  lemma CanonicalExactly(m: Manifest, data: Bytes)
    ensures Canonical(m) && Print(m) == data <==> TextRules(data, m)
  {
    hide Print, ValidRelative, NameRules, IsTextFor;
    PrintedExactly(m, data);
    forall n ensures ValidRelative(n) <==> NameRules(n) {
      ValidRelativeExactly(n);
    }
    forall n, i | n in m && 0 <= i < 64 ensures HexDigit(m[n][i]) {
      assert IsDigest(m[n]);
    }
  }

  /** A text stands for the one map that it follows the rules for. */
  lemma DecodedExactly(data: Bytes, m: Manifest)
    ensures Decode(data) == Some(m) <==> TextRules(data, m)
  {
    hide Print, TextRules, ListableName;
    CanonicalExactly(m, data);
    if Canonical(m) && Print(m) == data {
      DecodeExactly(m);
    }
  }

  // ---------- the parser ----------

  lemma {:induction false} RenderAppend(es: seq<Entry>, e: Entry)
    ensures Render(es + [e]) == Render(es) + Line(e)
  {
    hide Line;
    if es == [] {
      assert Render([e]) == Line(e) + Render([]);
    } else {
      RenderAppend(es[1..], e);
      assert (es + [e])[1..] == es[1..] + [e];
    }
  }

  /** The text `rest` is the line of `e` followed by `more`, as the parser cuts it. */
  ghost predicate StartsWith(rest: Bytes, e: Entry, more: Bytes) {
    var k := Cut(rest);
    && 67 <= k < |rest| && rest[64] == SPACE && rest[65] == SPACE
    && rest[..64] == e.digest && rest[66..k] == e.name && rest[k + 1..] == more
  }

  lemma ReadLine(e: Entry, more: Bytes)
    requires ListableName(e.name)
    ensures StartsWith(Line(e) + more, e, more)
  {
    var rest := Line(e) + more;
    var k := 66 + |e.name|;
    assert rest[..k] == e.digest + [SPACE, SPACE] + e.name;
    assert forall j :: 0 <= j < 64 ==> HexDigit(e.digest[j]);
    assert forall j :: 0 <= j < 64 ==> rest[..k][j] == e.digest[j];
    assert forall j :: 66 <= j < k ==> rest[..k][j] == e.name[j - 66];
    CutIsUnique(rest, k);
  }

  lemma NextLine(es: seq<Entry>, i: nat)
    requires i < |es|
    ensures Render(es[i..]) == Line(es[i]) + Render(es[i + 1..])
  {
  }

  lemma {:induction false} RenderEnds(es: seq<Entry>)
    requires es != []
    ensures Render(es) != [] && Render(es)[|Render(es)| - 1] == LF
  {
    if |es| > 1 {
      RenderEnds(es[1..]);
    } else {
      assert Render(es) == Line(es[0]) + [];
    }
  }

  /** Every canonical text begins with `entries` and goes on with the unread `rest`. */
  ghost predicate MustBe(data: Bytes, entries: seq<Entry>, rest: Bytes) {
    forall es {:trigger Listable(es)} :: Listable(es) && Render(es) == data ==>
      |entries| <= |es| && es[..|entries|] == entries && Render(es[|entries|..]) == rest
  }

  /** The tests on the line that starts `rest`, after `count` lines of which the last named `prev`. */
  ghost predicate NextOk(count: nat, prev: Bytes, rest: Bytes) {
    var k := Cut(rest);
    && count < MAX_ENTRIES
    && 67 <= k < |rest| && rest[64] == SPACE && rest[65] == SPACE
    && IsDigest(rest[..64]) && ListableName(rest[66..k])
    && (prev != [] ==> Less(prev, rest[66..k]))
  }

  ghost function LastName(entries: seq<Entry>): Bytes {
    if entries == [] then [] else entries[|entries| - 1].name
  }

  lemma PrintedText(m: Manifest)
    requires Canonical(m)
    ensures 0 < |Print(m)| <= MAX_MANIFEST && Print(m)[|Print(m)| - 1] == LF
    ensures Listable(EntriesOf(m)) && |EntriesOf(m)| == |m|
  {
    hide ListableName, Less;
    ListableEntries(m);
    RenderEnds(EntriesOf(m));
  }

  /** A text printed from a canonical map passes every test on its next line. */
  lemma OnlyNext(data: Bytes, entries: seq<Entry>, rest: Bytes, m: Manifest)
    requires MustBe(data, entries, rest) && rest != []
    requires Canonical(m)
    ensures Print(m) == data ==> NextOk(|entries|, LastName(entries), rest)
  {
    hide ListableName, Less, EntriesOf;
    var es, i := EntriesOf(m), |entries|;
    PrintedText(m);
    if Print(m) == data {
      assert i <= |es| && es[..i] == entries && Render(es[i..]) == rest;
      NextLine(es, i);
      ReadLine(es[i], Render(es[i + 1..]));
      if i > 0 {
        assert entries[i - 1] == es[..i][i - 1] == es[i - 1];
        assert Less(es[i - 1].name, es[i].name);
      }
    }
  }

  /** If the next line fails a test, no canonical map prints to the text. */
  lemma Rejected(data: Bytes, entries: seq<Entry>, rest: Bytes)
    requires MustBe(data, entries, rest) && rest != []
    requires !NextOk(|entries|, LastName(entries), rest)
    ensures forall m :: Canonical(m) ==> Print(m) != data
  {
    forall m | Canonical(m) ensures Print(m) != data {
      OnlyNext(data, entries, rest, m);
    }
  }

  lemma ExtendOrder(entries: seq<Entry>, e: Entry)
    requires Ordered(entries) && (entries != [] ==> Less(entries[|entries| - 1].name, e.name))
    ensures Ordered(entries + [e])
  {
    hide Less;
    var more := entries + [e];
    forall i, j | 0 <= i < j < |more| ensures Less(more[i].name, more[j].name) {
      if j == |entries| && i < j - 1 {
        LessTransitive(entries[i].name, entries[j - 1].name, e.name);
      }
    }
  }

  lemma ExtendMap(entries: seq<Entry>, e: Entry)
    requires Ordered(entries + [e])
    ensures ToMap(entries + [e]) == ToMap(entries)[e.name := e.digest]
    ensures |ToMap(entries + [e])| == |entries| + 1
  {
    hide Less, Ordered;
    assert (entries + [e])[..|entries|] == entries;
    ToMapValues(entries + [e]);
  }

  lemma LastNameNonempty(entries: seq<Entry>)
    requires Listable(entries)
    ensures LastName(entries) == [] <==> entries == []
  {
  }

  lemma ExtendListable(entries: seq<Entry>, e: Entry)
    requires Listable(entries) && ListableName(e.name) && Ordered(entries + [e])
    ensures Listable(entries + [e])
  {
  }

  lemma Extend(entries: seq<Entry>, e: Entry)
    requires Listable(entries) && ListableName(e.name)
    requires LastName(entries) != [] ==> Less(LastName(entries), e.name)
    ensures Listable(entries + [e]) && LastName(entries + [e]) == e.name
    ensures ToMap(entries + [e]) == ToMap(entries)[e.name := e.digest]
    ensures |ToMap(entries + [e])| == |entries| + 1
  {
    hide Less, ListableName;
    LastNameNonempty(entries);
    ExtendOrder(entries, e);
    ExtendListable(entries, e);
    ExtendMap(entries, e);
  }

  lemma SameNext(entries: seq<Entry>, rest: Bytes, e: Entry, after: Bytes, es: seq<Entry>)
    requires Listable(es) && rest != [] && StartsWith(rest, e, after)
    requires |entries| <= |es| && es[..|entries|] == entries && Render(es[|entries|..]) == rest
    ensures |entries| < |es| && es[|entries|] == e && Render(es[|entries| + 1..]) == after
  {
    var i := |entries|;
    assert es[|es|..] == [];
    NextLine(es, i);
    ReadLine(es[i], Render(es[i + 1..]));
  }

  lemma LineOf(rest: Bytes, e: Entry, after: Bytes)
    requires StartsWith(rest, e, after)
    ensures rest == Line(e) + after
  {
  }

  /** One accepted line extends the list that every canonical text must begin with. */
  lemma MustExtend(data: Bytes, entries: seq<Entry>, rest: Bytes, e: Entry, after: Bytes)
    requires MustBe(data, entries, rest)
    requires rest != [] && StartsWith(rest, e, after)
    ensures MustBe(data, entries + [e], after)
  {
    hide Listable, Render, StartsWith;
    forall es | Listable(es) && Render(es) == data
      ensures |entries| < |es| && es[..|entries| + 1] == entries + [e] && Render(es[|entries| + 1..]) == after
    {
      SameNext(entries, rest, e, after, es);
      assert es[..|entries| + 1] == es[..|entries|] + [es[|entries|]];
    }
  }

  lemma TextExtend(data: Bytes, entries: seq<Entry>, rest: Bytes, e: Entry, after: Bytes)
    requires data == Render(entries) + rest && StartsWith(rest, e, after)
    ensures data == Render(entries + [e]) + after
  {
    RenderAppend(entries, e);
    LineOf(rest, e, after);
    hide *;
    assert Render(entries) + (Line(e) + after) == Render(entries) + Line(e) + after;
  }

  /** One line of the parser's loop: the entry and the text after it, if every test passes. */
  method ParseLine(rest: Bytes, count: nat, prev: Bytes) returns (r: Option<(Entry, Bytes)>)
    requires rest != [] && rest[|rest| - 1] == LF
    ensures r.Some? <==> NextOk(count, prev, rest)
    ensures r.Some? ==> StartsWith(rest, r.value.0, r.value.1) && ListableName(r.value.0.name)
  {
    hide ValidRelative;
    var k := Cut(rest);
    var line := rest[..k];
    if count >= MAX_ENTRIES || |line| < 67 || line[64] != SPACE || line[65] != SPACE {
      return None;
    }
    var digest, name := line[..64], line[66..];
    assert digest == rest[..64] && name == rest[66..k];
    if !ValidRelative(name) || name == MANIFEST_NAME || (prev != [] && !Less(prev, name)) {
      return None;
    }
    var i := 0;
    while i < 64
      invariant 0 <= i <= 64 && forall j :: 0 <= j < i ==> HexDigit(digest[j])
    {
      if !HexDigit(digest[i]) {
        return None;
      }
      i := i + 1;
    }
    return Some((Entry(digest, name), rest[k + 1..]));
  }

  /** The parser's loop: `entries` are read, `rest` is not, and the variables say so. */
  ghost predicate ParseState(data: Bytes, entries: seq<Entry>, rest: Bytes, result: Manifest, prev: Bytes) {
    && Listable(entries) && prev == LastName(entries)
    && data == Render(entries) + rest && MustBe(data, entries, rest)
    && result == ToMap(entries) && |result| == |entries| <= MAX_ENTRIES
    && (rest != [] ==> rest[|rest| - 1] == LF)
  }

  lemma NothingRead(data: Bytes)
    requires data != [] && data[|data| - 1] == LF
    ensures ParseState(data, [], data, map[], [])
  {
  }

  lemma LineRead(data: Bytes, entries: seq<Entry>, rest: Bytes, result: Manifest, prev: Bytes, e: Entry, after: Bytes)
    requires ParseState(data, entries, rest, result, prev) && rest != []
    requires NextOk(|result|, prev, rest) && StartsWith(rest, e, after) && ListableName(e.name)
    ensures ParseState(data, entries + [e], after, result[e.name := e.digest], e.name)
    ensures |after| < |rest|
  {
    hide ListableName, Less, Render, MustBe, Listable;
    MustExtend(data, entries, rest, e, after);
    TextExtend(data, entries, rest, e, after);
    Extend(entries, e);
  }

  lemma WholeText(data: Bytes, entries: seq<Entry>, result: Manifest, prev: Bytes)
    requires ParseState(data, entries, [], result, prev) && 0 < |data| <= MAX_MANIFEST
    ensures Canonical(result) && Print(result) == data && Decode(data) == Some(result)
  {
    hide Less, ListableName;
    EntriesOfToMap(entries);
    forall n | n in ToMap(entries) ensures ListableName(n) {
      assert n in Names(entries);
    }
    DecodeExactly(result);
  }

  /**
   * `parseManifest` on the bytes of the file. It accepts exactly the canonical texts, those
   * that follow the rules, and returns the map whose printing the text is.
   */
  method ParseManifest(data: Bytes) returns (r: Option<Manifest>)
    ensures r == Decode(data)
    ensures r.Some? ==> Canonical(r.value) && Print(r.value) == data
    ensures r.None? ==> forall m :: Canonical(m) ==> Print(m) != data
    ensures if r.Some? then TextRules(data, r.value) else forall m :: !TextRules(data, m)
  {
    forall m ensures Canonical(m) && Print(m) == data <==> TextRules(data, m) {
      CanonicalExactly(m, data);
    }
    hide TextRules, ParseState, NextOk, StartsWith, Canonical, Print, ListableName;
    if |data| > MAX_MANIFEST || |data| == 0 || data[|data| - 1] != LF {
      forall m | Canonical(m) ensures Print(m) != data { PrintedText(m); }
      return None;
    }
    var result: Manifest := map[];
    var prev: Bytes := [];
    var rest := data;
    ghost var entries: seq<Entry> := [];
    NothingRead(data);
    while rest != []
      invariant ParseState(data, entries, rest, result, prev)
      decreases |rest|
    {
      StateFacts(data, entries, rest, result, prev);
      var next := ParseLine(rest, |result|, prev);
      if next.None? {
        Rejected(data, entries, rest);
        return None;
      }
      var (e, after) := next.value;
      LineRead(data, entries, rest, result, prev, e, after);
      entries := entries + [e];
      result, prev, rest := result[e.name := e.digest], e.name, after;
    }
    WholeText(data, entries, result, prev);
    return Some(result);
  }

  lemma StateFacts(data: Bytes, entries: seq<Entry>, rest: Bytes, result: Manifest, prev: Bytes)
    requires ParseState(data, entries, rest, result, prev)
    ensures |result| == |entries| && prev == LastName(entries) && MustBe(data, entries, rest)
    ensures rest != [] ==> rest[|rest| - 1] == LF
  {
  }
}
