/** Making a manifest, validating a backup tree, and auditing it against its manifest. */
module Audit {
  import opened Bytes
  import opened Manifests
  import opened Paths
  import opened Sorting
  import opened Trees
  import opened Walk

  const METADATA_NAME: Bytes := Ascii("xbkeeper.json")
  const CHECKPOINTS_NAME: Bytes := Ascii("xtrabackup_checkpoints")
  const MAX_CONTROL: nat := 65536
  const FORMAT_VERSION: int := 2

  /** Decoded `xbkeeper.json`; a time is present when it parses and is not the zero time. */
  datatype Metadata = Metadata(format: int, version: Bytes, created: Option<int>, prepared: Option<int>)

  /** What the model leaves to libraries: SHA-256, the checkpoint test and strict JSON. */
  datatype Codec = Codec(
    sha: Bytes -> Digest,
    fullPrepared: Bytes -> bool,
    decode: Bytes -> Option<Metadata>,
    encode: Metadata -> Bytes)

  /** The digest of every regular file. */
  function Digests(sha: Bytes -> Digest, items: Items): Manifest {
    map n | n in FilePaths(items) :: sha(items[n].data)
  }

  /** The context of a run: once cancelled, it stays so. */
  class Context {
    var cancelled: bool
    /** Whether nobody ever cancels it. */
    const endless: bool

    ghost predicate Valid()
      reads this
    {
      endless ==> !cancelled
    }

    constructor (endless: bool)
      ensures Valid() && !cancelled && this.endless == endless
    {
      cancelled, this.endless := false, endless;
    }

    /** `ctx.Err()`: at any poll the context may turn out to have been cancelled. */
    method Err() returns (stop: bool)
      requires Valid()
      modifies this
      ensures Valid() && stop == cancelled && (old(cancelled) ==> cancelled)
    {
      if !cancelled && !endless {
        cancelled := *;
      }
      stop := cancelled;
    }
  }

  // ---------- generateManifest ----------

  predicate AllFiles(items: Items, files: seq<Bytes>) {
    forall i :: 0 <= i < |files| ==> files[i] in items && items[files[i]].File?
  }

  ghost function Lines(sha: Bytes -> Digest, items: Items, files: seq<Bytes>): seq<Entry>
    requires AllFiles(items, files)
  {
    seq(|files|, i requires 0 <= i < |files| => Entry(sha(items[files[i]].data), files[i]))
  }

  lemma LinesAreEntries(sha: Bytes -> Digest, items: Items, files: seq<Bytes>)
    requires IsListing(files, items) && AllFiles(items, files)
    ensures Lines(sha, items, files) == EntriesOf(Digests(sha, items))
  {
    SortedNamesUnique(files);
    assert Digests(sha, items).Keys == FilePaths(items);
  }

  lemma LinesNext(sha: Bytes -> Digest, items: Items, files: seq<Bytes>, i: nat)
    requires i < |files| && AllFiles(items, files)
    ensures Lines(sha, items, files)[..i + 1] ==
            Lines(sha, items, files)[..i] + [Entry(sha(items[files[i]].data), files[i])]
  {
  }

  lemma {:induction false} RenderPrefix(es: seq<Entry>, i: nat)
    requires i <= |es|
    ensures |Render(es[..i])| <= |Render(es)|
  {
    if i > 0 {
      RenderPrefix(es[1..], i - 1);
      assert es[..i][1..] == es[1..][..i - 1];
    }
  }

  /** The trees whose manifest can be generated. */
  ghost predicate Hashable(sha: Bytes -> Digest, items: Items) {
    && Walkable(items) && FilePaths(items) != {} && MANIFEST_NAME !in FilePaths(items)
    && |Print(Digests(sha, items))| <= MAX_MANIFEST
  }

  /** The loop of `generateManifest`: a line for each file, within the size limit. */
  method PrintFiles(sha: Bytes -> Digest, items: Items, files: seq<Bytes>) returns (r: Option<Bytes>)
    requires AllFiles(items, files)
    ensures r.Some? <==> MANIFEST_NAME !in files && |Render(Lines(sha, items, files))| <= MAX_MANIFEST
    ensures r.Some? ==> r.value == Render(Lines(sha, items, files))
  {
    hide Render, Line;
    ghost var es := Lines(sha, items, files);
    var b: Bytes := [];
    EmptyText(es);
    for i := 0 to |files|
      invariant b == Render(es[..i]) && |b| <= MAX_MANIFEST
      invariant forall j :: 0 <= j < i ==> files[j] != MANIFEST_NAME
    {
      var name := files[i];
      if name == MANIFEST_NAME {
        return None;
      }
      LinesNext(sha, items, files, i);
      RenderAppend(es[..i], es[i]);
      b := b + Line(Entry(sha(items[name].data), name));
      if |b| > MAX_MANIFEST {
        RenderPrefix(es, i + 1);
        return None;
      }
    }
    assert es[..|files|] == es;
    return Some(b);
  }

  lemma EmptyText(es: seq<Entry>)
    ensures Render(es[..0]) == []
  {
  }

  /** `generateManifest`: the printing of the digests of all files, or an error. */
  method GenerateManifest(sha: Bytes -> Digest, items: Items) returns (r: Option<Bytes>)
    requires WellFormed(items)
    ensures r.Some? <==> Hashable(sha, items)
    ensures r.Some? ==> r.value == Print(Digests(sha, items))
  {
    hide Walkable, WellFormed, Lines, Digests, ValidRelative;
    var files := ListFiles(items);
    if files.None? {
      return None;
    }
    InListing(files.value, items);
    LinesAreEntries(sha, items, files.value);
    assert MANIFEST_NAME in files.value <==> MANIFEST_NAME in Elems(files.value);
    r := PrintFiles(sha, items, files.value);
    if |files.value| == 0 {
      return None;
    }
    assert files.value[0] in Elems(files.value);
  }

  lemma InListing(files: seq<Bytes>, items: Items)
    requires IsListing(files, items)
    ensures AllFiles(items, files)
    ensures Distinct(files) && |files| == |FilePaths(items)|
  {
    LessIsStrictOrder(Elems(files));
    SortedIsDistinct(Less, files);
    DistinctCount(files);
    forall i | 0 <= i < |files| ensures files[i] in FilePaths(items) {
      assert files[i] in Elems(files);
    }
  }

  lemma DigestKeys(sha: Bytes -> Digest, items: Items)
    ensures Digests(sha, items).Keys == FilePaths(items) && |Digests(sha, items)| == |FilePaths(items)|
  {
  }

  lemma DigestNames(sha: Bytes -> Digest, items: Items)
    requires AllOk(items, items.Keys) && MANIFEST_NAME !in FilePaths(items)
    ensures forall n :: n in Digests(sha, items) ==> ListableName(n)
  {
  }

  /**
   * Reading back what was printed gives the map from file to digest, exactly when the tree
   * has files, no more of them than the parser admits lines, and a text within the limit.
   * The walk admits one entry more than the parser.
   */
  lemma RoundTrip(sha: Bytes -> Digest, items: Items)
    requires AllOk(items, items.Keys) && MANIFEST_NAME !in FilePaths(items)
    ensures Decode(Print(Digests(sha, items))) ==
            if 0 < |FilePaths(items)| <= MAX_ENTRIES && |Print(Digests(sha, items))| <= MAX_MANIFEST
            then Some(Digests(sha, items)) else None
  {
    hide ListableName, Print, FilePaths, Digests, Decode, AllOk;
    DigestNames(sha, items);
    DigestKeys(sha, items);
    DecodeExactly(Digests(sha, items));
  }

  // ---------- matchingFileSet and structuralManifest ----------

  /** The counting and the loop of `matchingFileSet`, for a manifest called `own`. */
  method MatchingNames(files: seq<Bytes>, expected: Manifest, own: Bytes) returns (same: bool)
    requires Distinct(files) && own !in expected
    ensures same <==> Elems(files) == expected.Keys + {own}
  {
    hide Elems, Distinct;
    DistinctCount(files);
    KeysAndOne(expected, own);
    if |files| != |expected| + 1 {
      return false;
    }
    for i := 0 to |files|
      invariant forall j :: 0 <= j < i ==> files[j] == own || files[j] in expected
    {
      if files[i] != own && files[i] !in expected {
        Outsider(files, i, expected.Keys + {own});
        return false;
      }
    }
    Pigeonhole(files, expected.Keys + {own});
    return true;
  }

  /**
   * `matchingFileSet`: with one more file than names, and no file that is neither named nor
   * the manifest, the file set is exactly the names and the manifest.
   */
  method MatchingFileSet(files: seq<Bytes>, expected: Manifest) returns (same: bool)
    requires Distinct(files) && MANIFEST_NAME !in expected
    ensures same <==> Elems(files) == expected.Keys + {MANIFEST_NAME}
  {
    same := MatchingNames(files, expected, MANIFEST_NAME);
  }

  lemma KeysAndOne(m: Manifest, k: Bytes)
    requires k !in m
    ensures |m.Keys + {k}| == |m| + 1
  {
  }

  lemma Outsider(files: seq<Bytes>, i: nat, s: set<Bytes>)
    requires i < |files| && files[i] !in s
    ensures Elems(files) != s
  {
  }

  /** As many distinct files as there are names, all of them named, leave no name without a file. */
  lemma Pigeonhole(files: seq<Bytes>, s: set<Bytes>)
    requires Distinct(files) && |files| == |s| && forall i :: 0 <= i < |files| ==> files[i] in s
    ensures Elems(files) == s
  {
    DistinctCount(files);
    SubsetSize(Elems(files), s);
  }

  /** A private regular file of at most `limit` bytes, as `readControl` reads it. */
  function Control(items: Items, name: Bytes, limit: nat): Option<Bytes> {
    if name in items && SafeEntry(items[name], false) && |items[name].data| <= limit
    then Some(items[name].data) else None
  }

  /** The manifest the tree carries. */
  ghost function ManifestIn(items: Items): Option<Manifest> {
    if Control(items, MANIFEST_NAME, MAX_MANIFEST).Some? then Decode(items[MANIFEST_NAME].data) else None
  }

  /** The regular files are those the manifest names, and the manifest. */
  ghost predicate SameFiles(items: Items, m: Manifest) {
    FilePaths(items) == m.Keys + {MANIFEST_NAME}
  }

  ghost predicate Structural(items: Items) {
    Walkable(items) && ManifestIn(items).Some? && SameFiles(items, ManifestIn(items).value)
  }

  lemma ManifestFacts(items: Items)
    ensures ManifestIn(items).Some? ==>
              Canonical(ManifestIn(items).value) && MANIFEST_NAME !in ManifestIn(items).value
              && Print(ManifestIn(items).value) == items[MANIFEST_NAME].data
  {
    hide ValidRelative;
    assert !ListableName(MANIFEST_NAME);
  }

  method ReadManifest(items: Items) returns (r: Option<Manifest>)
    ensures r == ManifestIn(items)
  {
    var data := Control(items, MANIFEST_NAME, MAX_MANIFEST);
    if data.None? {
      return None;
    }
    r := ParseManifest(data.value);
  }

  /** `structuralManifest` decides the same set equality. */
  method StructuralManifest(items: Items) returns (ok: bool)
    requires WellFormed(items)
    ensures ok <==> Structural(items)
  {
    hide WellFormed, Walkable, Canonical, ValidRelative;
    var files := ListFiles(items);
    if files.None? {
      return false;
    }
    var expected := ReadManifest(items);
    if expected.None? {
      return false;
    }
    InListing(files.value, items);
    ManifestFacts(items);
    ok := MatchingFileSet(files.value, expected.value);
  }

  // ---------- validBackupRoot ----------

  function MetadataIn(codec: Codec, items: Items): Option<Metadata> {
    if Control(items, METADATA_NAME, MAX_CONTROL).Some? then codec.decode(items[METADATA_NAME].data) else None
  }

  ghost predicate CheckpointIn(codec: Codec, items: Items) {
    Control(items, CHECKPOINTS_NAME, MAX_CONTROL).Some? && codec.fullPrepared(items[CHECKPOINTS_NAME].data)
  }

  predicate GoodMetadata(m: Metadata) {
    (m.format == 1 || m.format == FORMAT_VERSION) && m.version != [] && m.created.Some? && m.prepared.Some?
  }

  ghost predicate ValidRoot(codec: Codec, items: Items) {
    var m := MetadataIn(codec, items);
    && Walkable(items) && CheckpointIn(codec, items)
    && m.Some? && GoodMetadata(m.value)
    && (m.value.format == 2 ==> Structural(items))
  }

  method ValidBackupRoot(codec: Codec, items: Items) returns (ok: bool)
    requires WellFormed(items)
    ensures ok <==> ValidRoot(codec, items)
  {
    hide WellFormed, Walkable, SafeEntry;
    var files := ListFiles(items);
    if files.None? {
      return false;
    }
    var checkpoint := Control(items, CHECKPOINTS_NAME, MAX_CONTROL);
    if checkpoint.None? || !codec.fullPrepared(checkpoint.value) {
      return false;
    }
    var data := Control(items, METADATA_NAME, MAX_CONTROL);
    if data.None? {
      return false;
    }
    var m := codec.decode(data.value);
    if m.None? || !GoodMetadata(m.value) {
      return false;
    }
    if m.value.format == 2 {
      ok := StructuralManifest(items);
      return;
    }
    return true;
  }

  /** `validBackup`: a private directory whose contents are valid. */
  ghost predicate ValidBackup(codec: Codec, t: Tree) {
    SafeEntry(t.top, true) && ValidRoot(codec, t.items)
  }

  // ---------- verifyOne ----------

  datatype Reason = Passed | Legacy | InvalidBackup | Mismatch
  datatype Verification = Verification(ok: bool, files: nat, reason: Reason)

  ghost predicate DigestsMatch(codec: Codec, items: Items, m: Manifest) {
    forall n :: n in m ==> n in items && items[n].File? && codec.sha(items[n].data) == m[n]
  }

  /** A safe, structurally valid format-2 backup whose every digest matches. */
  ghost predicate Intact(codec: Codec, t: Tree) {
    && ValidBackup(codec, t)
    && MetadataIn(codec, t.items).value.format == 2
    && DigestsMatch(codec, t.items, ManifestIn(t.items).value)
  }

  ghost predicate HasFormat(codec: Codec, t: Tree, format: int) {
    && SafeEntry(t.top, true)
    && MetadataIn(codec, t.items).Some? && MetadataIn(codec, t.items).value.format == format
  }

  /** The controls and the manifest can be read, but the files are not those it lists. */
  ghost predicate Differs(codec: Codec, t: Tree) {
    && HasFormat(codec, t, 2)
    && Walkable(t.items) && ManifestIn(t.items).Some?
    && if ValidRoot(codec, t.items)
       then !DigestsMatch(codec, t.items, ManifestIn(t.items).value)
       else !SameFiles(t.items, ManifestIn(t.items).value)
  }

  ghost function VerdictOf(codec: Codec, t: Tree): Reason {
    if HasFormat(codec, t, 1) then Legacy
    else if Intact(codec, t) then Passed
    else if Differs(codec, t) then Mismatch
    else InvalidBackup
  }

  /** The files hashed when the audit stops at `n`: the names up to and including it. */
  function UpTo(m: Manifest, n: Bytes): set<Bytes> {
    set x | x in m && !Less(n, x)
  }

  /** The first name, in byte order, whose file has another digest. */
  ghost predicate FirstMismatch(codec: Codec, items: Items, m: Manifest, n: Bytes) {
    && n in m && n in items && items[n].File? && codec.sha(items[n].data) != m[n]
    && forall x :: x in m && Less(x, n) ==> x in items && items[x].File? && codec.sha(items[x].data) == m[x]
  }

  /** The names of `m` among the first `i` files. */
  ghost function Hashed(files: seq<Bytes>, i: nat): set<Bytes>
    requires i <= |files|
  {
    Elems(files[..i]) - {MANIFEST_NAME}
  }

  lemma HashedNext(files: seq<Bytes>, i: nat)
    requires i < |files| && Distinct(files)
    ensures Hashed(files, i + 1) == if files[i] == MANIFEST_NAME then Hashed(files, i) else Hashed(files, i) + {files[i]}
    ensures files[i] !in Hashed(files, i)
  {
  }

  lemma HashedIsUpTo(files: seq<Bytes>, m: Manifest, i: nat)
    requires SortedBy(Less, files) && Elems(files) == m.Keys + {MANIFEST_NAME} && MANIFEST_NAME !in m
    requires i < |files| && files[i] in m
    ensures Hashed(files, i + 1) == UpTo(m, files[i])
    ensures forall x :: x in m && Less(x, files[i]) ==> x in Hashed(files, i)
  {
    forall x ensures x in Hashed(files, i + 1) <==> x in UpTo(m, files[i]) {
      WhereInOrder(files, i, x);
      assert x in Elems(files) <==> x in m || x == MANIFEST_NAME;
    }
    forall x | x in m && Less(x, files[i]) ensures x in Hashed(files, i) {
      WhereInOrder(files, i, x);
      assert x in Elems(files);
    }
  }

  lemma WhereInOrder(files: seq<Bytes>, i: nat, x: Bytes)
    requires SortedBy(Less, files) && i < |files|
    ensures x in files[..i + 1] <==> x in files && !Less(files[i], x)
    ensures x in files[..i] <==> x in files && Less(x, files[i])
  {
    hide Less;
    if x in files {
      var j :| 0 <= j < |files| && files[j] == x;
      OrderIsPosition(files, i, j);
      OrderIsPosition(files, j, i);
      assert j < i ==> files[..i][j] == x;
      assert j <= i ==> files[..i + 1][j] == x;
    }
    forall k | 0 <= k < i + 1 ensures files[..i + 1][k] in files && !Less(files[i], files[k]) {
      OrderIsPosition(files, k, i);
    }
  }

  // ---------- the rules for a backup ----------

  /** A private file with one link and of limited size. */
  predicate ControlRules(items: Items, name: Bytes, limit: nat) {
    && name in items && items[name].File? && items[name].attr.owned && items[name].attr.private
    && items[name].attr.links == 1 && |items[name].data| <= limit
  }

  /** The manifest follows the rules and names exactly the other files. */
  ghost predicate ManifestRules(items: Items, m: Manifest) {
    && ControlRules(items, Ascii("SHA256SUMS"), 16777216) && TextRules(items[Ascii("SHA256SUMS")].data, m)
    && forall f :: f in m <==> f in items && items[f].File? && f != Ascii("SHA256SUMS")
  }

  ghost predicate HasManifest(items: Items) {
    exists m :: ManifestRules(items, m)
  }

  /** A valid backup: its directory, entries, checkpoints, metadata, and in format 2 its manifest. */
  ghost predicate BackupRules(codec: Codec, t: Tree) {
    && t.top.Dir? && t.top.attr.owned && t.top.attr.private && TreeRules(t.items)
    && ControlRules(t.items, Ascii("xtrabackup_checkpoints"), 65536)
    && codec.fullPrepared(t.items[Ascii("xtrabackup_checkpoints")].data)
    && ControlRules(t.items, Ascii("xbkeeper.json"), 65536)
    && match codec.decode(t.items[Ascii("xbkeeper.json")].data) {
         case None => false
         case Some(m) =>
           && m.version != [] && m.created.Some? && m.prepared.Some?
           && (m.format == 1 || (m.format == 2 && HasManifest(t.items)))
       }
  }

  lemma ControlExactly(items: Items, name: Bytes, limit: nat)
    ensures Control(items, name, limit).Some? <==> ControlRules(items, name, limit)
    ensures ControlRules(items, name, limit) ==> Control(items, name, limit).value == items[name].data
  {
  }

  lemma StructuralExactly(items: Items)
    requires Walkable(items)
    ensures forall m :: ManifestIn(items) == Some(m) && SameFiles(items, m) <==> ManifestRules(items, m)
    ensures Structural(items) <==> HasManifest(items)
  {
    hide Walkable, Decode, TextRules, Control;
    ControlExactly(items, MANIFEST_NAME, MAX_MANIFEST);
    forall m ensures ManifestIn(items) == Some(m) && SameFiles(items, m) <==> ManifestRules(items, m) {
      OneManifest(items, m);
    }
    if Structural(items) {
      assert ManifestRules(items, ManifestIn(items).value);
    }
  }

  lemma OneManifest(items: Items, m: Manifest)
    ensures ManifestIn(items) == Some(m) && SameFiles(items, m) <==> ManifestRules(items, m)
  {
    hide Decode, TextRules, Control;
    ControlExactly(items, MANIFEST_NAME, MAX_MANIFEST);
    if ControlRules(items, MANIFEST_NAME, MAX_MANIFEST) {
      DecodedExactly(items[MANIFEST_NAME].data, m);
      FilesExactly(items, m);
    }
    ManifestFacts(items);
  }

  lemma FilesExactly(items: Items, m: Manifest)
    requires MANIFEST_NAME in items && items[MANIFEST_NAME].File?
    ensures SameFiles(items, m) && MANIFEST_NAME !in m <==>
            forall f :: f in m <==> f in items && items[f].File? && f != MANIFEST_NAME
  {
  }

  /** The backups that the checks accept are those that follow the rules. */
  lemma ValidExactly(codec: Codec, t: Tree)
    ensures ValidBackup(codec, t) <==> BackupRules(codec, t)
  {
    hide Walkable, TreeRules, Structural, ManifestRules, Control, ControlRules, HasManifest;
    WalkableExactly(t.items);
    ControlExactly(t.items, METADATA_NAME, MAX_CONTROL);
    ControlExactly(t.items, CHECKPOINTS_NAME, MAX_CONTROL);
    if Walkable(t.items) {
      StructuralExactly(t.items);
    }
  }

  /** The manifest has the digest of each of its files. */
  ghost predicate DigestRules(codec: Codec, items: Items) {
    exists m :: Certifies(codec, items, m)
  }

  ghost predicate Certifies(codec: Codec, items: Items, m: Manifest) {
    ManifestRules(items, m) && forall f :: f in m ==> f in items && items[f].File? && codec.sha(items[f].data) == m[f]
  }

  /** A backup that passes the audit: valid, of format 2, and with the digests of its manifest. */
  ghost predicate AuditRules(codec: Codec, t: Tree) {
    && BackupRules(codec, t) && DigestRules(codec, t.items)
    && codec.decode(t.items[Ascii("xbkeeper.json")].data).value.format == 2
  }

  lemma DigestsExactly(codec: Codec, items: Items)
    requires Structural(items)
    ensures DigestsMatch(codec, items, ManifestIn(items).value) <==> DigestRules(codec, items)
  {
    hide Structural, ManifestIn, ManifestRules, Certifies;
    OwnManifest(items);
    if DigestRules(codec, items) {
      var m :| Certifies(codec, items, m);
      CertifiesExactly(codec, items, m);
    }
    CertifiesExactly(codec, items, ManifestIn(items).value);
  }

  lemma CertifiesExactly(codec: Codec, items: Items, m: Manifest)
    ensures Certifies(codec, items, m) <==> ManifestRules(items, m) && DigestsMatch(codec, items, m)
  {
  }

  lemma OwnManifest(items: Items)
    requires Structural(items)
    ensures ManifestIn(items).Some? && ManifestRules(items, ManifestIn(items).value)
    ensures forall m :: ManifestRules(items, m) ==> m == ManifestIn(items).value
  {
    hide Walkable, ManifestIn, ManifestRules, SameFiles;
    StructuralExactly(items);
  }

  lemma IntactExactly(codec: Codec, t: Tree)
    ensures Intact(codec, t) <==> AuditRules(codec, t)
  {
    ValidExactly(codec, t);
    hide Walkable, CheckpointIn, BackupRules, DigestRules, DigestsMatch;
    if ValidBackup(codec, t) && MetadataIn(codec, t.items).value.format == 2 {
      DigestsExactly(codec, t.items);
    }
    MetadataExactly(codec, t);
  }

  lemma MetadataExactly(codec: Codec, t: Tree)
    ensures BackupRules(codec, t) ==> MetadataIn(codec, t.items) == codec.decode(t.items[Ascii("xbkeeper.json")].data)
    ensures BackupRules(codec, t) ==> codec.decode(t.items[Ascii("xbkeeper.json")].data).Some?
  {
  }

  /** The metadata of a private directory can be read and says this format. */
  ghost predicate FormatRules(codec: Codec, t: Tree, format: int) {
    && t.top.Dir? && t.top.attr.owned && t.top.attr.private && ControlRules(t.items, Ascii("xbkeeper.json"), 65536)
    && codec.decode(t.items[Ascii("xbkeeper.json")].data).Some?
    && codec.decode(t.items[Ascii("xbkeeper.json")].data).value.format == format
  }

  /** The manifest can be read, but the files or, in a valid backup, a digest are not as it says. */
  ghost predicate MismatchRules(codec: Codec, t: Tree) {
    && FormatRules(codec, t, 2) && TreeRules(t.items) && ControlRules(t.items, Ascii("SHA256SUMS"), 16777216)
    && HasText(t.items[Ascii("SHA256SUMS")].data)
    && if BackupRules(codec, t) then !DigestRules(codec, t.items) else !HasManifest(t.items)
  }

  ghost predicate HasText(data: Bytes) {
    exists m :: TextRules(data, m)
  }

  /** What the audit says of a backup. */
  lemma VerdictExactly(codec: Codec, t: Tree)
    ensures VerdictOf(codec, t) == Passed <==> AuditRules(codec, t)
    ensures VerdictOf(codec, t) == Legacy <==> FormatRules(codec, t, 1)
    ensures VerdictOf(codec, t) == Mismatch <==> MismatchRules(codec, t)
  {
    IntactExactly(codec, t);
    FormatExactly(codec, t, 1);
    FormatExactly(codec, t, 2);
    DiffersExactly(codec, t);
    IntactHasFormat(codec, t);
    hide Intact, AuditRules, HasFormat, FormatRules, Differs, MismatchRules;
  }

  lemma IntactHasFormat(codec: Codec, t: Tree)
    ensures Intact(codec, t) ==> HasFormat(codec, t, 2) && !HasFormat(codec, t, 1) && !Differs(codec, t)
    ensures Differs(codec, t) ==> !HasFormat(codec, t, 1)
  {
  }

  lemma FormatExactly(codec: Codec, t: Tree, format: int)
    ensures HasFormat(codec, t, format) <==> FormatRules(codec, t, format)
  {
  }

  lemma DiffersExactly(codec: Codec, t: Tree)
    ensures Differs(codec, t) <==> MismatchRules(codec, t)
  {
    FormatExactly(codec, t, 2);
    WalkableExactly(t.items);
    TextExactly(t.items);
    ValidExactly(codec, t);
    hide FormatRules, HasFormat, TreeRules, Walkable, ControlRules, HasText, BackupRules, DigestRules,
         HasManifest, Structural, ManifestIn, SameFiles, DigestsMatch, CheckpointIn, MetadataIn, Control;
    if HasFormat(codec, t, 2) && Walkable(t.items) {
      StructuralExactly(t.items);
      FormatTwo(codec, t);
      if Structural(t.items) {
        DigestsExactly(codec, t.items);
      }
      StructuralIs(t.items);
    }
  }

  lemma StructuralIs(items: Items)
    ensures Structural(items) <==> Walkable(items) && ManifestIn(items).Some? && SameFiles(items, ManifestIn(items).value)
  {
  }

  lemma FormatTwo(codec: Codec, t: Tree)
    requires HasFormat(codec, t, 2)
    ensures ValidRoot(codec, t.items) <==> ValidBackup(codec, t)
    ensures ValidRoot(codec, t.items) ==> Structural(t.items)
  {
  }

  lemma TextExactly(items: Items)
    ensures ManifestIn(items).Some? <==>
            ControlRules(items, Ascii("SHA256SUMS"), 16777216) && HasText(items[Ascii("SHA256SUMS")].data)
  {
    ControlExactly(items, MANIFEST_NAME, MAX_MANIFEST);
    hide Decode, TextRules, Control;
    if ControlRules(items, MANIFEST_NAME, MAX_MANIFEST) {
      var data := items[MANIFEST_NAME].data;
      forall m ensures Decode(data) == Some(m) <==> TextRules(data, m) {
        DecodedExactly(data, m);
      }
    }
  }

  /** The files hashed up to `n` are those named before it, and `n`. */
  lemma UpToExactly(m: Manifest, n: Bytes)
    ensures UpTo(m, n) == set x | x in m && (x == n || Less(x, n))
  {
    LessIrreflexive(n);
    forall x | x in m ensures !Less(n, x) <==> x == n || Less(x, n) {
      LessAsymmetric(x, n);
      if x != n {
        LessTotal(x, n);
      }
    }
  }

  // ---------- verifyOne ----------

  datatype Audited = Cancelled | Checked(v: Verification)

  /** What one audit reports, whatever the moment it would have been cancelled at. */
  ghost predicate Reports(codec: Codec, t: Tree, v: Verification) {
    && v.reason == VerdictOf(codec, t)
    && v.ok == (v.reason == Passed)
    && (v.ok ==> v.files == |ManifestIn(t.items).value|)
    && (v.reason == Mismatch && ValidRoot(codec, t.items) ==>
          exists n :: FirstMismatch(codec, t.items, ManifestIn(t.items).value, n)
                      && v.files == |UpTo(ManifestIn(t.items).value, n)|)
    && (v.files > 0 ==> ValidRoot(codec, t.items))
  }

  /** Every named file among the first `i` has the digest the manifest gives. */
  ghost predicate MatchedUpTo(codec: Codec, items: Items, files: seq<Bytes>, m: Manifest, i: nat)
    requires i <= |files|
  {
    forall x :: x in Hashed(files, i) && x in m ==> x in items && items[x].File? && codec.sha(items[x].data) == m[x]
  }

  lemma MatchNext(codec: Codec, items: Items, files: seq<Bytes>, m: Manifest, i: nat)
    requires i < |files| && AllFiles(items, files) && MatchedUpTo(codec, items, files, m, i)
    requires files[i] in m ==> codec.sha(items[files[i]].data) == m[files[i]]
    ensures MatchedUpTo(codec, items, files, m, i + 1)
  {
  }

  lemma StopsAt(codec: Codec, items: Items, files: seq<Bytes>, m: Manifest, i: nat)
    requires SortedBy(Less, files) && Elems(files) == m.Keys + {MANIFEST_NAME} && MANIFEST_NAME !in m
    requires i < |files| && files[i] in m && files[i] in items && items[files[i]].File?
    requires codec.sha(items[files[i]].data) != m[files[i]] && MatchedUpTo(codec, items, files, m, i)
    ensures FirstMismatch(codec, items, m, files[i]) && |Hashed(files, i + 1)| == |UpTo(m, files[i])|
    ensures !DigestsMatch(codec, items, m)
  {
    hide Less, Hashed;
    HashedIsUpTo(files, m, i);
  }

  lemma AllHashed(codec: Codec, items: Items, files: seq<Bytes>, m: Manifest)
    requires Elems(files) == m.Keys + {MANIFEST_NAME} && MANIFEST_NAME !in m
    requires MatchedUpTo(codec, items, files, m, |files|)
    ensures DigestsMatch(codec, items, m) && |Hashed(files, |files|)| == |m|
  {
    assert files[..|files|] == files;
    assert Hashed(files, |files|) == m.Keys;
  }

  /** The hashing loop: all digests match, or the files hashed up to the first that does not. */
  method HashAll(ctx: Context, codec: Codec, items: Items, files: seq<Bytes>, expected: Manifest)
      returns (cancelled: bool, same: bool, count: nat)
    requires ctx.Valid() && !ctx.cancelled
    requires SortedBy(Less, files) && Distinct(files) && AllFiles(items, files)
    requires Elems(files) == expected.Keys + {MANIFEST_NAME} && MANIFEST_NAME !in expected
    modifies ctx
    ensures ctx.Valid()
    ensures cancelled == ctx.cancelled
    ensures !cancelled ==> (same <==> DigestsMatch(codec, items, expected))
    ensures !cancelled && same ==> count == |expected|
    ensures !cancelled && !same ==>
              exists n :: FirstMismatch(codec, items, expected, n) && count == |UpTo(expected, n)|
  {
    hide Less, Hashed, MatchedUpTo, FirstMismatch, DigestsMatch, UpTo, SortedBy, Distinct, MANIFEST_NAME;
    NothingHashed(codec, items, files, expected);
    count := 0;
    for i := 0 to |files|
      invariant ctx.Valid() && !ctx.cancelled
      invariant count == |Hashed(files, i)| && MatchedUpTo(codec, items, files, expected, i)
    {
      var stop := ctx.Err();
      if stop {
        return true, false, 0;
      }
      var n := files[i];
      assert n in Elems(files);
      HashedNext(files, i);
      if n != MANIFEST_NAME {
        count := count + 1;
        if codec.sha(items[n].data) != expected[n] {
          StopsAt(codec, items, files, expected, i);
          return false, false, count;
        }
      }
      MatchNext(codec, items, files, expected, i);
    }
    AllHashed(codec, items, files, expected);
    return false, true, count;
  }

  lemma NothingHashed(codec: Codec, items: Items, files: seq<Bytes>, m: Manifest)
    ensures Hashed(files, 0) == {} && MatchedUpTo(codec, items, files, m, 0)
  {
  }

  /** `verifyOne` on the tree behind a backup name: it is checked, unless the run is cancelled. */
  method VerifyOne(ctx: Context, codec: Codec, t: Tree) returns (r: Audited)
    requires WellFormed(t.items) && ctx.Valid()
    modifies ctx
    ensures ctx.Valid()
    ensures r.Cancelled? <==> ctx.cancelled
    ensures r.Checked? ==> Reports(codec, t, r.v)
    ensures r.Checked? ==> (r.v.ok <==> AuditRules(codec, t)) && (r.v.reason == Legacy <==> FormatRules(codec, t, 1))
    ensures r.Checked? ==> (r.v.reason == Mismatch <==> MismatchRules(codec, t))
  {
    VerdictExactly(codec, t);
    hide FormatRules, MismatchRules, WellFormed, Walkable, SafeEntry, CheckpointIn, FirstMismatch, UpTo, AuditRules;
    var stop := ctx.Err();
    if stop {
      return Cancelled;
    }
    if !SafeEntry(t.top, true) {
      return Checked(Verification(false, 0, InvalidBackup));
    }
    var data := Control(t.items, METADATA_NAME, MAX_CONTROL);
    if data.None? {
      stop := ctx.Err();
      return if stop then Cancelled else Checked(Verification(false, 0, InvalidBackup));
    }
    var m := codec.decode(data.value);
    if m.None? {
      return Checked(Verification(false, 0, InvalidBackup));
    }
    if m.value.format == 1 {
      return Checked(Verification(false, 0, Legacy));
    }
    if m.value.format != 2 {
      return Checked(Verification(false, 0, InvalidBackup));
    }
    assert HasFormat(codec, t, 2);
    r := VerifyFormat2(ctx, codec, t);
  }

  /** The manifest, the sorted files, and whether these are the files the manifest names. */
  method CompareFiles(items: Items) returns (read: bool, files: seq<Bytes>, expected: Manifest, same: bool)
    requires WellFormed(items)
    ensures read <==> ManifestIn(items).Some? && Walkable(items)
    ensures read ==> expected == ManifestIn(items).value && MANIFEST_NAME !in expected
    ensures read ==> SortedBy(Less, files) && Distinct(files) && AllFiles(items, files) && Elems(files) == FilePaths(items)
    ensures read ==> (same <==> SameFiles(items, expected))
  {
    hide WellFormed, Walkable, Canonical, Control, ManifestIn, ValidRelative, FilePaths, AllFiles;
    files, expected, same := [], map[], false;
    var m := ReadManifest(items);
    if m.None? {
      return false, files, expected, same;
    }
    var listed := ListFiles(items);
    if listed.None? {
      return false, files, expected, same;
    }
    files, expected := listed.value, m.value;
    InListing(files, items);
    ManifestFacts(items);
    same := MatchingFileSet(files, expected);
    read := true;
  }

  /** `verifyOne` once the metadata has said format 2. */
  method VerifyFormat2(ctx: Context, codec: Codec, t: Tree) returns (r: Audited)
    requires WellFormed(t.items) && HasFormat(codec, t, 2) && ctx.Valid() && !ctx.cancelled
    modifies ctx
    ensures ctx.Valid()
    ensures r.Cancelled? <==> ctx.cancelled
    ensures r.Checked? ==> Reports(codec, t, r.v)
  {
    hide WellFormed, Walkable, SafeEntry, CheckpointIn, FirstMismatch, UpTo, Less, ManifestIn,
         SortedBy, Distinct, AllFiles, DigestsMatch, MetadataIn;
    var valid := ValidBackupRoot(codec, t.items);
    if !valid {
      var early := ctx.Err();
      if early {
        return Cancelled;
      }
    }
    var read, files, expected, same := CompareFiles(t.items);
    if !valid {
      var late := ctx.Err();
      return if late then Cancelled
             else Checked(Verification(false, 0, if read && !same then Mismatch else InvalidBackup));
    }
    var cancelled, match', count := HashAll(ctx, codec, t.items, files, expected);
    if cancelled {
      return Cancelled;
    }
    if match' {
      var late := ctx.Err();
      if late {
        return Cancelled;
      }
    }
    return Checked(Verification(match', count, if match' then Passed else Mismatch));
  }

  // ---------- what the audit establishes ----------

  /** The same files, and for all of them but the manifest the same digests. */
  ghost predicate SameContents(codec: Codec, a: Items, b: Items) {
    && FilePaths(a) == FilePaths(b)
    && forall f :: f in FilePaths(a) && f != MANIFEST_NAME ==> codec.sha(a[f].data) == codec.sha(b[f].data)
  }

  /** The map holds the digests of all these files but the manifest. */
  ghost predicate Describes(codec: Codec, m: Manifest, items: Items) {
    && MANIFEST_NAME in FilePaths(items) && m.Keys == FilePaths(items) - {MANIFEST_NAME}
    && forall f :: f in m ==> m[f] == codec.sha(items[f].data)
  }

  lemma DescribedSame(codec: Codec, m: Manifest, n: Manifest, a: Items, b: Items)
    requires Describes(codec, m, a) && Describes(codec, n, b)
    ensures m == n <==> SameContents(codec, a, b)
  {
    hide MANIFEST_NAME, FilePaths;
    if SameContents(codec, a, b) {
      assert m.Keys == n.Keys;
    }
    if m == n {
      assert FilePaths(a) == m.Keys + {MANIFEST_NAME} == FilePaths(b);
    }
  }

  /** The manifest does not count as one of the contents. */
  lemma OtherContents(codec: Codec, a: Items, b: Items)
    requires MANIFEST_NAME in FilePaths(a) && MANIFEST_NAME in FilePaths(b)
    requires SameContents(codec, a - {MANIFEST_NAME}, b - {MANIFEST_NAME})
    ensures SameContents(codec, a, b)
  {
    hide MANIFEST_NAME;
    assert FilePaths(a - {MANIFEST_NAME}) == FilePaths(a) - {MANIFEST_NAME};
    assert FilePaths(b - {MANIFEST_NAME}) == FilePaths(b) - {MANIFEST_NAME};
    assert FilePaths(a) == FilePaths(a - {MANIFEST_NAME}) + {MANIFEST_NAME};
    assert FilePaths(b) == FilePaths(b - {MANIFEST_NAME}) + {MANIFEST_NAME};
    forall f | f in FilePaths(a) && f != MANIFEST_NAME ensures codec.sha(a[f].data) == codec.sha(b[f].data) {
      assert (a - {MANIFEST_NAME})[f] == a[f] && (b - {MANIFEST_NAME})[f] == b[f];
    }
  }

  /** The manifest of an intact tree is the printing of the digests of its files. */
  lemma IntactManifest(codec: Codec, t: Tree)
    requires Intact(codec, t)
    ensures MANIFEST_NAME in FilePaths(t.items) && MANIFEST_NAME in t.items && t.items[MANIFEST_NAME].File?
    ensures ManifestIn(t.items) == Decode(t.items[MANIFEST_NAME].data) && ManifestIn(t.items).Some?
    ensures Print(ManifestIn(t.items).value) == t.items[MANIFEST_NAME].data
    ensures Describes(codec, ManifestIn(t.items).value, t.items)
  {
    ManifestFacts(t.items);
    hide Walkable, CheckpointIn, Decode, Print, Canonical;
  }

  /** Two intact trees have the same manifest exactly when they have the same contents. */
  lemma IntactDetermines(codec: Codec, a: Tree, b: Tree)
    requires Intact(codec, a) && Intact(codec, b)
    ensures MANIFEST_NAME in a.items && MANIFEST_NAME in b.items && a.items[MANIFEST_NAME].File? && b.items[MANIFEST_NAME].File?
    ensures a.items[MANIFEST_NAME].data == b.items[MANIFEST_NAME].data <==> SameContents(codec, a.items, b.items)
  {
    hide Intact, Print, Decode, Describes, SameContents, ManifestIn;
    IntactManifest(codec, a);
    IntactManifest(codec, b);
    DescribedSame(codec, ManifestIn(a.items).value, ManifestIn(b.items).value, a.items, b.items);
  }

  /** `items` with a manifest file written at the top. */
  function Sealed(items: Items, text: Bytes): Items {
    AddFile(items, MANIFEST_NAME, text)
  }

  /**
   * A valid format-2 tree that is a manifest-free tree plus the manifest generated from it
   * passes the audit.
   */
  lemma SealedIsIntact(codec: Codec, t: Tree, before: Items)
    requires MANIFEST_NAME !in before && Hashable(codec.sha, before)
    requires t.items == Sealed(before, Print(Digests(codec.sha, before)))
    requires ValidBackup(codec, t) && MetadataIn(codec, t.items).value.format == 2
    ensures Intact(codec, t)
  {
    HashableWalks(codec.sha, before);
    hide Walkable, Print, Hashable, AllOk, ListableName, FilePaths, Digests, Sealed, DigestsMatch, Canonical, GoodMetadata;
    var m := Digests(codec.sha, before);
    ValidStructure(codec, t);
    ManifestFacts(t.items);
    DigestNames(codec.sha, before);
    CanonicalNames(ManifestIn(t.items).value);
    SealedText(before, Print(m));
    PrintInjective(m, ManifestIn(t.items).value);
    DigestsSurvive(codec, before, Print(m));
  }

  lemma ValidStructure(codec: Codec, t: Tree)
    requires ValidBackup(codec, t) && MetadataIn(codec, t.items).value.format == 2
    ensures ManifestIn(t.items).Some?
  {
    hide Walkable, CheckpointIn, Decode;
  }

  lemma SealedText(before: Items, text: Bytes)
    ensures MANIFEST_NAME in Sealed(before, text) && Sealed(before, text)[MANIFEST_NAME].data == text
  {
  }

  lemma DigestsSurvive(codec: Codec, before: Items, text: Bytes)
    requires MANIFEST_NAME !in before
    ensures DigestsMatch(codec, Sealed(before, text), Digests(codec.sha, before))
  {
  }

  lemma CanonicalNames(m: Manifest)
    requires Canonical(m)
    ensures forall n :: n in m ==> ListableName(n)
  {
  }

  lemma {:induction false} SplitPlain(s: Bytes)
    requires SLASH !in s
    ensures Split(s) == [s]
  {
    if s != [] {
      SplitPlain(s[1..]);
      assert [s[0]] + s[1..] == s;
    }
  }

  lemma {:induction false} AsciiIsUtf8(s: Bytes)
    requires forall i :: 0 <= i < |s| ==> s[i] < 0x80
    ensures ValidUtf8(s)
  {
    if s != [] {
      AsciiIsUtf8(s[1..]);
    }
  }

  /** Printing ASCII without slashes. */
  predicate Plain(n: Bytes) {
    |n| > 2 && forall i :: 0 <= i < |n| ==> 32 <= n[i] < 127 && n[i] != SLASH && n[i] != BACKSLASH
  }

  lemma PlainNameIsValid(n: Bytes)
    requires Plain(n)
    ensures ValidRelative(n)
  {
    SplitPlain(n);
    assert ProperPart(n);
    AsciiIsUtf8(n);
    hide Split, ValidUtf8;
  }

  lemma ManifestIsValid()
    ensures ValidRelative(MANIFEST_NAME)
  {
    PlainNameIsValid(MANIFEST_NAME);
  }

  lemma AddedEntries(items: Items, n: Bytes, file: Item)
    requires n !in items && AllOk(items, items.Keys) && file.File? && SafeItem(file) && ValidRelative(n)
    ensures AllOk(items[n := file], items.Keys + {n})
  {
  }

  lemma SealedWalkable(items: Items, text: Bytes)
    requires MANIFEST_NAME !in items && Walkable(items)
    ensures Walkable(Sealed(items, text)) <==> |items| <= MAX_ENTRIES
    ensures FilePaths(Sealed(items, text)) == FilePaths(items) + {MANIFEST_NAME}
  {
    ManifestIsValid();
    hide ValidRelative;
    AddedEntries(items, MANIFEST_NAME, File(text, PRIVATE));
    OneMoreKey(items, MANIFEST_NAME, File(text, PRIVATE));
    hide AllOk, MANIFEST_NAME, FilePaths;
    SealedFiles(items, text);
  }

  lemma SealedFiles(items: Items, text: Bytes)
    ensures FilePaths(Sealed(items, text)) == FilePaths(items) + {MANIFEST_NAME}
  {
  }

  /**
   * A tree with good controls, sealed with its generated manifest, passes the audit exactly
   * when the walk still has room for the manifest itself.
   */
  lemma SealingPassesAudit(codec: Codec, top: Item, before: Items)
    requires SafeEntry(top, true) && MANIFEST_NAME !in before && Hashable(codec.sha, before)
    requires CheckpointIn(codec, before) && MetadataIn(codec, before).Some?
    requires GoodMetadata(MetadataIn(codec, before).value) && MetadataIn(codec, before).value.format == 2
    ensures Intact(codec, Tree(top, Sealed(before, Print(Digests(codec.sha, before))))) <==> |before| <= MAX_ENTRIES
  {
    hide Walkable, Decode, Print, Digests, FilePaths, FilesAmong, Hashable, Sealed, MetadataIn, CheckpointIn;
    var text := Print(Digests(codec.sha, before));
    var after := Sealed(before, text);
    assert Walkable(before) by { HashableWalks(codec.sha, before); }
    SealedWalkable(before, text);
    SealedControls(codec, before, text);
    if |before| <= MAX_ENTRIES {
      SealedStructure(codec.sha, before);
      SealedIsIntact(codec, Tree(top, after), before);
    }
  }

  lemma HashableWalks(sha: Bytes -> Digest, items: Items)
    requires Hashable(sha, items)
    ensures Walkable(items) && AllOk(items, items.Keys) && MANIFEST_NAME !in FilePaths(items)
  {
  }

  lemma SealedStructure(sha: Bytes -> Digest, before: Items)
    requires MANIFEST_NAME !in before && Hashable(sha, before) && |before| <= MAX_ENTRIES
    ensures Structural(Sealed(before, Print(Digests(sha, before))))
  {
    var text := Print(Digests(sha, before));
    SealedWalkable(before, text);
    DigestKeys(sha, before);
    FewFiles(before);
    hide Walkable, Decode, Print, Digests, FilePaths, FilesAmong;
    RoundTrip(sha, before);
    assert ManifestIn(Sealed(before, text)) == Some(Digests(sha, before));
  }

  lemma FewFiles(items: Items)
    ensures |FilePaths(items)| <= |items|
  {
    SubsetSize(FilePaths(items), items.Keys);
    assert |items| == |items.Keys|;
  }

  lemma SealedControls(codec: Codec, items: Items, text: Bytes)
    ensures CheckpointIn(codec, Sealed(items, text)) == CheckpointIn(codec, items)
    ensures MetadataIn(codec, Sealed(items, text)) == MetadataIn(codec, items)
  {
  }

  /**
   * An intact backup no longer passes after a change that leaves the manifest as it is and
   * adds a file, removes one or gives one another digest, whatever else about its directory
   * changes; nor after one that alters or removes the manifest and changes no other file.
   */
  lemma TamperingFails(codec: Codec, t: Tree, now: Items, top: Item)
    requires Intact(codec, t)
    requires
      if MANIFEST_NAME in FilePaths(now) && now[MANIFEST_NAME].data == t.items[MANIFEST_NAME].data
      then !SameContents(codec, t.items, now)
      else SameContents(codec, t.items - {MANIFEST_NAME}, now - {MANIFEST_NAME})
    ensures !Intact(codec, Tree(top, now))
  {
    if Intact(codec, Tree(top, now)) {
      IntactDetermines(codec, t, Tree(top, now));
      IntactManifest(codec, t);
      IntactManifest(codec, Tree(top, now));
      if now[MANIFEST_NAME].data != t.items[MANIFEST_NAME].data {
        OtherContents(codec, t.items, now);
      }
    }
  }
}
