/** The limits of the walk and of the parser differ by one entry: a tree that falls between them. */
module Limits {
  import opened Audit
  import opened Bytes
  import opened Manifests
  import opened Paths
  import opened Sorting
  import opened Staging
  import opened Trees
  import opened Walk

  /** How many names of `k` characters there are. */
  function Range(k: nat): nat {
    if k == 0 then 1 else 40 * Range(k - 1)
  }

  /** The name of `k` characters from `0` to `W` that stands for `i` to the base 40. */
  function Numeral(i: nat, k: nat): (n: Bytes)
    requires i < Range(k)
    ensures |n| == k && forall j :: 0 <= j < k ==> 48 <= n[j] < 88
  {
    if k == 0 then [] else Numeral(i / 40, k - 1) + [(48 + i % 40) as byte]
  }

  lemma {:induction false} NumeralsDiffer(i: nat, j: nat, k: nat)
    requires i < Range(k) && j < Range(k) && Numeral(i, k) == Numeral(j, k)
    ensures i == j
  {
    if k > 0 {
      var a, b := Numeral(i / 40, k - 1), Numeral(j / 40, k - 1);
      assert a == Numeral(i, k)[..k - 1] && b == Numeral(j, k)[..k - 1];
      assert Numeral(i, k)[k - 1] == Numeral(j, k)[k - 1];
      NumeralsDiffer(i / 40, j / 40, k - 1);
    }
  }

  const LENGTH: nat := 4

  lemma EnoughNames()
    ensures Range(LENGTH) == 2560000
  {
  }

  function NumberedNames(k: nat): set<Bytes>
    requires k <= Range(LENGTH)
  {
    set i | 0 <= i < k :: Numeral(i, LENGTH)
  }

  lemma {:induction false} CountNames(k: nat)
    requires k <= Range(LENGTH)
    ensures |NumberedNames(k)| == k
  {
    hide Range, Numeral;
    if k > 0 {
      CountNames(k - 1);
      assert NumberedNames(k) == NumberedNames(k - 1) + {Numeral(k - 1, LENGTH)};
      forall i | 0 <= i < k - 1 ensures Numeral(i, LENGTH) != Numeral(k - 1, LENGTH) {
        if Numeral(i, LENGTH) == Numeral(k - 1, LENGTH) {
          NumeralsDiffer(i, k - 1, LENGTH);
        }
      }
    }
  }

  const PLAIN_FILE: Item := File([], PRIVATE)

  /** That many empty files. */
  function NumberedFiles(k: nat): Items
    requires k <= Range(LENGTH)
  {
    map n | n in NumberedNames(k) :: PLAIN_FILE
  }

  /** The files of a prepared stage: the two controls, and enough others for one entry too many. */
  function CrowdedStage(metadata: Bytes, checkpoint: Bytes): Items {
    EnoughNames();
    AddFile(AddFile(NumberedFiles(MAX_ENTRIES - 1), METADATA_NAME, metadata), CHECKPOINTS_NAME, checkpoint)
  }

  lemma {:induction false} RenderSize(es: seq<Entry>, longest: nat)
    requires forall i :: 0 <= i < |es| ==> |es[i].name| <= longest
    ensures |Render(es)| <= (67 + longest) * |es|
  {
    if es != [] {
      RenderSize(es[1..], longest);
    }
  }

  lemma PrintSize(m: Manifest, longest: nat)
    requires forall n :: n in m ==> |n| <= longest
    ensures |Print(m)| <= (67 + longest) * |m|
  {
    hide Less, EntriesOf;
    var es := EntriesOf(m);
    EntriesOfOrdered(m);
    forall i | 0 <= i < |es| ensures |es[i].name| <= longest {
      assert Names(es)[i] in Elems(Names(es));
    }
    RenderSize(es, longest);
  }

  lemma ControlNames()
    ensures Plain(METADATA_NAME) && |METADATA_NAME| == 13 && Plain(CHECKPOINTS_NAME) && |CHECKPOINTS_NAME| == 22
    ensures MANIFEST_NAME != METADATA_NAME && MANIFEST_NAME != CHECKPOINTS_NAME && METADATA_NAME != CHECKPOINTS_NAME
    ensures |MANIFEST_NAME| == 10
  {
  }

  lemma NumberedFacts(k: nat)
    requires k <= Range(LENGTH)
    ensures NumberedFiles(k).Keys == NumberedNames(k) && |NumberedFiles(k)| == k
    ensures forall n :: n in NumberedFiles(k) ==> Plain(n) && |n| == LENGTH && NumberedFiles(k)[n] == PLAIN_FILE
  {
    hide Range;
    CountNames(k);
    assert NumberedFiles(k).Keys == NumberedNames(k);
  }

  /** The two controls have the data given, and the number of entries is one too many. */
  lemma CrowdedSize(metadata: Bytes, checkpoint: Bytes)
    ensures |CrowdedStage(metadata, checkpoint)| == MAX_ENTRIES + 1
    ensures Control(CrowdedStage(metadata, checkpoint), METADATA_NAME, |metadata|) == Some(metadata)
    ensures Control(CrowdedStage(metadata, checkpoint), CHECKPOINTS_NAME, |checkpoint|) == Some(checkpoint)
  {
    ControlNames();
    EnoughNames();
    NumberedFacts(MAX_ENTRIES - 1);
    hide METADATA_NAME, CHECKPOINTS_NAME, NumberedFiles, Range, Plain;
    var files := NumberedFiles(MAX_ENTRIES - 1);
    var file := File(metadata, PRIVATE);
    OneMoreKey(files, METADATA_NAME, file);
    OneMoreKey(files[METADATA_NAME := file], CHECKPOINTS_NAME, File(checkpoint, PRIVATE));
  }

  lemma CrowdedEntries(metadata: Bytes, checkpoint: Bytes)
    ensures var items := CrowdedStage(metadata, checkpoint);
            forall n :: n in items ==> Plain(n) && |n| <= 22 && n != MANIFEST_NAME && items[n].File? && SafeItem(items[n])
  {
    ControlNames();
    EnoughNames();
    NumberedFacts(MAX_ENTRIES - 1);
    hide METADATA_NAME, CHECKPOINTS_NAME, MANIFEST_NAME, NumberedFiles, Range, Plain;
  }

  /** Its manifest can be generated, and has more lines than the parser admits. */
  lemma CrowdedIsHashable(sha: Bytes -> Digest, metadata: Bytes, checkpoint: Bytes)
    ensures var items := CrowdedStage(metadata, checkpoint);
            Hashable(sha, items) && |FilePaths(items)| == |items| && MANIFEST_NAME !in items
  {
    var items := CrowdedStage(metadata, checkpoint);
    CrowdedSize(metadata, checkpoint);
    CrowdedEntries(metadata, checkpoint);
    hide MANIFEST_NAME, CrowdedStage, Print, ValidRelative, Plain, METADATA_NAME, CHECKPOINTS_NAME;
    forall n | n in items ensures EntryOk(items, n) {
      PlainNameIsValid(n);
    }
    assert FilePaths(items) == items.Keys;
    DigestKeys(sha, items);
    PrintSize(Digests(sha, items), 22);
  }

  lemma CrowdedControls(codec: Codec, metadata: Bytes, checkpoint: Bytes)
    requires |metadata| <= MAX_CONTROL && |checkpoint| <= MAX_CONTROL
    ensures MetadataIn(codec, CrowdedStage(metadata, checkpoint)) == codec.decode(metadata)
    ensures CheckpointIn(codec, CrowdedStage(metadata, checkpoint)) <==> codec.fullPrepared(checkpoint)
  {
  }

  /** Any tree of so many files cannot be sealed. */
  lemma TooManyFiles(codec: Codec, t: Tree)
    requires Hashable(codec.sha, t.items) && |FilePaths(t.items)| == |t.items| == MAX_ENTRIES + 1
    requires MANIFEST_NAME !in t.items
    ensures Decode(Print(Digests(codec.sha, t.items))) == None
    ensures !Walkable(Sealed(t.items, Print(Digests(codec.sha, t.items)))) && !Sealable(codec, t)
  {
    hide MANIFEST_NAME, Print, AllOk, Decode, FilePaths, Digests, CheckpointIn, Structural, Walkable;
    HashableWalks(codec.sha, t.items);
    RoundTrip(codec.sha, t.items);
    SealedWalkable(t.items, Print(Digests(codec.sha, t.items)));
    var text := Print(Digests(codec.sha, t.items));
    assert WithFile(t, MANIFEST_NAME, text).items == Sealed(t.items, text);
  }

  /**
   * A safe, prepared stage of 100001 files. Its manifest is generated, but it does not parse;
   * with it the stage is one entry too large for the walk, so it is never promoted.
   */
  lemma CrowdedIsNeverPromoted(codec: Codec, top: Item, metadata: Bytes, checkpoint: Bytes)
    requires SafeEntry(top, true) && |metadata| <= MAX_CONTROL && |checkpoint| <= MAX_CONTROL
    ensures var items := CrowdedStage(metadata, checkpoint);
            var text := Print(Digests(codec.sha, items));
            && SafeTree(Tree(top, items))
            && MetadataIn(codec, items) == codec.decode(metadata)
            && (CheckpointIn(codec, items) <==> codec.fullPrepared(checkpoint))
            && Hashable(codec.sha, items) && |FilePaths(items)| == MAX_ENTRIES + 1
            && Decode(text) == None && !Walkable(Sealed(items, text))
            && !Sealable(codec, Tree(top, items))
  {
    var items := CrowdedStage(metadata, checkpoint);
    CrowdedSize(metadata, checkpoint);
    CrowdedEntries(metadata, checkpoint);
    CrowdedIsHashable(codec.sha, metadata, checkpoint);
    CrowdedControls(codec, metadata, checkpoint);
    hide MANIFEST_NAME, CrowdedStage, Print, Plain, Walkable, Decode, FilePaths, Digests, Hashable, Sealable,
         MetadataIn, CheckpointIn, Control, Sealed;
    TooManyFiles(codec, Tree(top, items));
  }
}
