/** The first half of `backup`: filling a stage, sealing it and promoting it. */
module Staging {
  import opened Audit
  import opened Bytes
  import opened Disks
  import opened Inventories
  import opened Manifests
  import opened Paths
  import opened Retention
  import opened RootOps
  import opened Sorting
  import opened Trees
  import opened Volumes
  import opened Walk
  import Containment

  // ---------- the stage on the disk ----------

  /** Wherever the stage `n` may survive it is the tree `i`, which nothing else refers to. */
  ghost predicate Holds(d: Disk, sealed: map<Ino, Tree>, n: Name, i: Ino) {
    && n.InProgress? && n in d.root && d.root[n] == i && i !in sealed && i < d.next
    && i in d.trees && i in d.unsynced && Sound(d.trees[i])
    && d.unsynced[i] <= d.trees[i].items.Keys + {[]}
    && (forall r :: r in d.possible && n in r ==> r[n] == i)
    && Free(d, i)
  }

  /** From `d` to `e` only the contents of tree `i` have changed. */
  ghost predicate OnlyTree(d: Disk, e: Disk, i: Ino) {
    i in e.trees && i in e.unsynced && e == SetTree(d, i, e.trees[i], e.unsynced[i])
  }

  lemma OnlyTreeSelf(d: Disk, i: Ino)
    requires i in d.trees && i in d.unsynced
    ensures OnlyTree(d, d, i)
  {
  }

  lemma OnlyTreeTransitive(d: Disk, e: Disk, f: Disk, i: Ino)
    requires OnlyTree(d, e, i) && OnlyTree(e, f, i)
    ensures OnlyTree(d, f, i)
  {
  }

  lemma StillHolds(d: Disk, e: Disk, sealed: map<Ino, Tree>, n: Name, i: Ino)
    requires Holds(d, sealed, n, i) && OnlyTree(d, e, i) && Sound(e.trees[i])
    requires e.unsynced[i] <= e.trees[i].items.Keys + {[]}
    ensures Holds(e, sealed, n, i)
  {
  }

  /** No possible directory remembers a name with this id that is not there any more. */
  predicate Unused(d: Disk, n: Name) {
    forall r :: r in d.possible && n in r ==> n in d.root
  }

  /** There are more ids than the possible directories can have used. */
  lemma {:induction false} LongerThan(names: set<Name>) returns (k: nat)
    ensures forall n :: n in names && n.InProgress? ==> |n.id| < k
  {
    k := 0;
    if names != {} {
      var n :| n in names;
      k := LongerThan(names - {n});
      if n.InProgress? && |n.id| >= k {
        k := |n.id| + 1;
      }
    }
  }

  lemma SomeUnused(d: Disk)
    ensures exists id :: Unused(d, InProgress(id))
  {
    var k := LongerThan(set r, n | r in d.possible && n in r :: n);
    var id: Bytes := seq(k, _ => 48);
    assert Unused(d, InProgress(id));
  }

  lemma CreatedHolds(d: Disk, sealed: map<Ino, Tree>, n: Name)
    requires Safe(d, sealed) && n.InProgress? && n !in d.root && Unused(d, n)
    requires forall i :: i in sealed ==> i < d.next
    ensures Holds(Created(d, n), sealed, n, d.next)
  {
    EmptyIsSound();
    hide Sound;
    AllocatedSafe(d, sealed);
    var a, e := Allocated(d), Created(d, n);
    forall r | r in e.possible ensures n in r ==> r[n] == d.next {
      PossibleAfter(a, Link(n, d.next), r);
    }
    forall r, m | r in e.possible && m in r && m.Backup? ensures r[m] != d.next {
      PossibleAfter(a, Link(n, d.next), r);
    }
  }

  // ---------- what the events say ----------

  /** The metadata has been written: from here on the stage is never discarded. */
  predicate Prepares(e: Event) {
    e.FileWritten? && e.name == METADATA_NAME && e.ok
  }

  /** A child may still be at work in the stage. */
  predicate LeavesUncertain(e: Event) {
    e.PhaseEnded? && e.result == Containment.Uncertain
  }

  predicate WritesManifest(e: Event, i: Ino) {
    e.FileWritten? && e.ino == i && e.name == MANIFEST_NAME
  }

  /** The tree the last event left, or `before` if nothing has happened. */
  function TreeLeft(news: seq<Event>, before: Tree): Tree {
    if news == [] then before else news[|news| - 1].tree
  }

  // ---------- the child's work ----------

  /** A phase of xtrabackup: but for the first it may leave anything in the stage, and it may end in any way. */
  method RunPhase(v: Volume, n: Name, i: Ino, phase: Phase) returns (result: Containment.Outcome, printed: Bytes)
    requires v.Valid() && Holds(v.disk, v.sealed, n, i)
    modifies v`disk, v`history, v`faults, v`events
    ensures v.Valid() && v.Extends() && v.sealed == old(v.sealed)
    ensures Holds(v.disk, v.sealed, n, i) && OnlyTree(old(v.disk), v.disk, i)
    ensures phase == VersionPhase ==> v.disk == old(v.disk)
    ensures v.News() == [PhaseEnded(i, phase, result, printed, v.disk.trees[i])]
  {
    hide Volume.Valid, Sound, Free;
    OnlyTreeSelf(v.disk, i);
    var t: Tree := *;
    if phase != VersionPhase && Sound(t) {
      v.ChangeTree(i, t, PathsOf(t));
    }
    StillHolds(old(v.disk), v.disk, v.sealed, n, i);
    result, printed := *, *;
    v.Record(PhaseEnded(i, phase, result, printed, v.disk.trees[i]));
  }

  /** A version is one line of text. */
  predicate ValidVersion(printed: Bytes) {
    printed != [] && 0 !in printed && 13 !in printed && 10 !in printed
  }

  /** The version as the metadata has it. */
  function Version(printed: Bytes): Bytes {
    if |printed| > 1024 then printed[..1024] else printed
  }

  lemma VersionExactly(printed: Bytes)
    ensures Version(printed) <= printed && |Version(printed)| == if |printed| <= 1024 then |printed| else 1024
  {
  }

  /** The first `k` events are the phases in their order, and all have succeeded. */
  predicate Succeeded(news: seq<Event>, k: nat) {
    && k <= |news| && k <= 3
    && (forall j :: 0 <= j < k ==> news[j].PhaseEnded? && news[j].result == Containment.NoError)
    && (k >= 1 ==> news[0].phase == VersionPhase) && (k >= 2 ==> news[1].phase == BackupPhase)
    && (k >= 3 ==> news[2].phase == PreparePhase)
    && (k >= 2 ==> ValidVersion(news[0].printed))
  }

  /** The child has not done its part: a phase has failed, or printed no valid version. */
  predicate PhaseFailed(news: seq<Event>) {
    || (1 <= |news| <= 3 && Succeeded(news, |news| - 1) && news[|news| - 1].PhaseEnded?
        && news[|news| - 1].result != Containment.NoError)
    || (|news| == 1 && Succeeded(news, 1) && !ValidVersion(news[0].printed))
  }

  /**
   * Either all three phases have succeeded, or the last one that ran has failed; `tree` is
   * what the last one has left.
   */
  ghost predicate PhasesRan(news: seq<Event>, i: Ino, result: Containment.Outcome, printed: Bytes, tree: Tree) {
    && 1 <= |news| <= 3 && (forall e :: e in news ==> e.PhaseEnded? && e.ino == i)
    && news[|news| - 1].tree == tree && news[0].printed == printed
    && (forall k :: 0 <= k < |news| - 1 ==> news[k].result == Containment.NoError)
    && (if result == Containment.NoError then |news| == 3 && Succeeded(news, 3) else PhaseFailed(news))
    && (result == Containment.Uncertain <==> news[|news| - 1].result == Containment.Uncertain)
  }

  /** The version, backup and prepare phases. */
  method RunPhases(v: Volume, n: Name, i: Ino) returns (result: Containment.Outcome, printed: Bytes)
    requires v.Valid() && Holds(v.disk, v.sealed, n, i)
    modifies v`disk, v`history, v`faults, v`events
    ensures v.Valid() && v.Extends() && v.sealed == old(v.sealed)
    ensures Holds(v.disk, v.sealed, n, i) && OnlyTree(old(v.disk), v.disk, i)
    ensures PhasesRan(v.News(), i, result, printed, v.disk.trees[i])
  {
    hide Volume.Valid, Holds, OnlyTree, ValidVersion, PhasesRan;
    ghost var e0 := v.events;
    result, printed := RunPhase(v, n, i, VersionPhase);
    HoldsTree(v.disk, v.sealed, n, i);
    ghost var first := PhaseEnded(i, VersionPhase, result, printed, v.disk.trees[i]);
    assert v.events == e0 + [first];
    if result == Containment.NoError && !ValidVersion(printed) {
      result := Containment.ChildFailed;
    }
    if result != Containment.NoError {
      OneRan(first, i, result);
      return;
    }
    var output;
    ghost var d1 := v.disk;
    result, output := RunPhase(v, n, i, BackupPhase);
    HoldsTree(v.disk, v.sealed, n, i);
    ghost var second := PhaseEnded(i, BackupPhase, result, output, v.disk.trees[i]);
    assert v.events == e0 + [first, second];
    if result != Containment.NoError {
      TwoRan(first, second, i);
      return;
    }
    ghost var d2 := v.disk;
    result, output := RunPhase(v, n, i, PreparePhase);
    HoldsTree(v.disk, v.sealed, n, i);
    ghost var third := PhaseEnded(i, PreparePhase, result, output, v.disk.trees[i]);
    assert v.events == e0 + [first, second] + [third] == e0 + [first, second, third];
    OnlyTreeTransitive(d1, d2, v.disk, i);
    ThreeRan(first, second, third, i);
  }

  lemma OneRan(a: Event, i: Ino, result: Containment.Outcome)
    requires a.PhaseEnded? && a.ino == i && a.phase == VersionPhase && result != Containment.NoError
    requires result == a.result
             || (a.result == Containment.NoError && !ValidVersion(a.printed) && result == Containment.ChildFailed)
    ensures PhasesRan([a], i, result, a.printed, a.tree)
  {
    hide ValidVersion;
  }

  lemma TwoRan(a: Event, b: Event, i: Ino)
    requires a.PhaseEnded? && a.ino == i && a.phase == VersionPhase
    requires a.result == Containment.NoError && ValidVersion(a.printed)
    requires b.PhaseEnded? && b.ino == i && b.phase == BackupPhase && b.result != Containment.NoError
    ensures PhasesRan([a, b], i, b.result, a.printed, b.tree)
  {
    hide ValidVersion;
  }

  lemma ThreeRan(a: Event, b: Event, c: Event, i: Ino)
    requires a.PhaseEnded? && a.ino == i && a.phase == VersionPhase
    requires a.result == Containment.NoError && ValidVersion(a.printed)
    requires b.PhaseEnded? && b.ino == i && b.phase == BackupPhase && b.result == Containment.NoError
    requires c.PhaseEnded? && c.ino == i && c.phase == PreparePhase
    ensures PhasesRan([a, b, c], i, c.result, a.printed, c.tree)
  {
    hide ValidVersion;
  }

  // ---------- control files ----------

  /** `t` with a file written at the top. */
  function WithFile(t: Tree, name: Bytes, data: Bytes): Tree {
    t.(items := AddFile(t.items, name, data))
  }

  predicate TopName(name: Bytes) {
    name != [] && forall j :: 0 <= j < |name| ==> name[j] != 47
  }

  lemma WithFileSound(t: Tree, name: Bytes, data: Bytes)
    requires Sound(t) && t.top.Dir? && TopName(name) && name !in t.items
    ensures Sound(WithFile(t, name, data))
  {
  }

  lemma {:induction false} TopParent(name: Bytes)
    requires forall j :: 0 <= j < |name| ==> name[j] != 47
    ensures ParentPath(name) == []
  {
    if name != [] {
      TopParent(name[..|name| - 1]);
    }
  }

  lemma FileTouches(t: Tree, name: Bytes, data: Bytes)
    requires TopName(name) && name !in t.items
    ensures Touched(t, WithFile(t, name, data)) <= {[], name}
  {
    TopParent(name);
  }

  /**
   * `writeExclusive`: fails if the name is taken. A write that fails after the file was
   * created leaves it with anything in it.
   */
  method WriteExclusive(v: Volume, n: Name, i: Ino, name: Bytes, data: Bytes) returns (ok: bool)
    requires v.Valid() && Holds(v.disk, v.sealed, n, i) && TopName(name)
    modifies v`disk, v`history, v`faults, v`events
    ensures v.Valid() && v.Extends() && v.sealed == old(v.sealed)
    ensures Holds(v.disk, v.sealed, n, i) && OnlyTree(old(v.disk), v.disk, i)
    ensures v.News() == [FileWritten(i, name, ok, v.disk.trees[i])]
    ensures ok ==> name !in old(v.disk.trees)[i].items && v.disk.trees[i] == WithFile(old(v.disk.trees)[i], name, data)
    ensures v.disk.trees[i] == old(v.disk.trees)[i]
            || (name !in old(v.disk.trees)[i].items
                && exists partial :: v.disk.trees[i] == WithFile(old(v.disk.trees)[i], name, partial))
    ensures !ok ==> v.faults > old(v.faults) || name in old(v.disk.trees)[i].items || !old(v.disk.trees)[i].top.Dir?
  {
    hide Volume.Valid, Sound, Free, Touched, TopName;
    OnlyTreeSelf(v.disk, i);
    var t := v.disk.trees[i];
    var created := v.Attempt();
    if !created || name in t.items || !t.top.Dir? {
      v.Record(FileWritten(i, name, false, t));
      return false;
    }
    var partial: Bytes := *;
    ok := v.Attempt();
    var written := if ok then data else partial;
    WithFileSound(t, name, written);
    FileTouches(t, name, written);
    v.ChangeTree(i, WithFile(t, name, written), v.disk.unsynced[i] + {[], name});
    StillHolds(old(v.disk), v.disk, v.sealed, n, i);
    v.Record(FileWritten(i, name, ok, v.disk.trees[i]));
  }

  // ---------- preparing ----------

  datatype Preparation = Ready | NotReady | ContainmentUncertain

  /** Metadata that the engine has written and can read back says the format it was given. */
  ghost predicate WritesFormat2(codec: Codec) {
    forall m :: codec.decode(codec.encode(m)).Some? ==> codec.decode(codec.encode(m)).value.format == m.format
  }

  /** The tree carries metadata the engine has written. */
  ghost predicate HasMetadata(codec: Codec, t: Tree) {
    && METADATA_NAME in t.items && t.items[METADATA_NAME].File?
    && exists m: Metadata :: m.format == FORMAT_VERSION && t.items[METADATA_NAME].data == codec.encode(m)
  }

  /** How the result of `Prepare` is the one its events call for. */
  ghost predicate PreparationTold(news: seq<Event>, i: Ino, r: Preparation, before: Tree, after: Tree) {
    && (forall e :: e in news ==> e.ino == i)
    && after == TreeLeft(news, before)
    && (r == Ready <==> exists e :: e in news && Prepares(e))
    && (r == ContainmentUncertain <==> exists e :: e in news && LeavesUncertain(e))
    && (forall e :: e in news && (Prepares(e) || LeavesUncertain(e)) ==> e.tree == after)
  }

  lemma NothingTold(i: Ino, t: Tree)
    ensures PreparationTold([], i, NotReady, t, t)
  {
  }

  lemma PhasesTold(news: seq<Event>, i: Ino, result: Containment.Outcome, printed: Bytes, before: Tree, after: Tree)
    requires PhasesRan(news, i, result, printed, after)
    ensures PreparationTold(news, i, if result == Containment.Uncertain then ContainmentUncertain else NotReady,
                            before, after)
    ensures forall e :: e in news ==> e.PhaseEnded? && e.ino == i
    ensures result != Containment.Uncertain ==> forall e :: e in news ==> !LeavesUncertain(e)
    ensures result == Containment.NoError ==>
              Succeeded(news, 3) && |news| == 3 && news[2].tree == after && news[0].printed == printed
    ensures result != Containment.NoError ==> PhaseFailed(news)
  {
    var last := news[|news| - 1];
    assert last in news;
    forall e | e in news && LeavesUncertain(e) ensures e == last {
    }
  }

  lemma MetadataTold(phases: seq<Event>, i: Ino, ok: bool, before: Tree, after: Tree)
    requires forall e :: e in phases ==> e.PhaseEnded? && e.ino == i && !LeavesUncertain(e)
    ensures PreparationTold(phases + [FileWritten(i, METADATA_NAME, ok, after)], i, if ok then Ready else NotReady,
                            before, after)
  {
    hide METADATA_NAME;
    var last := FileWritten(i, METADATA_NAME, ok, after);
    var news := phases + [last];
    assert news[|news| - 1] == last && last in news;
  }

  /** All three phases have succeeded and left a tree that the metadata can be written to. */
  ghost predicate ChildDone(codec: Codec, news: seq<Event>) {
    Succeeded(news, 3) && Preparable(codec, news[2].tree)
  }

  /** It is the child's doing that the stage is not prepared. */
  ghost predicate ChildAtFault(codec: Codec, news: seq<Event>) {
    PhaseFailed(news) || (Succeeded(news, 3) && !Preparable(codec, news[2].tree))
  }

  function Written(printed: Bytes, created: int, prepared: int): Metadata {
    Metadata(2, Version(printed), Some(created), Some(prepared))
  }

  /** The tree is the one the child has left, with metadata that has its version and two times. */
  ghost predicate PreparedBy(codec: Codec, news: seq<Event>, tree: Tree) {
    && ChildDone(codec, news)
    && exists created, prepared ::
         tree == WithFile(news[2].tree, METADATA_NAME, codec.encode(Written(news[0].printed, created, prepared)))
  }

  ghost predicate Preparable(codec: Codec, t: Tree) {
    SafeTree(t) && t.top.Dir? && CheckpointIn(codec, t.items) && METADATA_NAME !in t.items
  }

  /** The tests on what the child has left. */
  method CheckPrepared(v: Volume, codec: Codec, t: Tree) returns (ok: bool)
    requires v.Valid()
    modifies v`faults
    ensures v.Valid() && v.Extends()
    ensures ok ==> SafeTree(t) && CheckpointIn(codec, t.items)
    ensures !ok ==> v.faults > old(v.faults) || !SafeTree(t) || !CheckpointIn(codec, t.items)
  {
    hide Volume.Valid, SafeTree, CHECKPOINTS_NAME;
    var readable := v.Attempt();
    var checkpoint := Control(t.items, CHECKPOINTS_NAME, MAX_CONTROL);
    return readable && SafeTree(t) && checkpoint.Some? && codec.fullPrepared(checkpoint.value);
  }

  /** Everything up to the metadata. */
  method Prepare(v: Volume, codec: Codec, n: Name, i: Ino) returns (r: Preparation)
    requires v.Valid() && Holds(v.disk, v.sealed, n, i)
    modifies v`disk, v`history, v`faults, v`events
    ensures v.Valid() && v.Extends() && v.sealed == old(v.sealed)
    ensures Holds(v.disk, v.sealed, n, i) && OnlyTree(old(v.disk), v.disk, i)
    ensures PreparationTold(v.News(), i, r, old(v.disk.trees)[i], v.disk.trees[i])
    ensures r == Ready ==> PreparedBy(codec, v.News(), v.disk.trees[i])
    ensures r != Ready ==> v.faults > old(v.faults) || ChildAtFault(codec, v.News())
  {
    hide Volume.Valid, Holds, OnlyTree, Sound, PreparationTold, PhasesRan, LeavesUncertain, SafeTree, CheckpointIn,
         Succeeded, PhaseFailed, Preparable;
    ghost var d0 := v.disk;
    HoldsTree(d0, v.sealed, n, i);
    OnlyTreeSelf(d0, i);
    var logOpened := v.Attempt();
    if !logOpened {
      NothingTold(i, d0.trees[i]);
      assert v.News() == [];
      return NotReady;
    }
    var result, printed := RunPhases(v, n, i);
    HoldsTree(v.disk, v.sealed, n, i);
    PhasesTold(v.News(), i, result, printed, d0.trees[i], v.disk.trees[i]);
    if result != Containment.NoError {
      return if result == Containment.Uncertain then ContainmentUncertain else NotReady;
    }
    ghost var phases, d1 := v.News(), v.disk;
    label Written:
    r := WriteMetadata(v, codec, n, i, printed);
    OnlyTreeTransitive(d0, d1, v.disk, i);
    WithMetadata(codec, phases, v.News@Written(), i, r, d0.trees[i], v.disk.trees[i], printed);
    assert v.News() == phases + v.News@Written();
  }

  /** The tests on what the child has left, and the metadata. */
  method WriteMetadata(v: Volume, codec: Codec, n: Name, i: Ino, printed: Bytes) returns (r: Preparation)
    requires v.Valid() && Holds(v.disk, v.sealed, n, i)
    modifies v`disk, v`history, v`faults, v`events
    ensures v.Valid() && v.Extends() && v.sealed == old(v.sealed)
    ensures Holds(v.disk, v.sealed, n, i) && OnlyTree(old(v.disk), v.disk, i)
    ensures MetadataAdded(codec, v.News(), i, r, old(v.disk.trees)[i], v.disk.trees[i], printed)
    ensures r != Ready ==> v.faults > old(v.faults) || !Preparable(codec, old(v.disk.trees)[i])
  {
    hide Volume.Valid, Holds, OnlyTree, Sound, TopName, METADATA_NAME, SafeTree, CheckpointIn, Version;
    HoldsTree(v.disk, v.sealed, n, i);
    OnlyTreeSelf(v.disk, i);
    var safe := CheckPrepared(v, codec, v.disk.trees[i]);
    if !safe || !v.disk.trees[i].top.Dir? {
      assert v.News() == [];
      return NotReady;
    }
    var created: int, prepared: int := *, *;
    MetadataIsTop();
    var ok := WriteExclusive(v, n, i, METADATA_NAME, codec.encode(Written(printed, created, prepared)));
    return if ok then Ready else NotReady;
  }

  lemma PreparedHasMetadata(codec: Codec, news: seq<Event>, tree: Tree)
    requires PreparedBy(codec, news, tree)
    ensures HasMetadata(codec, tree)
  {
    hide METADATA_NAME, SafeTree, CheckpointIn;
  }

  lemma StillPreparedBy(codec: Codec, news: seq<Event>, more: seq<Event>, tree: Tree)
    requires PreparedBy(codec, news, tree)
    ensures PreparedBy(codec, news + more, tree) && news != []
  {
    hide Preparable, METADATA_NAME, Written;
    assert forall k :: 0 <= k < 3 ==> (news + more)[k] == news[k];
  }

  /** What `WriteMetadata` has done. */
  ghost predicate MetadataAdded(codec: Codec, more: seq<Event>, i: Ino, r: Preparation, before: Tree, after: Tree,
                                printed: Bytes) {
    && r != ContainmentUncertain
    && (if more == [] then r == NotReady && after == before
        else more == [FileWritten(i, METADATA_NAME, r == Ready, after)])
    && (r == Ready ==>
          && Preparable(codec, before)
          && exists created, prepared ::
               after == WithFile(before, METADATA_NAME, codec.encode(Written(printed, created, prepared))))
  }

  lemma WithMetadata(codec: Codec, phases: seq<Event>, more: seq<Event>, i: Ino, r: Preparation, before: Tree, after: Tree,
                     printed: Bytes)
    requires Succeeded(phases, 3) && |phases| == 3 && phases[0].printed == printed
    requires forall e :: e in phases ==> e.PhaseEnded? && e.ino == i && !LeavesUncertain(e)
    requires MetadataAdded(codec, more, i, r, phases[2].tree, after, printed)
    ensures PreparationTold(phases + more, i, r, before, after)
    ensures r == Ready ==> PreparedBy(codec, phases + more, after)
    ensures !Preparable(codec, phases[2].tree) ==> ChildAtFault(codec, phases + more)
  {
    hide METADATA_NAME, Preparable, Version, LeavesUncertain, Written;
    assert Succeeded(phases + more, 3) && (phases + more)[2] == phases[2] && (phases + more)[0] == phases[0];
    if more != [] {
      MetadataTold(phases, i, r == Ready, before, after);
    } else {
      assert phases + more == phases;
      assert phases[2] in phases;
    }
  }

  lemma HoldsTree(d: Disk, sealed: map<Ino, Tree>, n: Name, i: Ino)
    requires Holds(d, sealed, n, i)
    ensures n in d.root && d.root[n] == i && i in d.trees && i in d.unsynced && Sound(d.trees[i])
  {
  }

  lemma MetadataIsTop()
    ensures TopName(METADATA_NAME)
  {
  }

  lemma ManifestIsTop()
    ensures TopName(MANIFEST_NAME)
  {
  }

  // ---------- sealing ----------

  /** The prepared tree is all there, with nothing added to it but perhaps the manifest. */
  ghost predicate KeepsPrepared(before: Tree, after: Tree) {
    || after == before
    || (MANIFEST_NAME !in before.items && exists text :: after == WithFile(before, MANIFEST_NAME, text))
  }

  /** Every entry is as it was, and only the manifest may be new. */
  lemma KeepsPreparedExactly(before: Tree, after: Tree)
    requires KeepsPrepared(before, after)
    ensures after.top == before.top && forall k :: k in before.items ==> k in after.items && after.items[k] == before.items[k]
    ensures forall k :: k in after.items && k !in before.items ==> k == Ascii("SHA256SUMS")
  {
  }

  /** A prepared tree that can be sealed. */
  ghost predicate Sealable(codec: Codec, t: Tree) {
    && Hashable(codec.sha, t.items) && MANIFEST_NAME !in t.items && t.top.Dir?
    && ValidBackup(codec, WithFile(t, MANIFEST_NAME, Print(Digests(codec.sha, t.items))))
  }

  // ---------- what the child has to leave ----------

  /** The metadata can be read back within its limit. */
  ghost predicate ReadsBack(codec: Codec, m: Metadata) {
    codec.decode(codec.encode(m)) == Some(m) && |codec.encode(m)| <= 65536
  }

  /** With metadata added, the tree has a manifest that fits. */
  ghost predicate ManifestFits(codec: Codec, items: Items, m: Metadata) {
    |Print(Digests(codec.sha, AddFile(items, METADATA_NAME, codec.encode(m))))| <= 16777216
  }

  /**
   * The child has done its part: three phases that succeed, the first of them with a line
   * for the version. And what it has left can be sealed: it follows the rules for a tree, has
   * good checkpoints, neither control file of the engine and room for both, and the metadata
   * and the manifest fit.
   */
  ghost predicate ChildFit(codec: Codec, news: seq<Event>) {
    && |news| >= 3
    && (forall k :: 0 <= k < 3 ==> news[k].PhaseEnded? && news[k].result == Containment.NoError)
    && news[0].phase == VersionPhase && news[1].phase == BackupPhase && news[2].phase == PreparePhase
    && var t, printed := news[2].tree, news[0].printed;
    && printed != [] && 0 !in printed && 13 !in printed && 10 !in printed
    && t.top.Dir? && t.top.attr.owned && t.top.attr.private && TreeRules(t.items) && |t.items| <= 99999
    && ControlRules(t.items, Ascii("xtrabackup_checkpoints"), 65536)
    && codec.fullPrepared(t.items[Ascii("xtrabackup_checkpoints")].data)
    && Ascii("xbkeeper.json") !in t.items && Ascii("SHA256SUMS") !in t.items
    && forall created, prepared :: ReadsBack(codec, Written(printed, created, prepared))
                                   && ManifestFits(codec, t.items, Written(printed, created, prepared))
  }

  lemma FitIsDone(codec: Codec, news: seq<Event>)
    requires ChildFit(codec, news)
    ensures ChildDone(codec, news) && Walkable(news[2].tree.items)
  {
    hide ReadsBack, ManifestFits, Control, ControlRules;
    WalkableExactly(news[2].tree.items);
    ControlExactly(news[2].tree.items, CHECKPOINTS_NAME, MAX_CONTROL);
    WalkableIsSafe(news[2].tree.items);
  }

  lemma WalkableIsSafe(items: Items)
    requires Walkable(items)
    ensures forall k :: k in items ==> SafeItem(items[k])
  {
  }

  /** Such a stage, once prepared, can be sealed. */
  lemma FitIsSealable(codec: Codec, news: seq<Event>, tree: Tree)
    requires ChildFit(codec, news) && PreparedBy(codec, news, tree)
    ensures Sealable(codec, tree)
  {
    FitIsDone(codec, news);
    hide TreeRules, ControlRules, ReadsBack, ManifestFits, SafeTree;
    var created, prepared :|
      tree == WithFile(news[2].tree, METADATA_NAME, codec.encode(Written(news[0].printed, created, prepared)));
    var m := Written(news[0].printed, created, prepared);
    assert ReadsBack(codec, m) && ManifestFits(codec, news[2].tree.items, m);
    assert m.version != [];
    SealableWith(codec, news[2].tree, m);
  }

  lemma MetadataIsValid()
    ensures ValidRelative(METADATA_NAME) && METADATA_NAME != MANIFEST_NAME && METADATA_NAME != CHECKPOINTS_NAME
  {
    PlainNameIsValid(METADATA_NAME);
    assert |METADATA_NAME| != |MANIFEST_NAME| && |METADATA_NAME| != |CHECKPOINTS_NAME|;
  }

  lemma MetadataAdds(codec: Codec, items: Items, m: Metadata)
    requires Walkable(items) && |items| <= 99999 && METADATA_NAME !in items && MANIFEST_NAME !in items
    requires ReadsBack(codec, m) && ManifestFits(codec, items, m)
    ensures var more := AddFile(items, METADATA_NAME, codec.encode(m));
            && Hashable(codec.sha, more) && |more| <= MAX_ENTRIES && MANIFEST_NAME !in more
            && MetadataIn(codec, more) == Some(m) && (CheckpointIn(codec, items) ==> CheckpointIn(codec, more))
  {
    MetadataIsValid();
    hide METADATA_NAME, MANIFEST_NAME, CHECKPOINTS_NAME, ValidRelative, Print, Digests;
    var file := File(codec.encode(m), PRIVATE);
    AddedEntries(items, METADATA_NAME, file);
    OneMoreKey(items, METADATA_NAME, file);
    assert METADATA_NAME in FilePaths(AddFile(items, METADATA_NAME, codec.encode(m)));
  }

  lemma SealableWith(codec: Codec, t: Tree, m: Metadata)
    requires Preparable(codec, t) && Walkable(t.items) && |t.items| <= 99999 && MANIFEST_NAME !in t.items
    requires ReadsBack(codec, m) && ManifestFits(codec, t.items, m)
    requires m.format == 2 && m.version != [] && m.created.Some? && m.prepared.Some?
    ensures Sealable(codec, WithFile(t, METADATA_NAME, codec.encode(m)))
  {
    MetadataAdds(codec, t.items, m);
    hide METADATA_NAME, MANIFEST_NAME, CHECKPOINTS_NAME, Walkable, Print, Digests, Hashable, CheckpointIn, MetadataIn,
         DigestsMatch, ValidRoot, ReadsBack, ManifestFits;
    var more := AddFile(t.items, METADATA_NAME, codec.encode(m));
    SealingPassesAudit(codec, t.top, more);
  }

  /** Hashing the stage, writing the manifest and validating the result. */
  method Seal(v: Volume, codec: Codec, n: Name, i: Ino) returns (ok: bool)
    requires v.Valid() && Holds(v.disk, v.sealed, n, i)
    requires WritesFormat2(codec) && HasMetadata(codec, v.disk.trees[i])
    modifies v`disk, v`history, v`faults, v`events
    ensures v.Valid() && v.Extends() && v.sealed == old(v.sealed)
    ensures Holds(v.disk, v.sealed, n, i) && OnlyTree(old(v.disk), v.disk, i)
    ensures KeepsPrepared(old(v.disk.trees)[i], v.disk.trees[i])
    ensures forall e :: e in v.News() ==> WritesManifest(e, i)
    ensures ok ==> Intact(codec, v.disk.trees[i])
    ensures !ok ==> v.faults > old(v.faults) || !Sealable(codec, old(v.disk.trees)[i])
  {
    hide Volume.Valid, Holds, OnlyTree, Sound, Hashable, Digests, Print, Intact, HasMetadata, ValidBackup;
    HoldsTree(v.disk, v.sealed, n, i);
    OnlyTreeSelf(v.disk, i);
    ghost var before := v.disk.trees[i];
    ok := v.Attempt();
    if !ok {
      return;
    }
    SoundIsWellFormed(v.disk.trees[i]);
    var manifest := GenerateManifest(codec.sha, v.disk.trees[i].items);
    if manifest.None? {
      return false;
    }
    ManifestIsTop();
    ok := WriteExclusive(v, n, i, MANIFEST_NAME, manifest.value);
    if !ok {
      return;
    }
    HoldsTree(v.disk, v.sealed, n, i);
    ok := CheckBackup(v, codec, v.disk.trees[i]);
    if ok {
      SealedTree(codec, before, v.disk.trees[i]);
    }
  }

  /** Validation after sealing means that the audit will pass. */
  lemma SealedTree(codec: Codec, before: Tree, t: Tree)
    requires WritesFormat2(codec) && HasMetadata(codec, before)
    requires MANIFEST_NAME !in before.items && Hashable(codec.sha, before.items)
    requires t == WithFile(before, MANIFEST_NAME, Print(Digests(codec.sha, before.items)))
    requires ValidBackup(codec, t)
    ensures Intact(codec, t)
  {
    hide Hashable, Digests, Print, ValidBackup, Intact;
    assert t.items == Sealed(before.items, Print(Digests(codec.sha, before.items)));
    ValidHasTime(codec, t);
    assert MANIFEST_NAME[0] != METADATA_NAME[0];
    assert t.items[METADATA_NAME] == before.items[METADATA_NAME];
    SealedIsIntact(codec, t, before.items);
  }

  // ---------- promotion ----------

  /** Syncing the sealed stage and renaming it. `d1` is the disk just before the rename. */
  method Promote(v: Volume, codec: Codec, n: Name, completed: Name, i: Ino) returns (ok: bool, ghost d1: Disk)
    requires v.Valid() && Holds(v.disk, v.sealed, n, i) && completed.Backup?
    requires Intact(codec, v.disk.trees[i])
    modifies v`disk, v`history, v`faults, v`sealed
    ensures v.Valid() && v.Extends()
    ensures OnlyTree(old(v.disk), d1, i) && d1.trees[i] == old(v.disk.trees)[i] && Holds(d1, old(v.sealed), n, i)
    ensures !ok ==> v.disk == d1 && v.sealed == old(v.sealed)
    ensures !ok ==> v.faults > old(v.faults) || completed in old(v.disk.root)
    ensures ok ==> completed !in old(v.disk.root) && Clean(d1, i)
    ensures ok ==> v.disk == Update(d1, Move(n, completed)) && v.sealed == old(v.sealed)[i := d1.trees[i]]
  {
    hide Volume.Valid, Intact, Sound, Free;
    ghost var d0 := v.disk;
    OnlyTreeSelf(d0, i);
    d1 := d0;
    var stop := v.Poll(true);
    if stop {
      return false, d1;
    }
    ok := v.Attempt();
    if !ok || completed in v.disk.root {
      return false, d1;
    }
    IntactIsSafe(codec, v.disk.trees[i]);
    ok := SyncTree(v, i);
    SyncedHolds(d0, v.disk, v.sealed, n, i);
    d1 := v.disk;
    if !ok {
      return;
    }
    stop := v.Poll(true);
    if stop {
      return false, d1;
    }
    ok := v.Promote(n, completed);
  }

  lemma IntactIsSafe(codec: Codec, t: Tree)
    requires Intact(codec, t)
    ensures SafeTree(t)
  {
    hide ValidBackup, DigestsMatch;
    ValidIsSafe(codec, t);
  }

  lemma SyncedHolds(d: Disk, e: Disk, sealed: map<Ino, Tree>, n: Name, i: Ino)
    requires Holds(d, sealed, n, i) && OnlySynced(d, e, i)
    ensures Holds(e, sealed, n, i) && OnlyTree(d, e, i) && e.trees[i] == d.trees[i] && e.root == d.root
  {
  }
}
