/** `backup`: one run from the inventory to the end of retention, and any series of runs. */
module Workflow {
  import opened Audit
  import opened Bytes
  import opened Disks
  import opened Inventories
  import opened Removals
  import opened Retention
  import opened Sorting
  import opened Staging
  import opened Trees
  import opened Volumes

  // ---------- the names a run leaves ----------

  /** The older backups that a run with this limit keeps. */
  ghost function KeptPrior(codec: Codec, d: Disk, keep: int): set<Name> {
    Kept(PreparedTimes(codec, d), BackupNames(d.root), keep)
  }

  /** The names a run may take away: pending deletions, and older backups beyond the limit. */
  ghost function Removable(codec: Codec, d: Disk, keep: int): set<Name> {
    DeletingNames(d.root) + (BackupNames(d.root) - KeptPrior(codec, d, keep))
  }

  /** The promise is within what a run with this limit keeps. */
  ghost predicate Keepable(p: Promise, codec: Codec, d: Disk, keep: int) {
    p.floor <= keep && p.floor <= |BackupNames(d.root)| && p.names.Keys <= KeptPrior(codec, d, keep)
  }

  lemma KeptAgrees(p: map<Name, int>, q: map<Name, int>, prior: set<Name>, keep: int)
    requires prior <= p.Keys && prior <= q.Keys && forall n :: n in prior ==> p[n] == q[n]
    ensures Kept(p, prior, keep) == Kept(q, prior, keep)
  {
    forall n | n in prior ensures Earlier(p, prior, n) == Earlier(q, prior, n) {
    }
  }

  /** The disk `e` is `d` with one more backup. */
  ghost predicate OneMore(d: Disk, e: Disk, completed: Name, i: Ino) {
    && completed.Backup? && completed !in d.root
    && e.root == d.root[completed := i] && i in e.trees
    && StillThere(d, e, {})
  }

  lemma SameTimes(codec: Codec, d: Disk, e: Disk, completed: Name, i: Ino, keep: int)
    requires OneMore(d, e, completed, i)
    ensures BackupNames(e.root) == BackupNames(d.root) + {completed}
    ensures DeletingNames(e.root) == DeletingNames(d.root)
    ensures Kept(PreparedTimes(codec, e), BackupNames(d.root), keep) == KeptPrior(codec, d, keep)
  {
    hide MetadataIn;
    forall n | n in BackupNames(d.root) ensures PreparedTime(codec, d, n) == PreparedTime(codec, e, n) {
      assert SameTree(d, e, n);
    }
    KeptAgrees(PreparedTimes(codec, e), PreparedTimes(codec, d), BackupNames(d.root), keep);
  }

  // ---------- after promotion ----------

  lemma InventoryRanked(codec: Codec, d: Disk, e: Disk, completed: Name, i: Ino, s: Status)
    requires OneMore(d, e, completed, i) && IsInventory(codec, e, s)
    ensures Ranked(PreparedTimes(codec, e), BackupNames(d.root), completed, s.backups)
    ensures Distinct(s.pending) && Elems(s.pending) == DeletingNames(e.root)
  {
    hide Less, PreparedTime, EntryValid, NameLess;
    SameTimes(codec, d, e, completed, i, 1);
    forall n | n in s.backups ensures n.Backup? {
      assert n in Elems(s.backups);
    }
    NameOrderIsStrict(Elems(s.pending));
    SortedIsDistinct(NameLess, s.pending);
  }

  lemma PendingGone(d: Disk, e: Disk, gone: set<Name>)
    requires Trimmed(d, e, gone) && gone == DeletingNames(d.root)
    ensures BackupNames(e.root) == BackupNames(d.root) && DeletingNames(e.root) == {}
    ensures forall n :: n in BackupNames(d.root) ==> SameTree(d, e, n)
  {
  }

  /** Retention: the pending deletions, then the older backups beyond the limit. */
  method Retain(v: Volume, codec: Codec, completed: Name, keep: int, s: Status, ghost d: Disk, ghost i: Ino)
      returns (ok: bool)
    requires v.Valid() && Settled(v.disk) && OneMore(d, v.disk, completed, i) && IsInventory(codec, v.disk, s)
    requires keep >= 1 && Keepable(v.promise, codec, d, keep)
    modifies v`disk, v`history, v`faults
    ensures v.Valid() && v.Extends() && OthersStay(old(v.disk), v.disk, Removable(codec, d, keep))
    ensures ok ==> Trimmed(old(v.disk), v.disk, Removable(codec, d, keep))
    ensures Retires(codec, old(v.disk), v.disk)
    ensures !ok ==> v.faults > old(v.faults) || exists n :: n in DeletingNames(d.root) && !PendingGood(old(v.disk), n)
  {
    hide Volume.Valid, Safe, OthersStay, Trimmed, OneMore, IsInventory, Ranked, PendingGood, SameTree, Kept,
         PreparedTimes, BackupNames, DeletingNames, BackupGood, Shrinks, Retires;
    ghost var d1, prior, prepared := v.disk, BackupNames(d.root), PreparedTimes(codec, v.disk);
    v.Now();
    InventoryRanked(codec, d, d1, completed, i, s);
    SameTimes(codec, d, d1, completed, i, keep);
    ok := RetryAllPending(v, s.pending);
    ShrinksRetires(codec, d1, v.disk);
    StayWider(d1, v.disk, Elems(s.pending), Removable(codec, d, keep));
    if !ok {
      return;
    }
    ghost var d2 := v.disk;
    PendingGone(d1, d2, Elems(s.pending));
    StaysSettled(d1, d2, Elems(s.pending));
    RankedElems(prepared, prior, completed, s.backups);
    ok := RetireOld(v, codec, completed, keep, s.backups, prepared, prior);
    RetiresTransitive(codec, d1, d2, v.disk);
    StayTransitive(d1, d2, v.disk, Elems(s.pending), prior - Kept(prepared, prior, keep));
    if ok {
      TrimTransitive(d1, d2, v.disk, Elems(s.pending), prior - Kept(prepared, prior, keep));
    } else {
      AllGood(codec, d1, d2, s, prior);
    }
  }

  lemma RankedElems(prepared: map<Name, int>, prior: set<Name>, completed: Name, list: seq<Name>)
    requires Ranked(prepared, prior, completed, list)
    ensures Elems(list) == prior + {completed}
  {
  }

  /** With a valid inventory and no pending deletion left, no backup can stop the loop. */
  lemma AllGood(codec: Codec, d1: Disk, d2: Disk, s: Status, prior: set<Name>)
    requires IsInventory(codec, d1, s) && prior <= BackupNames(d1.root) && DeletingNames(d2.root) == {}
    requires forall n :: n in BackupNames(d1.root) ==> SameTree(d1, d2, n)
    ensures forall n :: n in prior ==> BackupGood(codec, d2, n) && Deleting(n.id) !in d2.root
  {
    hide ValidBackup, Less, PreparedTimes, SortedBy;
    forall n | n in prior ensures BackupGood(codec, d2, n) && Deleting(n.id) !in d2.root {
      assert EntryValid(codec, d1, n) && SameTree(d1, d2, n);
      assert Deleting(n.id) !in DeletingNames(d2.root);
    }
  }

  lemma SyncedOneMore(d: Disk, e: Disk, completed: Name, i: Ino)
    requires OneMore(d, e, completed, i)
    ensures OneMore(d, SyncRoot(e), completed, i) && Settled(SyncRoot(e))
  {
  }

  lemma SyncedStays(d: Disk, sealed: map<Ino, Tree>, s: set<Name>)
    requires Safe(d, sealed)
    ensures OthersStay(d, SyncRoot(d), s)
  {
  }

  lemma SyncedThen(d: Disk, e: Disk, s: set<Name>)
    requires OthersStay(SyncRoot(d), e, s)
    ensures OthersStay(d, e, s) && (Trimmed(SyncRoot(d), e, s) ==> Trimmed(d, e, s))
  {
  }

  /** Why a run that has promoted its backup may still fail. */
  ghost predicate Excuse(v: Volume, codec: Codec, d: Disk, faults: nat)
    reads v
  {
    || v.faults > faults
    || (exists n :: n in d.root && !EntryValid(codec, d, n))
    || (exists n :: n in DeletingNames(d.root) && !PendingGood(d, n))
  }

  /** The part of `backup` after the promoting rename. */
  method Finish(v: Volume, codec: Codec, completed: Name, keep: int, ghost d: Disk, ghost i: Ino) returns (ok: bool)
    requires v.Valid() && OneMore(d, v.disk, completed, i)
    requires keep >= 1 && Keepable(v.promise, codec, d, keep)
    modifies v`disk, v`history, v`faults
    ensures v.Valid() && v.Extends() && OthersStay(old(v.disk), v.disk, Removable(codec, d, keep))
    ensures ok ==> Trimmed(old(v.disk), v.disk, Removable(codec, d, keep))
    ensures Retires(codec, old(v.disk), v.disk)
    ensures !ok ==> Excuse(v, codec, old(v.disk), old(v.faults))
  {
    hide Volume.Valid, Safe, OthersStay, Trimmed, OneMore, IsInventory, PendingGood, Removable, SameTree, EntryValid,
         DeletingNames, Retires, Keepable;
    ghost var d1, gone := v.disk, Removable(codec, d, keep);
    v.Now();
    AllStay(d1, v.sealed, gone);
    NothingRetires(codec, d1, v.sealed);
    ok := v.SyncParent();
    if !ok {
      return;
    }
    SyncedOneMore(d, d1, completed, i);
    SyncedStays(d1, v.sealed, gone);
    var stop := v.Poll(true);
    if stop {
      return false;
    }
    var s;
    ok, s := Inspect(v, codec);
    if !ok {
      SameEntries(codec, d1);
      return;
    }
    ok := Retain(v, codec, completed, keep, s, d, i);
    SyncedThen(d1, v.disk, gone);
    SyncedRetires(codec, d1, v.disk);
    SamePending(d, d1, completed, i);
  }

  lemma NothingRetires(codec: Codec, d: Disk, sealed: map<Ino, Tree>)
    requires Safe(d, sealed)
    ensures Retires(codec, d, d) && Retires(codec, d, SyncRoot(d))
  {
    hide Safe;
    NothingShrinks(d, sealed);
    ShrinksRetires(codec, d, d);
    SyncedRetires(codec, d, SyncRoot(d));
  }

  /** Only what is visible matters. */
  lemma SyncedRetires(codec: Codec, d: Disk, e: Disk)
    ensures Retires(codec, SyncRoot(d), e) <==> Retires(codec, d, e)
    ensures Retires(codec, d, d) ==> Retires(codec, d, SyncRoot(d))
  {
    hide Remainder, ValidBackup;
  }

  lemma SameEntries(codec: Codec, d: Disk)
    ensures forall n :: EntryValid(codec, SyncRoot(d), n) <==> EntryValid(codec, d, n)
  {
  }

  lemma SamePending(d: Disk, e: Disk, completed: Name, i: Ino)
    requires OneMore(d, e, completed, i)
    ensures DeletingNames(d.root) == DeletingNames(e.root)
    ensures forall n :: PendingGood(SyncRoot(e), n) <==> PendingGood(e, n)
  {
  }

  // ---------- before promotion ----------

  /** How far a run has come. */
  datatype Progress = NotStaged | Staged | Prepared | Promoted

  /** The disk `e` is `d` with the stage `n`, which is the tree `i`. */
  ghost predicate WithStage(d: Disk, e: Disk, n: Name, i: Ino) {
    && n.InProgress? && n !in d.root && e.root == d.root[n := i]
    && i in e.trees && StillThere(d, e, {})
  }

  lemma CreatedEmpty(d: Disk, n: Name)
    ensures d.next in Created(d, n).trees && Created(d, n).trees[d.next] == EMPTY_DIR
  {
  }

  lemma CreatedStage(d: Disk, sealed: map<Ino, Tree>, n: Name)
    requires Safe(d, sealed) && n.InProgress? && n !in d.root
    ensures WithStage(d, Created(d, n), n, d.next)
  {
  }

  /** Work inside the stage leaves the rest alone. */
  lemma StageWork(d: Disk, e: Disk, f: Disk, n: Name, i: Ino, sealed: map<Ino, Tree>)
    requires WithStage(d, e, n, i) && OnlyTree(e, f, i) && Safe(e, sealed)
    ensures WithStage(d, f, n, i)
  {
    hide Sound;
    assert RootSafe(e, sealed, e.root);
    assert e.root[n] == i;
    forall m | m in d.root ensures SameTree(d, f, m) {
      assert SameTree(d, e, m) && e.root[m] != i;
    }
  }

  /** Removing the stage gives the root back as it was before the run. */
  lemma StageGone(d: Disk, e: Disk, f: Disk, n: Name, i: Ino, sealed: map<Ino, Tree>)
    requires WithStage(d, e, n, i) && Gone(e, f, n) && Safe(e, sealed)
    ensures f.root == d.root && StillThere(d, f, {})
  {
    hide Sound;
    assert RootSafe(e, sealed, e.root);
    assert e.root[n] == i;
    forall m | m in d.root ensures SameTree(d, f, m) {
      assert SameTree(d, e, m) && e.root[m] != i;
    }
  }

  lemma StageRenamed(d: Disk, e: Disk, n: Name, i: Ino, completed: Name)
    requires WithStage(d, e, n, i) && completed.Backup? && completed !in e.root
    ensures OneMore(d, Update(e, Move(n, completed)), completed, i)
  {
  }

  /** The stage is still there, with what an interrupted removal has left of it. */
  ghost predicate StageLeft(d: Disk, e: Disk, n: Name, i: Ino, tree: Tree) {
    e.root == d.root[n := i] && i in e.trees && Remainder(e.trees[i], tree)
  }

  /** The deferred clean-up of a stage that is not to be preserved: only a safe tree is removed. */
  method CleanUp(v: Volume, n: Name, i: Ino, ghost d: Disk)
    requires v.Valid() && Holds(v.disk, v.sealed, n, i) && WithStage(d, v.disk, n, i)
    modifies v`disk, v`history, v`faults
    ensures v.Valid() && v.Extends() && v.sealed == old(v.sealed) && StillThere(d, v.disk, {})
    ensures v.disk.root == d.root || StageLeft(d, v.disk, n, i, old(v.disk.trees)[i])
    ensures v.disk != old(v.disk) ==> SafeTree(old(v.disk.trees)[i])
    ensures SafeTree(old(v.disk.trees)[i]) && v.disk.root != d.root ==> v.faults > old(v.faults)
  {
    hide Volume.Valid, Safe, Holds, StillThere, Gone, OnlyPruned, SafeTree, Sound, Remainder;
    v.Now();
    ghost var d1, sealed := v.disk, v.sealed;
    HoldsTree(d1, sealed, n, i);
    WholeRemainder(d1.trees[i]);
    HoldsFree(d1, sealed, n, i);
    var ok := v.Attempt();
    if !ok || !SafeTree(v.disk.trees[i]) {
      return;
    }
    var r := RemoveTree(v, n, false);
    if r == Removed {
      StageGone(d, d1, v.disk, n, i, sealed);
    } else {
      PrunedIsWork(d1, v.disk, i, d1.trees[i].items.Keys);
      StageWork(d, d1, v.disk, n, i, sealed);
    }
  }

  lemma HoldsFree(d: Disk, sealed: map<Ino, Tree>, n: Name, i: Ino)
    requires Holds(d, sealed, n, i)
    ensures Free(d, i) && n.InProgress?
  {
  }

  lemma PrunedIsWork(d: Disk, e: Disk, i: Ino, s: set<Bytes>)
    requires OnlyPruned(d, e, i, s)
    ensures OnlyTree(d, e, i)
    ensures i in d.trees && i in e.trees && e.root == d.root && (s == d.trees[i].items.Keys ==> Remainder(e.trees[i], d.trees[i]))
  {
  }

  /** What the run has left of its stage, which it prepared as `tree`. */
  ghost predicate StageKept(codec: Codec, d: Disk, e: Disk, n: Name, completed: Name, i: Ino, tree: Tree, p: Progress) {
    match p
    case NotStaged => e == d
    case Staged => StillThere(d, e, {}) && (e.root == d.root || StageLeft(d, e, n, i, tree))
    case Prepared =>
      && WithStage(d, e, n, i) && (completed in e.root ==> e.root[completed] != i)
      && KeepsPrepared(tree, e.trees[i])
    case Promoted =>
      && OneMore(d, e, completed, i) && n !in e.root
      && KeepsPrepared(tree, e.trees[i]) && Intact(codec, e.trees[i])
  }

  ghost predicate StageAsLeft(d: Disk, e: Disk, n: Name, i: Ino, tree: Tree) {
    e.root == d.root[n := i] && i in e.trees && e.trees[i] == tree
  }

  /** The trees that became sealed from `old'` to `now` pass the audit. */
  ghost predicate NewIntact(codec: Codec, old': map<Ino, Tree>, now: map<Ino, Tree>) {
    forall i :: i in now && i !in old' ==> Intact(codec, now[i])
  }

  lemma SameSealed(codec: Codec, sealed: map<Ino, Tree>)
    ensures NewIntact(codec, sealed, sealed)
  {
  }

  /** How far the run has come, and with which tree, by the events in its stage `i`. */
  ghost predicate Tells(news: seq<Event>, i: Ino, p: Progress, uncertain: bool, tree: Tree) {
    && (forall e :: e in news ==> e.ino == i)
    && (p == NotStaged ==> news == [])
    && (p == Prepared || p == Promoted <==> exists e :: e in news && Prepares(e))
    && (uncertain <==> exists e :: e in news && LeavesUncertain(e))
    && (p == Staged ==> tree == TreeLeft(news, EMPTY_DIR))
    && (forall e :: e in news && (Prepares(e) || LeavesUncertain(e)) ==> e.tree == tree)
  }

  lemma StagedTells(news: seq<Event>, i: Ino, r: Preparation, tree: Tree)
    requires PreparationTold(news, i, r, EMPTY_DIR, tree) && r != Ready
    ensures Tells(news, i, Staged, r == ContainmentUncertain, tree)
  {
  }

  lemma SealingTells(news: seq<Event>, more: seq<Event>, i: Ino, p: Progress, tree: Tree)
    requires PreparationTold(news, i, Ready, EMPTY_DIR, tree) && (p == Prepared || p == Promoted)
    requires forall e :: e in more ==> WritesManifest(e, i)
    ensures Tells(news + more, i, p, false, tree)
  {
  }

  /** From the metadata to the promoting rename: whatever fails, the prepared tree stays. */
  method SealAndPromote(v: Volume, codec: Codec, n: Name, completed: Name, i: Ino, ghost d: Disk)
      returns (p: Progress)
    requires v.Valid() && Holds(v.disk, v.sealed, n, i) && WithStage(d, v.disk, n, i)
    requires completed.Backup? && WritesFormat2(codec) && HasMetadata(codec, v.disk.trees[i])
    modifies v`disk, v`history, v`faults, v`sealed, v`events
    ensures v.Valid() && v.Extends() && (p == Prepared || p == Promoted)
    ensures forall e :: e in v.News() ==> WritesManifest(e, i)
    ensures NewIntact(codec, old(v.sealed), v.sealed)
    ensures StageKept(codec, d, v.disk, n, completed, i, old(v.disk.trees)[i], p)
    ensures p == Promoted ==> i in v.sealed && i in v.disk.trees && v.sealed[i] == v.disk.trees[i]
    ensures p == Prepared ==> v.faults > old(v.faults) || !Sealable(codec, old(v.disk.trees)[i]) || completed in d.root
  {
    hide Volume.Valid, Safe, Holds, StillThere, Intact, HasMetadata, Sealable, KeepsPrepared, WithStage, OnlyTree,
         OneMore, Update;
    v.Now();
    ghost var d1 := v.disk;
    var ok := Seal(v, codec, n, i);
    ghost var d2, sealed := v.disk, v.sealed;
    StageWork(d, d1, d2, n, i, sealed);
    v.Now();
    NotTheBackup(d2, sealed, n, i, completed);
    StageRoot(d, d2, n, i);
    if !ok {
      return Prepared;
    }
    ghost var d3;
    ok, d3 := Promote(v, codec, n, completed, i);
    StageWork(d, d2, d3, n, i, sealed);
    SameNames(d2, d3, i);
    NotTheBackup(d3, sealed, n, i, completed);
    if !ok {
      return Prepared;
    }
    HoldsTree(d3, sealed, n, i);
    assert v.sealed == sealed[i := d3.trees[i]];
    StageRoot(d, d3, n, i);
    StageRenamed(d, d3, n, i, completed);
    RenamedAway(d3, n, completed);
    p := Promoted;
  }

  /** The end of a run that has not prepared its stage: clean-up, unless a child may be at work. */
  method LeaveStage(v: Volume, codec: Codec, n: Name, completed: Name, i: Ino, uncertain: bool, ghost d: Disk)
    requires v.Valid() && Holds(v.disk, v.sealed, n, i) && WithStage(d, v.disk, n, i)
    modifies v`disk, v`history, v`faults
    ensures v.Valid() && v.Extends()
    ensures StageKept(codec, d, v.disk, n, completed, i, old(v.disk.trees)[i], Staged)
    ensures !StageAsLeft(d, v.disk, n, i, old(v.disk.trees)[i]) ==> !uncertain && SafeTree(old(v.disk.trees)[i])
    ensures !uncertain && SafeTree(old(v.disk.trees)[i]) && v.disk.root != d.root ==> v.faults > old(v.faults)
  {
    hide Volume.Valid, Holds, StillThere, WithStage, SafeTree, Remainder, Sound;
    StageRoot(d, v.disk, n, i);
    HoldsTree(v.disk, v.sealed, n, i);
    WholeRemainder(v.disk.trees[i]);
    if !uncertain {
      CleanUp(v, n, i, d);
    }
  }

  /**
   * From the new stage to the promoting rename. An uncertain containment leaves the stage as
   * it is; before the metadata, other failures may remove it; after it, none does.
   */
  method Stage(v: Volume, codec: Codec, n: Name, completed: Name, i: Ino, ghost d: Disk)
      returns (p: Progress, uncertain: bool, ghost tree: Tree)
    requires v.Valid() && Holds(v.disk, v.sealed, n, i) && WithStage(d, v.disk, n, i)
    requires completed.Backup? && WritesFormat2(codec) && v.disk.trees[i] == EMPTY_DIR
    modifies v`disk, v`history, v`faults, v`sealed, v`events
    ensures v.Valid() && v.Extends() && p != NotStaged
    ensures Tells(v.News(), i, p, uncertain, tree) && NewIntact(codec, old(v.sealed), v.sealed)
    ensures p == Staged ==> v.faults > old(v.faults) || ChildAtFault(codec, v.News())
    ensures p == Prepared || p == Promoted ==> PreparedBy(codec, v.News(), tree)
    ensures StageKept(codec, d, v.disk, n, completed, i, tree, p)
    ensures p == Promoted ==> i in v.sealed && i in v.disk.trees && v.sealed[i] == v.disk.trees[i]
    ensures uncertain ==> p == Staged
    ensures p == Staged && !StageAsLeft(d, v.disk, n, i, tree) ==> !uncertain && SafeTree(tree)
    ensures p == Staged && !uncertain && SafeTree(tree) && v.disk.root != d.root ==> v.faults > old(v.faults)
    ensures p == Prepared ==> v.faults > old(v.faults) || !ChildFit(codec, v.News()) || completed in d.root
  {
    hide Volume.Valid, Safe, Holds, StillThere, Intact, HasMetadata, Sealable, KeepsPrepared, WithStage, OnlyTree, OneMore,
         SafeTree, PreparationTold, Tells, ChildFit, ChildAtFault, PreparedBy, NewIntact, WritesFormat2, WritesManifest,
         StageKept, StageAsLeft;
    v.Now();
    SameSealed(codec, v.sealed);
    ghost var d0 := v.disk;
    HoldsTree(d0, v.sealed, n, i);
    var r := Prepare(v, codec, n, i);
    ghost var d1 := v.disk;
    StageWork(d, d0, d1, n, i, v.sealed);
    HoldsTree(d1, v.sealed, n, i);
    uncertain, tree := r == ContainmentUncertain, d1.trees[i];
    ghost var news := v.News();
    if r == Ready {
      PreparedHasMetadata(codec, news, tree);
      label Sealing:
      p := SealAndPromote(v, codec, n, completed, i, d);
      SealingTells(news, v.News@Sealing(), i, p, tree);
      assert v.News() == news + v.News@Sealing();
      StillPreparedBy(codec, news, v.News@Sealing(), tree);
      WhySealed(codec, v.News(), tree);
    } else {
      p := Staged;
      StagedTells(news, i, r, tree);
      LeaveStage(v, codec, n, completed, i, uncertain, d);
    }
  }

  lemma WhySealed(codec: Codec, news: seq<Event>, tree: Tree)
    requires PreparedBy(codec, news, tree)
    ensures !Sealable(codec, tree) ==> !ChildFit(codec, news)
  {
    hide PreparedBy, Sealable, ChildFit;
    if ChildFit(codec, news) {
      FitIsSealable(codec, news, tree);
    }
  }

  lemma StageRoot(d: Disk, e: Disk, n: Name, i: Ino)
    requires WithStage(d, e, n, i)
    ensures e.root == d.root[n := i] && i in e.trees && StillThere(d, e, {})
  {
  }

  lemma SameNames(d: Disk, e: Disk, i: Ino)
    requires OnlyTree(d, e, i)
    ensures e.root == d.root && e.possible == d.possible
  {
  }

  lemma NotTheBackup(d: Disk, sealed: map<Ino, Tree>, n: Name, i: Ino, completed: Name)
    requires Holds(d, sealed, n, i) && completed.Backup? && d.root in d.possible
    ensures completed in d.root ==> d.root[completed] != i
  {
  }

  lemma RenamedAway(d: Disk, n: Name, completed: Name)
    requires n != completed
    ensures n !in Update(d, Move(n, completed)).root && Update(d, Move(n, completed)).trees == d.trees
  {
  }

  // ---------- the whole run ----------

  datatype Outcome = Done(id: Bytes) | NotDone

  /** What a successful run leaves: the new backup, and the older ones within the limit. */
  ghost predicate Retained(codec: Codec, d: Disk, e: Disk, keep: int, completed: Name) {
    && Settled(e) && completed !in d.root && completed in e.root && e.root[completed] in e.trees
    && e.root - {completed} == d.root - Removable(codec, d, keep)
    && StillThere(d, e, Removable(codec, d, keep))
    && Intact(codec, e.trees[e.root[completed]])
  }

  /** The names a successful run leaves, counted. */
  lemma RetainedNames(codec: Codec, d: Disk, e: Disk, keep: int, completed: Name)
    requires Retained(codec, d, e, keep, completed) && completed.Backup? && keep >= 1 && StageNames(d.root) == {}
    ensures BackupNames(e.root) == KeptPrior(codec, d, keep) + {completed}
    ensures |BackupNames(e.root)| == Least(|BackupNames(d.root)| + 1, keep)
    ensures StageNames(e.root) == {} && DeletingNames(e.root) == {}
  {
    hide Intact, StillThere, PreparedTime, Before, Retained, Settled;
    NamesLeft(codec, d, e, keep, completed);
    KeptSize(PreparedTimes(codec, d), BackupNames(d.root), keep);
    assert completed !in BackupNames(d.root);
  }

  lemma NamesLeft(codec: Codec, d: Disk, e: Disk, keep: int, completed: Name)
    requires Retained(codec, d, e, keep, completed) && completed.Backup? && StageNames(d.root) == {}
    ensures BackupNames(e.root) == KeptPrior(codec, d, keep) + {completed} && completed !in d.root
    ensures StageNames(e.root) == {} && DeletingNames(e.root) == {}
  {
    hide Intact, StillThere, PreparedTime, Before, Settled;
    var kept := KeptPrior(codec, d, keep);
    assert (e.root - {completed}).Keys == e.root.Keys - {completed};
    forall n ensures n in e.root <==> n == completed || (n in d.root && n !in Removable(codec, d, keep)) {
      assert n in e.root - {completed} <==> n in e.root && n != completed;
    }
    forall n ensures n in BackupNames(e.root) <==> n in kept + {completed} {
    }
    forall n | n in e.root ensures n !in StageNames(e.root) && n !in DeletingNames(e.root) {
      assert n in d.root ==> n !in StageNames(d.root) && (n in DeletingNames(d.root) ==> n in Removable(codec, d, keep));
    }
  }

  /** `token`: an id that no possible directory holds under a name that is not visible. */
  method Token(v: Volume) returns (ok: bool, id: Bytes)
    requires v.Valid()
    modifies v`faults
    ensures v.Valid() && v.Extends()
    ensures ok ==> Unused(v.disk, InProgress(id))
    ensures !ok ==> v.faults > old(v.faults)
  {
    SomeUnused(v.disk);
    id :| Unused(v.disk, InProgress(id));
    ok := v.Attempt();
  }

  /** The checks before a stage is made: no stage may be left from an earlier run. */
  method Admit(v: Volume, codec: Codec) returns (ok: bool)
    requires v.Valid()
    modifies v`faults
    ensures v.Valid() && v.Extends()
    ensures ok ==> StageNames(v.disk.root) == {} && forall n :: n in v.disk.root ==> EntryValid(codec, v.disk, n)
    ensures !ok ==> v.faults > old(v.faults) || StageNames(v.disk.root) != {}
                    || exists n :: n in v.disk.root && !EntryValid(codec, v.disk, n)
  {
    hide Volume.Valid, EntryValid, NameLess, Order, PreparedTimes, SortedBy;
    ok := v.Attempt();
    if !ok {
      return;
    }
    var s;
    ok, s := Inspect(v, codec);
    if !ok {
      return;
    }
    if |s.incomplete| != 0 {
      assert s.incomplete[0] in Elems(s.incomplete);
      return false;
    }
    assert s.incomplete == [];
    ok := v.Attempt();
  }

  /**
   * Every deletion name there is what is left of one before, or of a valid backup; and every
   * backup that is still there is as it was.
   */
  ghost predicate Deletions(codec: Codec, d: Disk, e: Disk) {
    && (forall n :: n in e.root && n.Deleting? ==> Shrunk(d, e, n) || FromBackup(codec, d, e, n))
    && forall n :: n in e.root && n.Backup? && n in d.root ==> SameTree(d, e, n)
  }

  /** Interrupted deletions can be retried: what is left of a good one is good, and so is a valid backup. */
  lemma DeletionsGood(codec: Codec, d: Disk, e: Disk)
    requires Deletions(codec, d, e) && GoodPending(d)
    ensures GoodPending(e)
  {
    hide Remainder, ValidBackup, SafeTree;
    forall n | n in e.root && n.Deleting? ensures PendingGood(e, n) {
      if Shrunk(d, e, n) {
        RemainderIsSafe(e.trees[e.root[n]], d.trees[d.root[n]]);
      } else {
        ValidIsSafe(codec, d.trees[d.root[Backup(n.id)]]);
        RemainderIsSafe(e.trees[e.root[n]], d.trees[d.root[Backup(n.id)]]);
      }
    }
  }

  /** What the run reports to the proof: how far it came, and with which tree. */
  datatype Run = Run(progress: Progress, id: Bytes, ino: Ino, tree: Tree, uncertain: bool)

  /** Everything a run of `backup` may have done to the disk `d`. */
  ghost predicate RunKeeps(codec: Codec, d: Disk, e: Disk, keep: int, run: Run) {
    var n, completed := InProgress(run.id), Backup(run.id);
    && StillThere(d, e, Removable(codec, d, keep)) && Deletions(codec, d, e)
    && (forall m :: m in e.root && m !in d.root ==> m == n || m == completed || m.Deleting?)
    && (run.progress != Promoted ==> StageKept(codec, d, e, n, completed, run.ino, run.tree, run.progress))
    && (run.progress == Staged && !StageAsLeft(d, e, n, run.ino, run.tree) ==> !run.uncertain && SafeTree(run.tree))
    && (run.uncertain ==> run.progress == Staged)
    && (run.progress == Promoted ==>
          && completed !in d.root && completed in e.root && e.root[completed] == run.ino && run.ino in e.trees
          && KeepsPrepared(run.tree, e.trees[run.ino]) && Intact(codec, e.trees[run.ino])
          && StageNames(e.root) == {} && AllEntriesValid(codec, d))
  }

  ghost predicate AllEntriesValid(codec: Codec, d: Disk) {
    forall n :: n in d.root ==> EntryValid(codec, d, n)
  }

  /** The run is the one its events tell of. */
  ghost predicate RunTells(news: seq<Event>, run: Run) {
    Tells(news, run.ino, run.progress, run.uncertain, run.tree)
  }

  lemma NothingTells(codec: Codec, sealed: map<Ino, Tree>, run: Run)
    requires run.progress == NotStaged && !run.uncertain
    ensures RunTells([], run) && NewIntact(codec, sealed, sealed)
  {
  }

  predicate IsAt(d: Disk, n: Name, i: Ino) {
    n in d.root && d.root[n] == i && i in d.trees
  }

  /**
   * What a run owes to its stage, by the events alone. A tree with its metadata written is
   * all there, under exactly one of the two names; one that a child may still be writing to
   * is untouched; any other is untouched, or its tree was safe and is gone but for a
   * remainder.
   */
  ghost predicate Preserved(news: seq<Event>, d: Disk, id: Bytes) {
    var stage, completed := InProgress(id), Backup(id);
    && (forall e :: e in news && Prepares(e) ==>
          && (IsAt(d, stage, e.ino) <==> !IsAt(d, completed, e.ino))
          && e.ino in d.trees && KeepsPrepared(e.tree, d.trees[e.ino]))
    && (forall e :: e in news && LeavesUncertain(e) ==> IsAt(d, stage, e.ino) && d.trees[e.ino] == e.tree)
    && (news != [] && !(exists e :: e in news && (Prepares(e) || LeavesUncertain(e))) ==>
          var last := news[|news| - 1];
          if IsAt(d, stage, last.ino)
          then d.trees[last.ino] == last.tree || (SafeTree(last.tree) && Remainder(d.trees[last.ino], last.tree))
          else SafeTree(last.tree))
  }

  lemma RunPreserves(codec: Codec, d: Disk, e: Disk, keep: int, run: Run, news: seq<Event>)
    requires RunKeeps(codec, d, e, keep, run) && RunTells(news, run) && StageNames(d.root) == {}
    ensures Preserved(news, e, run.id)
  {
    hide Removable, StillThere, Intact, KeepsPrepared, SafeTree, StageNames, Prepares, LeavesUncertain, Deletions, Remainder;
    NoStage(d, InProgress(run.id));
    if run.progress == Promoted {
      NoStage(e, InProgress(run.id));
    }
    if news != [] {
      assert news[|news| - 1] in news;
    }
  }

  lemma NothingPreserved(d: Disk, id: Bytes)
    ensures Preserved([], d, id)
  {
  }

  // ---------- the backups in crash images ----------

  ghost predicate AllValid(codec: Codec, sealed: map<Ino, Tree>) {
    forall i :: i in sealed ==> ValidBackup(codec, sealed[i])
  }

  /** Whatever a crash leaves of this disk, every backup in it is valid. */
  ghost predicate ImagesValid(codec: Codec, d: Disk) {
    forall img, n :: CrashImage(d, img) && n in img.root && n.Backup? ==> ValidBackup(codec, img.trees[img.root[n]])
  }

  lemma SafeImagesValid(codec: Codec, d: Disk, sealed: map<Ino, Tree>)
    requires Safe(d, sealed) && AllValid(codec, sealed)
    ensures ImagesValid(codec, d)
  {
    hide Safe, ValidBackup;
    forall img, n | CrashImage(d, img) && n in img.root && n.Backup? ensures ValidBackup(codec, img.trees[img.root[n]]) {
      SafeImages(d, sealed, img, n);
    }
  }

  /** So an inventory after a crash finds nothing invalid but perhaps a stage. */
  lemma InventoryAfterCrash(codec: Codec, d: Disk, img: Image, next: Ino, n: Name)
    requires ImagesValid(codec, d) && CrashImage(d, img) && n in img.root && !IsStage(n)
    ensures EntryValid(codec, Restarted(img, next), n)
  {
  }

  lemma StillAllValid(codec: Codec, old': map<Ino, Tree>, now: map<Ino, Tree>)
    requires NewIntact(codec, old', now) && forall i :: i in old' ==> i in now && now[i] == old'[i]
    ensures AllValid(codec, old') ==> AllValid(codec, now)
  {
  }

  /** The same for all states from `from` on. */
  ghost predicate ValidSince(codec: Codec, h: seq<Disk>, from: nat) {
    forall k :: from <= k < |h| ==> ImagesValid(codec, h[k])
  }

  lemma HistoryValid(v: Volume, codec: Codec, from: nat)
    requires v.Valid()
    ensures AllValid(codec, v.sealed) ==> ValidSince(codec, v.history, from)
  {
    hide Safe, AllValid, ImagesValid;
    if AllValid(codec, v.sealed) {
      forall k | from <= k < |v.history| ensures ImagesValid(codec, v.history[k]) {
        SafeImagesValid(codec, v.history[k], v.sealed);
      }
    }
  }

  // ---------- which backups go ----------

  /** The older backups that stay and are newer than `m`. */
  ghost function NewerStaying(codec: Codec, d: Disk, e: Disk, m: Name): set<Name> {
    set n | n in d.root && n.Backup? && n in e.root && Newer(codec, d, n, m)
  }

  /** A backup only goes if `keep - 1` older backups that are newer than it stay. */
  ghost predicate OldestGo(codec: Codec, d: Disk, e: Disk, keep: int) {
    forall m :: m in d.root && m.Backup? && m !in e.root ==> |NewerStaying(codec, d, e, m)| >= keep - 1
  }

  lemma KeptIsNewer(codec: Codec, d: Disk, keep: int, n: Name, m: Name)
    requires AllEntriesValid(codec, d)
    requires n in KeptPrior(codec, d, keep) && m in BackupNames(d.root) - KeptPrior(codec, d, keep)
    ensures Newer(codec, d, n, m)
  {
    hide EntryValid, PreparedTime, Before, Newer;
    KeptPrecede(PreparedTimes(codec, d), BackupNames(d.root), keep, n, m);
    BeforeIsNewer(codec, d, n, m);
  }

  lemma RunDropsOldest(codec: Codec, d: Disk, e: Disk, keep: int, run: Run)
    requires RunKeeps(codec, d, e, keep, run) && keep >= 1
    ensures OldestGo(codec, d, e, keep)
  {
    forall m | m in d.root && m.Backup? && m !in e.root ensures |NewerStaying(codec, d, e, m)| >= keep - 1 {
      GoneIsBeyond(codec, d, e, keep, run, m);
      EnoughStay(codec, d, e, keep, m);
    }
  }

  lemma GoneIsBeyond(codec: Codec, d: Disk, e: Disk, keep: int, run: Run, m: Name)
    requires RunKeeps(codec, d, e, keep, run) && m in d.root && m.Backup? && m !in e.root
    ensures AllEntriesValid(codec, d) && m in BackupNames(d.root) - KeptPrior(codec, d, keep)
    ensures forall n :: n in KeptPrior(codec, d, keep) ==> n in e.root
  {
    hide KeptPrior, Intact, KeepsPrepared, SafeTree, Deletions, EntryValid, Remainder;
    KeptIsPrior(codec, d, keep);
    assert m in Removable(codec, d, keep);
    assert run.progress == Promoted;
    forall n | n in KeptPrior(codec, d, keep) ensures n in e.root {
      assert SameTree(d, e, n);
    }
  }

  lemma KeptIsPrior(codec: Codec, d: Disk, keep: int)
    ensures KeptPrior(codec, d, keep) <= BackupNames(d.root)
  {
    hide PreparedTime, Before;
  }

  lemma EnoughStay(codec: Codec, d: Disk, e: Disk, keep: int, m: Name)
    requires AllEntriesValid(codec, d) && keep >= 1 && m in BackupNames(d.root) - KeptPrior(codec, d, keep)
    requires forall n :: n in KeptPrior(codec, d, keep) ==> n in e.root
    ensures |NewerStaying(codec, d, e, m)| >= keep - 1
  {
    hide EntryValid, PreparedTime, Before, Newer, Kept;
    var prior, kept := BackupNames(d.root), KeptPrior(codec, d, keep);
    KeptIsPrior(codec, d, keep);
    KeptSize(PreparedTimes(codec, d), prior, keep);
    SubsetSize(kept, prior);
    forall n | n in kept ensures n in NewerStaying(codec, d, e, m) {
      KeptIsNewer(codec, d, keep, n, m);
    }
    SubsetSize(kept, NewerStaying(codec, d, e, m));
  }

  /** Every other backup there was there before, and leads to the same unchanged tree. */
  ghost predicate BackupsUntouched(d: Disk, e: Disk, completed: Name) {
    forall n :: n in e.root && n.Backup? && n != completed ==>
      && n in d.root && e.root[n] == d.root[n] && e.root[n] in e.trees && d.root[n] in d.trees
      && e.trees[e.root[n]] == d.trees[d.root[n]]
  }

  lemma RunTouchesNone(codec: Codec, d: Disk, e: Disk, keep: int, run: Run)
    requires RunKeeps(codec, d, e, keep, run)
    ensures BackupsUntouched(d, e, Backup(run.id))
  {
    hide Removable, Intact, KeepsPrepared, SafeTree, Remainder, FromBackup, AllEntriesValid, StageNames;
  }

  /** What a successful run leaves, name by name: the new backup, and the newest of the older ones, `keep` in all. */
  ghost predicate RetainedRules(codec: Codec, d: Disk, e: Disk, keep: int, completed: Name) {
    && completed !in d.root && completed in e.root
    && (forall n :: n in e.root ==> !n.InProgress? && !n.LegacyInProgress? && !n.Deleting?)
    && BackupsUntouched(d, e, completed)
    && (forall n, m :: n in d.root && n.Backup? && n in e.root && m in d.root && m.Backup? && m !in e.root ==>
          Newer(codec, d, n, m))
    && var prior := |set n | n in d.root && n.Backup?|;
       |set n | n in e.root && n.Backup?| == if prior + 1 <= keep then prior + 1 else keep
  }

  lemma RetainedExactly(codec: Codec, d: Disk, e: Disk, keep: int, completed: Name)
    requires Retained(codec, d, e, keep, completed) && completed.Backup? && keep >= 1
    requires StageNames(d.root) == {} && AllEntriesValid(codec, d)
    ensures RetainedRules(codec, d, e, keep, completed)
  {
    hide Intact, EntryValid, Newer, Settled, KeptPrior;
    RetainedNames(codec, d, e, keep, completed);
    KeptIsPrior(codec, d, keep);
    var kept := KeptPrior(codec, d, keep);
    assert BackupNames(e.root) == set n | n in e.root && n.Backup?;
    assert BackupNames(d.root) == set n | n in d.root && n.Backup?;
    forall n | n in e.root && n.Backup? ensures n == completed || n in kept {
      assert n in BackupNames(e.root);
    }
    forall n | n in e.root ensures !n.InProgress? && !n.LegacyInProgress? && !n.Deleting? {
      assert n !in StageNames(e.root) && n !in DeletingNames(e.root);
    }
    forall n, m | n in d.root && n.Backup? && n in e.root && m in d.root && m.Backup? && m !in e.root
      ensures Newer(codec, d, n, m)
    {
      assert m !in BackupNames(e.root);
      KeptIsNewer(codec, d, keep, n, m);
    }
    forall n | n in e.root && n.Backup? && n != completed ensures SameTree(d, e, n) {
      assert n !in Removable(codec, d, keep);
    }
  }

  // ---------- when a run succeeds ----------

  /** Nothing but the run itself could keep it from succeeding. */
  ghost predicate NothingInTheWay(codec: Codec, d: Disk, news: seq<Event>, id: Bytes) {
    && (forall n :: n in d.root ==> d.root[n] in d.trees && !n.InProgress? && !n.LegacyInProgress?)
    && (forall n :: n in d.root && n.Backup? ==> BackupRules(codec, d.trees[d.root[n]]))
    && (forall n :: n in d.root && n.Deleting? ==> SafeTree(d.trees[d.root[n]]) && d.trees[d.root[n]].top.Dir?)
    && Backup(id) !in d.root && ChildFit(codec, news)
  }

  /** No reason for a failure is left when nothing is in the way. */
  lemma NoExcuse(codec: Codec, d: Disk, run: Run, news: seq<Event>)
    requires NothingInTheWay(codec, d, news, run.id)
    ensures StageNames(d.root) == {} && !RunExcuse(codec, d, run, news)
  {
    FitIsDone(codec, news);
    NotAtFault(codec, news);
    hide EntryValid, ChildDone, ChildAtFault, BackupRules, SafeTree, ChildFit;
    NoStagesVisible(d);
    forall n | n in d.root ensures EntryValid(codec, d, n) {
      EntryExactly(codec, d, n);
    }
  }

  lemma NotAtFault(codec: Codec, news: seq<Event>)
    requires ChildDone(codec, news)
    ensures !ChildAtFault(codec, news)
  {
    hide Preparable, ValidVersion;
  }

  // ---------- the backups that stay ----------

  predicate EverywhereThere(d: Disk, n: Name) {
    n in d.root && forall r :: r in d.possible ==> n in r && r[n] == d.root[n]
  }

  /** The older backups that the run is to keep and that every crash at its start would leave. */
  ghost function Certain(codec: Codec, d: Disk, keep: int): Root {
    map n | n in KeptPrior(codec, d, keep) && EverywhereThere(d, n) :: d.root[n]
  }

  lemma CertainAssured(codec: Codec, d: Disk, keep: int)
    ensures Assures(d, Certain(codec, d, keep)) && Certain(codec, d, keep).Keys <= KeptPrior(codec, d, keep)
  {
  }

  /** When the root is synced these are all the backups to keep. */
  lemma SettledCertain(codec: Codec, d: Disk, keep: int)
    requires Settled(d)
    ensures Certain(codec, d, keep).Keys == KeptPrior(codec, d, keep)
  {
    hide Before, PreparedTime;
  }

  /** In every crash image of a later state, each of them is there with the tree it had. */
  lemma KeptImages(codec: Codec, d: Disk, e: Disk, keep: int, sealed: map<Ino, Tree>, now: map<Ino, Tree>, img: Image, n: Name)
    requires Safe(d, sealed) && Safe(e, now) && forall i :: i in sealed ==> i in now && now[i] == sealed[i]
    requires Assures(e, Certain(codec, d, keep)) && CrashImage(e, img) && n in Certain(codec, d, keep)
    ensures n in img.root && img.root[n] == d.root[n] && d.root[n] in d.trees && img.trees[img.root[n]] == d.trees[d.root[n]]
  {
    hide Safe, CrashImage, Certain;
    CertainAssured(codec, d, keep);
    AssuredImages(e, now, Certain(codec, d, keep), img, n);
    AssuredNow(d, sealed, Certain(codec, d, keep), n);
  }

  lemma AssuredNow(d: Disk, sealed: map<Ino, Tree>, names: Root, n: Name)
    requires Safe(d, sealed) && Assures(d, names) && n in names
    ensures n in d.root && d.root[n] == names[n] && names[n] in d.trees && names[n] in sealed
    ensures d.trees[names[n]] == sealed[names[n]]
  {
  }

  /** All states from `from` on assure these backups. */
  ghost predicate AssuredSince(h: seq<Disk>, from: nat, names: Root) {
    forall k :: from <= k < |h| ==> Assures(h[k], names)
  }

  /** No state from `from` on shows a second stage. */
  predicate OneStageSince(h: seq<Disk>, from: nat) {
    forall k :: from <= k < |h| ==> OneStage(h[k])
  }

  lemma PromiseHeld(v: Volume, from: nat)
    requires v.Valid() && v.since <= from
    ensures Covered(v.history, from, v.promise.floor) && AssuredSince(v.history, from, v.promise.names)
    ensures v.promise.oneStage ==> OneStageSince(v.history, from)
  {
  }

  /** A stage that failed before its metadata, safely and with certain containment, is gone. */
  predicate CleanedUp(d: Disk, e: Disk, run: Run) {
    run.progress == Staged && !run.uncertain && SafeTree(run.tree) ==> e.root == d.root
  }

  /** The states since the start of the run all cover `m` backups. */
  ghost predicate Covered(h: seq<Disk>, from: nat, m: nat) {
    forall k :: from <= k < |h| ==> Covers(h[k], m)
  }

  /** Where no tree behind an old name has changed, and no deletion name is new. */
  lemma SameDeletions(codec: Codec, d: Disk, e: Disk, sealed: map<Ino, Tree>)
    requires StillThere(d, e, {}) && Safe(e, sealed) && forall n :: n in e.root && n.Deleting? ==> n in d.root
    ensures Deletions(codec, d, e)
  {
    hide Complete, Sound;
    assert RootSafe(e, sealed, e.root);
    forall n | n in e.root && n.Deleting? ensures Shrunk(d, e, n) {
      assert SameTree(d, e, n);
      WholeRemainder(e.trees[e.root[n]]);
    }
  }

  lemma NothingRun(codec: Codec, d: Disk, sealed: map<Ino, Tree>, keep: int, run: Run)
    requires Safe(d, sealed) && run.progress == NotStaged && !run.uncertain
    ensures RunKeeps(codec, d, d, keep, run)
  {
    hide Removable, Intact, Remainder;
    AllStay(d, sealed, Removable(codec, d, keep));
    SameDeletions(codec, d, d, sealed);
  }

  lemma StagedRun(codec: Codec, d: Disk, e: Disk, keep: int, run: Run, sealed: map<Ino, Tree>)
    requires (run.progress == Staged || run.progress == Prepared) && Safe(e, sealed)
    requires StageKept(codec, d, e, InProgress(run.id), Backup(run.id), run.ino, run.tree, run.progress)
    requires run.progress == Staged && !StageAsLeft(d, e, InProgress(run.id), run.ino, run.tree) ==>
               !run.uncertain && SafeTree(run.tree)
    requires run.uncertain ==> run.progress == Staged
    ensures RunKeeps(codec, d, e, keep, run)
  {
    hide Removable, Intact, SafeTree, KeepsPrepared, SameTree, Safe, Deletions, Remainder;
    SameDeletions(codec, d, e, sealed);
  }

  /** What retention leaves of deletions, told of the disk before the run. */
  lemma DeletionsBefore(codec: Codec, d: Disk, d2: Disk, e: Disk, completed: Name, i: Ino)
    requires OneMore(d, d2, completed, i) && Retires(codec, d2, e) && Injective(e.root)
    requires completed in e.root
    ensures Deletions(codec, d, e)
  {
    hide Remainder, ValidBackup;
    assert SameTree(d2, e, completed);
    forall n | n in e.root && n.Backup? && n in d.root ensures SameTree(d, e, n) {
      assert SameTree(d, d2, n) && SameTree(d2, e, n);
    }
    forall n | n in e.root && n.Deleting? ensures Shrunk(d, e, n) || FromBackup(codec, d, e, n) {
      if Shrunk(d2, e, n) {
        assert SameTree(d, d2, n);
      } else {
        assert SameTree(d, d2, Backup(n.id));
      }
    }
  }

  lemma PromotedRun(codec: Codec, d: Disk, d2: Disk, e: Disk, keep: int, run: Run)
    requires run.progress == Promoted && !run.uncertain && StageNames(d.root) == {} && AllEntriesValid(codec, d)
    requires StageKept(codec, d, d2, InProgress(run.id), Backup(run.id), run.ino, run.tree, Promoted)
    requires OthersStay(d2, e, Removable(codec, d, keep)) && Retires(codec, d2, e) && Injective(e.root)
    ensures RunKeeps(codec, d, e, keep, run)
    ensures Trimmed(d2, e, Removable(codec, d, keep)) ==> Retained(codec, d, e, keep, Backup(run.id))
  {
    hide Intact, SafeTree, KeepsPrepared, KeptPrior, Retires, Deletions, EntryValid;
    var gone, completed := Removable(codec, d, keep), Backup(run.id);
    assert completed !in gone;
    assert SameTree(d2, e, completed);
    DeletionsBefore(codec, d, d2, e, completed, run.ino);
    forall n | n in d.root && n !in gone ensures SameTree(d, e, n) {
      assert SameTree(d, d2, n) && SameTree(d2, e, n);
    }
    forall n | n in e.root ensures n !in StageNames(e.root) {
      assert n in d.root ==> n !in StageNames(d.root);
    }
    if Trimmed(d2, e, gone) {
      assert e.root - {completed} == d.root - gone;
    }
  }

  /** The same excuses, told of the disk before the run. */
  lemma ExcuseBefore(v: Volume, codec: Codec, d: Disk, d2: Disk, completed: Name, i: Ino, faults: nat)
    requires OneMore(d, d2, completed, i) && Intact(codec, d2.trees[i])
    requires AllEntriesValid(codec, d)
    requires Excuse(v, codec, d2, faults)
    ensures v.faults > faults || exists n :: n in DeletingNames(d.root) && !PendingGood(d, n)
  {
    hide SafeTree, ValidRoot;
    forall n | n in d2.root ensures EntryValid(codec, d2, n) {
      if n in d.root {
        assert EntryValid(codec, d, n) && SameTree(d, d2, n);
      }
    }
    forall n | n in DeletingNames(d2.root) ensures n in DeletingNames(d.root) && (PendingGood(d2, n) <==> PendingGood(d, n)) {
      assert SameTree(d, d2, n);
    }
  }

  /**
   * Why a run from the disk `d` may end without a completed backup, when no operation has
   * failed: an invalid entry, a child that has failed or left what cannot be prepared or
   * sealed, a taken name, or a pending deletion that cannot be removed.
   */
  ghost predicate RunExcuse(codec: Codec, d: Disk, run: Run, news: seq<Event>) {
    match run.progress
    case NotStaged => exists n :: n in d.root && !EntryValid(codec, d, n)
    case Staged => ChildAtFault(codec, news)
    case Prepared => !ChildFit(codec, news) || Backup(run.id) in d.root
    case Promoted => exists n :: n in DeletingNames(d.root) && !PendingGood(d, n)
  }

  /** A run from its new stage on; `d` is the disk before the run. */
  method RunFromStage(v: Volume, codec: Codec, keep: int, id: Bytes, i: Ino, ghost d: Disk)
      returns (out: Outcome, ghost run: Run)
    requires v.Valid() && WritesFormat2(codec) && keep >= 1 && Keepable(v.promise, codec, d, keep)
    requires Holds(v.disk, v.sealed, InProgress(id), i) && WithStage(d, v.disk, InProgress(id), i)
    requires StageNames(d.root) == {} && AllEntriesValid(codec, d)
    requires v.disk.trees[i] == EMPTY_DIR
    modifies v`disk, v`history, v`faults, v`sealed, v`events
    ensures v.Valid() && v.Extends() && RunKeeps(codec, d, v.disk, keep, run)
    ensures RunTells(v.News(), run) && NewIntact(codec, old(v.sealed), v.sealed)
    ensures out.Done? ==> Retained(codec, d, v.disk, keep, Backup(out.id))
    ensures out == NotDone ==> v.faults > old(v.faults) || RunExcuse(codec, d, run, v.News())
    ensures CleanedUp(d, v.disk, run) || v.faults > old(v.faults)
  {
    hide Volume.Valid, RunKeeps, Retained, EntryValid, PendingGood, DeletingNames, StageNames, StageKept, BackupNames,
         WithStage, Holds, WritesFormat2, OthersStay, Trimmed, Removable, Excuse, SafeTree, StageAsLeft, OneMore, Intact,
         Tells, NewIntact, ChildAtFault, ChildFit, PreparedBy, Retires, Keepable, Safe;
    var n, completed := InProgress(id), Backup(id);
    out := NotDone;
    var p, uncertain;
    ghost var tree;
    p, uncertain, tree := Stage(v, codec, n, completed, i, d);
    run := Run(p, id, i, tree, uncertain);
    if p != Promoted {
      v.Now();
      StagedRun(codec, d, v.disk, keep, run, v.sealed);
      return;
    }
    ghost var d2 := v.disk;
    ghost var faults := v.faults;
    PromotedFacts(codec, d, d2, n, completed, i, tree);
    var ok := Finish(v, codec, completed, keep, d, i);
    RootInjective(v);
    PromotedRun(codec, d, d2, v.disk, keep, run);
    if ok {
      out := Done(id);
    } else {
      ExcuseBefore(v, codec, d, d2, completed, i, faults);
    }
  }

  /** The body of a run, under the promise already made. */
  method RunPromised(v: Volume, codec: Codec, keep: int) returns (out: Outcome, ghost run: Run)
    requires v.Valid() && WritesFormat2(codec) && keep >= 1 && Keepable(v.promise, codec, v.disk, keep)
    modifies v`disk, v`history, v`faults, v`sealed, v`events
    ensures v.Valid() && v.Extends() && RunTells(v.News(), run) && NewIntact(codec, old(v.sealed), v.sealed)
    ensures StageNames(old(v.disk.root)) != {} ==>
              out == NotDone && v.disk == old(v.disk) && v.history == old(v.history) && v.News() == []
    ensures StageNames(old(v.disk.root)) == {} ==> RunKeeps(codec, old(v.disk), v.disk, keep, run)
    ensures out.Done? ==> Retained(codec, old(v.disk), v.disk, keep, Backup(out.id)) && AllEntriesValid(codec, old(v.disk))
    ensures StageNames(old(v.disk.root)) == {} && out == NotDone ==>
              v.faults > old(v.faults) || RunExcuse(codec, old(v.disk), run, v.News())
    ensures StageNames(old(v.disk.root)) == {} ==> CleanedUp(old(v.disk), v.disk, run) || v.faults > old(v.faults)
  {
    hide Volume.Valid, Safe, Covers, RunKeeps, Retained, EntryValid, PendingGood, DeletingNames, StageNames, BackupNames,
         WithStage, Holds, Created, WritesFormat2, Unused, Tells, NewIntact, RunTells,
         Keepable, Meets;
    ghost var d := v.disk;
    out, run := NotDone, Run(NotStaged, [], 0, EMPTY_DIR, false);
    v.Now();
    NothingRun(codec, d, v.sealed, keep, run);
    NothingTells(codec, v.sealed, run);
    assert v.News() == [];
    var ok := Admit(v, codec);
    if !ok {
      return;
    }
    var id;
    ok, id := Token(v);
    if !ok {
      return;
    }
    var n := InProgress(id);
    SealedBelow(v);
    NoStage(d, n);
    var i;
    ok, i := v.Mkdir(n);
    if !ok {
      return;
    }
    CreatedHolds(d, v.sealed, n);
    CreatedStage(d, v.sealed, n);
    CreatedEmpty(d, n);
    assert AllEntriesValid(codec, d);
    out, run := RunFromStage(v, codec, keep, id, i, d);
  }

  /**
   * One run of `backup`. `m` is any number of backups that every crash would leave at the
   * start and that the limit allows.
   */
  method BackupRun(v: Volume, codec: Codec, keep: int, ghost m: nat) returns (out: Outcome, ghost run: Run)
    requires v.Valid() && WritesFormat2(codec) && keep >= 1 && m <= keep && Covers(v.disk, m)
    modifies v
    ensures v.Valid() && v.Grows() && v.since == |old(v.history)| - 1 && v.promise.floor == m
    // crashes
    ensures Covered(v.history, |old(v.history)|, m)
    ensures AssuredSince(v.history, |old(v.history)|, Certain(codec, old(v.disk), keep))
    ensures AllValid(codec, old(v.sealed)) ==> AllValid(codec, v.sealed) && ValidSince(codec, v.history, |old(v.history)|)
    // stages
    ensures Preserved(v.News(), v.disk, run.id)
    ensures RunTells(v.News(), run) && NewIntact(codec, old(v.sealed), v.sealed)
    ensures StageNames(old(v.disk.root)) != {} ==>
              out == NotDone && v.disk == old(v.disk) && v.history == old(v.history) && v.News() == []
    ensures OneStage(old(v.disk)) ==> OneStageSince(v.history, |old(v.history)|)
    ensures StageNames(old(v.disk.root)) == {} ==> CleanedUp(old(v.disk), v.disk, run) || v.faults > old(v.faults)
    // retention
    ensures StageNames(old(v.disk.root)) == {} ==> RunKeeps(codec, old(v.disk), v.disk, keep, run)
    ensures GoodPending(old(v.disk)) ==> GoodPending(v.disk)
    ensures OldestGo(codec, old(v.disk), v.disk, keep) && BackupsUntouched(old(v.disk), v.disk, Backup(run.id))
    // success
    ensures out.Done? ==> Retained(codec, old(v.disk), v.disk, keep, Backup(out.id))
    ensures out.Done? ==> RetainedRules(codec, old(v.disk), v.disk, keep, Backup(out.id))
    ensures StageNames(old(v.disk.root)) == {} && out == NotDone ==>
              v.faults > old(v.faults) || RunExcuse(codec, old(v.disk), run, v.News())
    ensures v.faults == old(v.faults) && NothingInTheWay(codec, old(v.disk), v.News(), run.id) ==> out.Done?
    ensures (exists n :: n in old(v.disk.root) && (n.InProgress? || n.LegacyInProgress?)) ==>
              out == NotDone && v.disk == old(v.disk)
  {
    hide Safe, Covers, RunKeeps, Retained, PendingGood, GoodPending, DeletingNames, StageNames, RunTells, Preserved, NewIntact,
         AllValid, ValidSince, OneStage, OneStageSince, Covered, AssuredSince, Certain, Meets, OldestGo, RetainedRules,
         BackupsUntouched, NothingInTheWay, RunExcuse, AllEntriesValid;
    Undertaking(v, codec, keep, m);
    v.Undertake(Promise(m, Certain(codec, v.disk, keep), OneStage(v.disk)));
    out, run := RunPromised(v, codec, keep);
    if StageNames(old(v.disk.root)) == {} {
      RunPreserves(codec, old(v.disk), v.disk, keep, run, v.News());
      RunGood(codec, old(v.disk), v.disk, keep, run);
      RunDropsOldest(codec, old(v.disk), v.disk, keep, run);
      RunTouchesNone(codec, old(v.disk), v.disk, keep, run);
      if out.Done? {
        RetainedExactly(codec, old(v.disk), v.disk, keep, Backup(out.id));
      }
    } else {
      NothingPreserved(v.disk, run.id);
      v.Now();
      NothingGoes(codec, v.disk, v.sealed, keep, run);
    }
    NoStagesVisible(old(v.disk));
    if NothingInTheWay(codec, old(v.disk), v.News(), run.id) {
      NoExcuse(codec, old(v.disk), run, v.News());
    }
    StillAllValid(codec, old(v.sealed), v.sealed);
    HistoryValid(v, codec, |old(v.history)|);
    PromiseHeld(v, |old(v.history)|);
  }

  lemma Undertaking(v: Volume, codec: Codec, keep: int, m: nat)
    requires v.Valid() && Covers(v.disk, m) && m <= keep
    ensures Meets(v.disk, Promise(m, Certain(codec, v.disk, keep), OneStage(v.disk)))
    ensures Keepable(Promise(m, Certain(codec, v.disk, keep), OneStage(v.disk)), codec, v.disk, keep)
  {
  }

  lemma RunGood(codec: Codec, d: Disk, e: Disk, keep: int, run: Run)
    requires RunKeeps(codec, d, e, keep, run)
    ensures Deletions(codec, d, e) && (GoodPending(d) ==> GoodPending(e))
  {
    hide RunKeeps, Deletions, GoodPending;
    RunDeletions(codec, d, e, keep, run);
    if GoodPending(d) {
      DeletionsGood(codec, d, e);
    }
  }

  lemma NothingGoes(codec: Codec, d: Disk, sealed: map<Ino, Tree>, keep: int, run: Run)
    requires Safe(d, sealed)
    ensures OldestGo(codec, d, d, keep) && BackupsUntouched(d, d, Backup(run.id))
  {
    assert RootSafe(d, sealed, d.root);
  }

  lemma NoStagesVisible(d: Disk)
    ensures StageNames(d.root) == {} <==> forall n :: n in d.root ==> !n.InProgress? && !n.LegacyInProgress?
  {
    if StageNames(d.root) == {} {
      forall n | n in d.root ensures !n.InProgress? && !n.LegacyInProgress? {
        assert n !in StageNames(d.root);
      }
    }
  }

  lemma NoStage(d: Disk, n: Name)
    requires StageNames(d.root) == {} && n.InProgress?
    ensures n !in d.root
  {
    assert n !in StageNames(d.root);
  }

  lemma RootInjective(v: Volume)
    requires v.Valid()
    ensures Injective(v.disk.root)
  {
  }

  lemma SealedBelow(v: Volume)
    requires v.Valid()
    ensures forall i :: i in v.sealed ==> i < v.disk.next
  {
  }

  lemma PromotedFacts(codec: Codec, d: Disk, e: Disk, n: Name, completed: Name, i: Ino, tree: Tree)
    requires StageKept(codec, d, e, n, completed, i, tree, Promoted)
    ensures OneMore(d, e, completed, i) && Intact(codec, e.trees[i])
  {
    hide OneMore, Intact, KeepsPrepared;
  }

  // ---------- series of runs ----------

  /** What happens to the volume: a run with some limit, or a crash and a restart. */
  datatype Step = RunWith(keep: int) | PowerLoss

  /** At most one stage; and while there is one, the visible root stays as it is. */
  ghost predicate Gate(d: Disk, e: Disk) {
    && (|StageNames(d.root)| <= 1 ==> |StageNames(e.root)| <= 1)
    && (StageNames(d.root) != {} ==> e == d)
  }

  lemma RunGate(codec: Codec, d: Disk, e: Disk, keep: int, run: Run)
    requires StageNames(d.root) == {} && RunKeeps(codec, d, e, keep, run)
    ensures Gate(d, e)
  {
    hide Removable, StillThere, Intact, KeepsPrepared, SafeTree;
    var n := InProgress(run.id);
    forall m | m in e.root && run.progress != Promoted && run.progress != NotStaged ensures m in StageNames(e.root) ==> m == n {
      assert m in d.root ==> m !in StageNames(d.root);
    }
    if run.progress == Staged || run.progress == Prepared {
      assert StageNames(e.root) <= {n};
      SubsetSize(StageNames(e.root), {n});
    }
  }

  /** A crash in any state since the promise, leaving any image it can leave. */
  method PowerFails(v: Volume)
    requires v.Valid()
    modifies v
    ensures v.Valid() && v.Grows() && v.since == old(v.since) && v.sealed == old(v.sealed)
    ensures v.promise.floor == old(v.promise.floor) && v.history == old(v.history) + [v.disk]
    ensures exists k, img :: v.since <= k < |old(v.history)| && CrashImage(old(v.history)[k], img)
                             && v.disk == Restarted(img, old(v.disk.next))
  {
    hide Safe, Covers, RootSafe, Plausible;
    var k: nat := *;
    if k < v.since || k >= |v.history| {
      k := v.since;
    }
    var d := v.history[k];
    InPossible(d, v.sealed);
    var r :| r in d.possible;
    var trees: map<Ino, Tree> := *;
    if !Plausible(d, r, trees) {
      r, trees := d.root, d.trees;
      PlausibleNow(d, v.sealed);
    }
    PlausibleImage(d, r, trees);
    v.Crash(k, Image(r, trees));
  }

  lemma InPossible(d: Disk, sealed: map<Ino, Tree>)
    requires Safe(d, sealed)
    ensures d.root in d.possible
  {
  }

  lemma PlausibleImage(d: Disk, r: Root, trees: map<Ino, Tree>)
    requires Plausible(d, r, trees) && r in d.possible
    ensures CrashImage(d, Image(r, trees))
  {
  }

  predicate Plausible(d: Disk, r: Root, trees: map<Ino, Tree>) {
    && (forall n :: n in r ==> r[n] in trees)
    && (forall i :: i in trees ==> i in d.trees && Sound(trees[i]))
    && (forall i :: i in trees && Clean(d, i) ==> trees[i] == d.trees[i])
  }

  lemma PlausibleNow(d: Disk, sealed: map<Ino, Tree>)
    requires Safe(d, sealed)
    ensures Plausible(d, d.root, d.trees)
  {
  }

  /**
   * `marks` divides the states of a series by its steps. In every state of a run, whatever a
   * crash then leaves, the backups that the run was to keep are there.
   */
  ghost predicate RunsKeep(codec: Codec, h: seq<Disk>, steps: seq<Step>, marks: seq<nat>, i: nat) {
    && i <= |steps| && |marks| == i + 1 && marks[i] == |h| - 1
    && (forall a, b :: 0 <= a <= b <= i ==> marks[a] <= marks[b])
    && forall j, k :: 0 <= j < i && steps[j].RunWith? && marks[j] <= k <= marks[j + 1] ==>
         Assures(h[k], Certain(codec, h[marks[j]], steps[j].keep))
  }

  lemma OneMoreStep(codec: Codec, h: seq<Disk>, h': seq<Disk>, steps: seq<Step>, marks: seq<nat>, i: nat)
    requires RunsKeep(codec, h, steps, marks, i) && i < |steps| && h <= h' && h != []
    requires steps[i].RunWith? ==> AssuredSince(h', |h|, Certain(codec, h[|h| - 1], steps[i].keep))
    ensures RunsKeep(codec, h', steps, marks + [|h'| - 1], i + 1)
  {
    hide Assures, Certain;
    var m := marks + [|h'| - 1];
    forall j, k | 0 <= j < i + 1 && steps[j].RunWith? && m[j] <= k <= m[j + 1]
      ensures Assures(h'[k], Certain(codec, h'[m[j]], steps[j].keep))
    {
      if j < i {
        assert h'[k] == h[k] && h'[m[j]] == h[marks[j]];
      } else if k == m[j] {
        CertainAssured(codec, h[k], steps[j].keep);
      }
    }
  }

  /** The name leads to what is left of a valid backup that was sealed at some time. */
  ghost predicate OfSealed(codec: Codec, sealed: map<Ino, Tree>, e: Disk, n: Name) {
    && n in e.root && e.root[n] in sealed && e.root[n] in e.trees
    && ValidBackup(codec, sealed[e.root[n]]) && Remainder(e.trees[e.root[n]], sealed[e.root[n]])
  }

  /** Every deletion name there is what is left of one at the start, or of a backup since. */
  ghost predicate SeriesDeletions(codec: Codec, d: Disk, e: Disk, sealed: map<Ino, Tree>) {
    forall n :: n in e.root && n.Deleting? ==> Shrunk(d, e, n) || OfSealed(codec, sealed, e, n)
  }

  lemma SeriesStep(codec: Codec, d: Disk, e: Disk, f: Disk, sealed: map<Ino, Tree>, now: map<Ino, Tree>)
    requires SeriesDeletions(codec, d, e, sealed) && Deletions(codec, e, f) && Safe(e, sealed)
    requires forall i :: i in sealed ==> i in now && now[i] == sealed[i]
    ensures SeriesDeletions(codec, d, f, now)
  {
    hide Remainder, ValidBackup, Sound;
    assert RootSafe(e, sealed, e.root);
    forall n | n in f.root && n.Deleting? ensures Shrunk(d, f, n) || OfSealed(codec, now, f, n) {
      if Shrunk(e, f, n) {
        if Shrunk(d, e, n) {
          RemainderTransitive(f.trees[f.root[n]], e.trees[e.root[n]], d.trees[d.root[n]]);
        } else {
          RemainderTransitive(f.trees[f.root[n]], e.trees[e.root[n]], sealed[e.root[n]]);
        }
      }
    }
  }

  lemma NoDeletions(codec: Codec, d: Disk, sealed: map<Ino, Tree>)
    requires Safe(d, sealed)
    ensures SeriesDeletions(codec, d, d, sealed)
  {
    hide Safe, Remainder, ValidBackup;
    NothingShrinks(d, sealed);
  }

  /** So a series leaves no pending deletion that cannot be retried. */
  lemma SeriesGood(codec: Codec, d: Disk, e: Disk, sealed: map<Ino, Tree>)
    requires SeriesDeletions(codec, d, e, sealed) && GoodPending(d)
    ensures GoodPending(e)
  {
    hide Remainder, ValidBackup, SafeTree;
    forall n | n in e.root && n.Deleting? ensures PendingGood(e, n) {
      if Shrunk(d, e, n) {
        RemainderIsSafe(e.trees[e.root[n]], d.trees[d.root[n]]);
      } else {
        ValidIsSafe(codec, sealed[e.root[n]]);
        RemainderIsSafe(e.trees[e.root[n]], sealed[e.root[n]]);
      }
    }
  }

  predicate NoCrash(steps: seq<Step>) {
    forall s :: s in steps ==> s.RunWith?
  }

  /** What holds over a series without crashes, from the disk `d` to `e`, and of the states on the way. */
  ghost predicate Undisturbed(codec: Codec, d: Disk, e: Disk, h: seq<Disk>, from: nat, sealed: map<Ino, Tree>) {
    Gate(d, e) && (OneStage(d) ==> OneStageSince(h, from)) && SeriesDeletions(codec, d, e, sealed)
  }

  lemma RunUndisturbed(codec: Codec, d0: Disk, d: Disk, h: seq<Disk>, from: nat, sealed: map<Ino, Tree>,
                       e: Disk, h': seq<Disk>, now: map<Ino, Tree>, keep: int, run: Run)
    requires Undisturbed(codec, d0, d, h, from, sealed) && Safe(d, sealed) && h <= h'
    requires forall i :: i in sealed ==> i in now && now[i] == sealed[i]
    requires StageNames(d.root) != {} ==> e == d
    requires StageNames(d.root) == {} ==> RunKeeps(codec, d, e, keep, run)
    requires OneStage(d) ==> OneStageSince(h', |h|)
    ensures Undisturbed(codec, d0, e, h', from, now)
  {
    hide Safe, SeriesDeletions, Deletions, RunKeeps, StageNames;
    GateStep(codec, d, e, keep, run);
    GateTransitive(d0, d, e);
    if StageNames(d.root) == {} {
      RunDeletions(codec, d, e, keep, run);
    } else {
      AllStay(d, sealed, {});
      SameDeletions(codec, d, d, sealed);
    }
    SeriesStep(codec, d0, d, e, sealed, now);
  }

  lemma RunDeletions(codec: Codec, d: Disk, e: Disk, keep: int, run: Run)
    requires RunKeeps(codec, d, e, keep, run)
    ensures Deletions(codec, d, e)
  {
    hide Deletions, StillThere, Removable, StageKept, Intact, KeepsPrepared, SafeTree;
  }

  lemma CoveredOn(h: seq<Disk>, h': seq<Disk>, from: nat, m: nat)
    requires Covered(h, from, m) && Covered(h', |h|, m) && h <= h'
    ensures Covered(h', from, m)
  {
  }

  lemma StillCovers(v: Volume, from: nat)
    requires v.Valid() && v.since <= from
    ensures Covers(v.disk, v.promise.floor) && Covered(v.history, from, v.promise.floor)
  {
  }

  /**
   * Any series of runs, succeeding or failing anywhere, and of crashes at any moment of
   * them. In every state ever reached, whatever a crash then leaves, each backup is complete
   * and valid, at least `m` of them are there, and among them those that the run was to keep.
   * Without crashes, no state ever shows a second stage, and what is left under a deletion
   * name can always be retried.
   */
  method Series(v: Volume, codec: Codec, steps: seq<Step>, ghost m: nat) returns (ghost marks: seq<nat>)
    requires v.Valid() && WritesFormat2(codec) && Covers(v.disk, m)
    requires forall s :: s in steps && s.RunWith? ==> s.keep >= 1 && m <= s.keep
    modifies v
    ensures v.Valid() && v.Grows() && Covered(v.history, |old(v.history)|, m)
    ensures RunsKeep(codec, v.history, steps, marks, |steps|) && marks[0] == |old(v.history)| - 1
    ensures AllValid(codec, old(v.sealed)) ==> AllValid(codec, v.sealed) && ValidSince(codec, v.history, |old(v.history)|)
    ensures NoCrash(steps) ==> Undisturbed(codec, old(v.disk), v.disk, v.history, |old(v.history)|, v.sealed)
    ensures NoCrash(steps) && GoodPending(old(v.disk)) ==> GoodPending(v.disk)
  {
    hide Safe, Covers, Covered, RunKeeps, Retained, GoodPending, CrashImage, Restarted, StageNames, DeletingNames, Meets,
         RunTells, NewIntact, AllValid, ValidSince, OneStage, OneStageSince, AssuredSince, Certain, RunsKeep, Undisturbed,
         Preserved, CleanedUp, RunExcuse, Volume.Valid, WritesFormat2;
    ghost var from := |v.history|;
    Beginning(v, codec, steps, m);
    v.Undertake(Promise(m, map[], false));
    marks := [from - 1];
    for k := 0 to |steps|
      invariant v.Valid() && v.Grows() && v.promise.floor == m && Covers(v.disk, m) && Covered(v.history, from, m)
      invariant |marks| == k + 1 && marks[0] == from - 1 && RunsKeep(codec, v.history, steps, marks, k)
      invariant AllValid(codec, old(v.sealed)) ==> AllValid(codec, v.sealed)
      invariant NoCrash(steps[..k]) ==> Undisturbed(codec, old(v.disk), v.disk, v.history, from, v.sealed)
    {
      ghost var d, h, sealed := v.disk, v.history, v.sealed;
      v.Now();
      LastState(v);
      FirstSteps(steps, k);
      match steps[k] {
        case RunWith(keep) =>
          var out;
          ghost var run;
          out, run := BackupRun(v, codec, keep, m);
          StillAllValid(codec, sealed, v.sealed);
          if NoCrash(steps[..k]) {
            RunUndisturbed(codec, old(v.disk), d, h, from, sealed, v.disk, v.history, v.sealed, keep, run);
          }
        case PowerLoss =>
          PowerFails(v);
      }
      StillCovers(v, |h|);
      CoveredOn(h, v.history, from, m);
      OneMoreStep(codec, h, v.history, steps, marks, k);
      marks := marks + [|v.history| - 1];
    }
    HistoryValid(v, codec, from);
    assert steps[..|steps|] == steps;
    if NoCrash(steps) && GoodPending(old(v.disk)) {
      SeriesEnd(codec, old(v.disk), v.disk, v.history, from, v.sealed);
    }
  }

  lemma Beginning(v: Volume, codec: Codec, steps: seq<Step>, m: nat)
    requires v.Valid() && Covers(v.disk, m)
    ensures Meets(v.disk, Promise(m, map[], false)) && Covered(v.history, |v.history|, m)
    ensures |v.history| > 0 && RunsKeep(codec, v.history, steps, [|v.history| - 1], 0)
    ensures Undisturbed(codec, v.disk, v.disk, v.history, |v.history|, v.sealed)
  {
    hide Safe, Covers, OneStage, SeriesDeletions;
    v.Now();
    NoDeletions(codec, v.disk, v.sealed);
    GateRefl(v.disk);
  }

  lemma LastState(v: Volume)
    requires v.Valid()
    ensures |v.history| > 0 && v.since < |v.history| && v.history[|v.history| - 1] == v.disk
  {
  }

  lemma FirstSteps(steps: seq<Step>, k: nat)
    requires k < |steps|
    ensures NoCrash(steps[..k + 1]) ==> NoCrash(steps[..k]) && steps[k].RunWith?
    ensures steps[k] in steps
  {
  }

  lemma SeriesEnd(codec: Codec, d: Disk, e: Disk, h: seq<Disk>, from: nat, sealed: map<Ino, Tree>)
    requires Undisturbed(codec, d, e, h, from, sealed) && GoodPending(d)
    ensures GoodPending(e)
  {
    SeriesGood(codec, d, e, sealed);
  }

  lemma GateRefl(d: Disk)
    ensures Gate(d, d)
  {
  }

  lemma GateTransitive(d: Disk, e: Disk, f: Disk)
    requires Gate(e, f)
    ensures Gate(d, e) ==> Gate(d, f)
  {
  }

  lemma GateStep(codec: Codec, d: Disk, e: Disk, keep: int, run: Run)
    requires StageNames(d.root) != {} ==> e == d
    requires StageNames(d.root) == {} ==> RunKeeps(codec, d, e, keep, run)
    ensures Gate(d, e)
  {
    hide RunKeeps;
    if StageNames(d.root) == {} {
      RunGate(codec, d, e, keep, run);
    }
  }
}
