/**
 * The backup root on a disk that may crash: what is visible, what a crash may leave of the
 * root directory, and which trees have reached the disk.
 */
module Disks {
  import opened Bytes
  import opened Sorting
  import opened Trees

  type Ino = nat

  /** A name in the backup root, by the alternative of `managedName` it matches. */
  datatype Name =
    | Backup(id: Bytes)
    | InProgress(id: Bytes)
    | LegacyInProgress(id: Bytes)
    | Deleting(id: Bytes)
    | Other(text: Bytes)

  type Root = map<Name, Ino>

  /**
   * `root` is the visible directory. `possible` holds every directory a crash may leave:
   * each change since the last sync may have survived or not, independently of the others.
   * `unsynced` lists, for each tree, the entries changed since they were last synced.
   */
  datatype Disk = Disk(
    root: Root, possible: set<Root>,
    trees: map<Ino, Tree>, unsynced: map<Ino, set<Bytes>>,
    next: Ino)

  datatype RootOp = Link(name: Name, ino: Ino) | Move(from: Name, to: Name) | Unlink(name: Name)

  function Apply(r: Root, op: RootOp): Root {
    match op
    case Link(n, i) => r[n := i]
    case Move(a, b) => if a in r then (r - {a})[b := r[a]] else r
    case Unlink(n) => r - {n}
  }

  function Update(d: Disk, op: RootOp): Disk {
    d.(root := Apply(d.root, op), possible := d.possible + set r | r in d.possible :: Apply(r, op))
  }

  function SyncRoot(d: Disk): Disk {
    d.(possible := {d.root})
  }

  function SetTree(d: Disk, i: Ino, t: Tree, changed: set<Bytes>): Disk {
    d.(trees := d.trees[i := t], unsynced := d.unsynced[i := changed])
  }

  predicate Clean(d: Disk, i: Ino) {
    i in d.trees && i in d.unsynced && d.unsynced[i] == {}
  }

  function BackupNames(r: Root): set<Name> {
    set n | n in r && n.Backup?
  }

  function StageNames(r: Root): set<Name> {
    set n | n in r && (n.InProgress? || n.LegacyInProgress?)
  }

  function DeletingNames(r: Root): set<Name> {
    set n | n in r && n.Deleting?
  }

  /** What a crash leaves. A tree with unsynced entries may have become anything. */
  datatype Image = Image(root: Root, trees: map<Ino, Tree>)

  ghost predicate CrashImage(d: Disk, img: Image) {
    && img.root in d.possible
    && (forall n :: n in img.root ==> img.root[n] in img.trees)
    && (forall i :: i in img.trees ==> i in d.trees && Sound(img.trees[i]))
    && (forall i :: i in img.trees && Clean(d, i) ==> img.trees[i] == d.trees[i])
  }

  // ---------- crash safety ----------

  /** Tree `i` is on the disk just as it was when it was sealed. */
  ghost predicate Complete(d: Disk, sealed: map<Ino, Tree>, i: Ino) {
    Clean(d, i) && i in sealed && d.trees[i] == sealed[i]
  }

  predicate Injective(r: Root) {
    forall a, b :: a in r && b in r && r[a] == r[b] ==> a == b
  }

  ghost predicate RootSafe(d: Disk, sealed: map<Ino, Tree>, r: Root) {
    && (forall n :: n in r ==> r[n] in d.trees)
    && Injective(r)
    && (forall n :: n in r && n.Backup? ==> Complete(d, sealed, r[n]))
  }

  ghost predicate TreesSound(d: Disk) {
    forall i :: i in d.trees ==> i < d.next && i in d.unsynced && Sound(d.trees[i])
  }

  /** In every directory a crash may leave, each backup is complete. */
  ghost predicate Safe(d: Disk, sealed: map<Ino, Tree>) {
    && TreesSound(d)
    && d.root in d.possible
    && forall r :: r in d.possible ==> RootSafe(d, sealed, r)
  }

  /** In every crash image, each `backup-*` name holds the tree that was sealed under it. */
  lemma SafeImages(d: Disk, sealed: map<Ino, Tree>, img: Image, n: Name)
    requires Safe(d, sealed) && CrashImage(d, img) && n in img.root && n.Backup?
    ensures img.root[n] in sealed && img.trees[img.root[n]] == sealed[img.root[n]]
  {
  }

  /** At least `m` complete backups in every directory a crash may leave. */
  ghost predicate Covers(d: Disk, m: nat) {
    forall r :: r in d.possible ==> |BackupNames(r)| >= m
  }

  /** No backup, in any directory a crash may leave, is the tree `i`. */
  ghost predicate Free(d: Disk, i: Ino) {
    forall r, n :: r in d.possible && n in r && n.Backup? ==> r[n] != i
  }

  // ---------- steps keep the disk safe ----------

  lemma PossibleAfter(d: Disk, op: RootOp, r: Root)
    requires r in Update(d, op).possible
    ensures r in d.possible || exists q :: q in d.possible && r == Apply(q, op)
  {
  }

  // ---------- what the crash model says ----------

  /** The disk after these changes of the root directory. */
  function Updates(d: Disk, ops: seq<RootOp>): Disk {
    if ops == [] then d else Update(Updates(d, ops[..|ops| - 1]), ops[|ops| - 1])
  }

  /** The directory after those of the changes that have survived. */
  function Survived(r: Root, ops: seq<RootOp>, which: seq<bool>): Root
    requires |which| == |ops|
  {
    if ops == [] then r
    else
      var q := Survived(r, ops[..|ops| - 1], which[..|ops| - 1]);
      if which[|ops| - 1] then Apply(q, ops[|ops| - 1]) else q
  }

  ghost predicate MaySurvive(r: Root, ops: seq<RootOp>, q: Root) {
    exists which: seq<bool> :: |which| == |ops| && Survived(r, ops, which) == q
  }

  /** From a synced root on, a crash leaves what any selection of the unsynced changes makes of it. */
  lemma {:induction false} AnySelectionSurvives(d: Disk, ops: seq<RootOp>)
    requires d.possible == {d.root}
    ensures forall q :: q in Updates(d, ops).possible <==> MaySurvive(d.root, ops, q)
  {
    if ops == [] {
      assert Survived(d.root, [], []) == d.root;
    } else {
      hide Apply;
      var front, op := ops[..|ops| - 1], ops[|ops| - 1];
      AnySelectionSurvives(d, front);
      forall q ensures q in Updates(d, ops).possible <==> MaySurvive(d.root, ops, q) {
        LastSurvives(d.root, ops, q);
        assert q in Updates(d, ops).possible <==>
               q in Updates(d, front).possible || exists p :: p in Updates(d, front).possible && Apply(p, op) == q;
      }
    }
  }

  lemma LastSurvives(r: Root, ops: seq<RootOp>, q: Root)
    requires ops != []
    ensures var front, op := ops[..|ops| - 1], ops[|ops| - 1];
            MaySurvive(r, ops, q) <==> MaySurvive(r, front, q) || exists p :: MaySurvive(r, front, p) && Apply(p, op) == q
  {
    hide Apply, Survived, MaySurvive;
    var front, op := ops[..|ops| - 1], ops[|ops| - 1];
    if MaySurvive(r, ops, q) {
      var p := LastOne(r, ops, q);
    }
    if MaySurvive(r, front, q) {
      AddOne(r, ops, q, false);
    }
    forall p | MaySurvive(r, front, p) && Apply(p, op) == q ensures MaySurvive(r, ops, q) {
      AddOne(r, ops, p, true);
    }
  }

  lemma LastOne(r: Root, ops: seq<RootOp>, q: Root) returns (p: Root)
    requires ops != [] && MaySurvive(r, ops, q)
    ensures MaySurvive(r, ops[..|ops| - 1], p) && (p == q || Apply(p, ops[|ops| - 1]) == q)
  {
    hide Apply;
    var which: seq<bool> :| |which| == |ops| && Survived(r, ops, which) == q;
    p := Survived(r, ops[..|ops| - 1], which[..|ops| - 1]);
  }

  lemma AddOne(r: Root, ops: seq<RootOp>, p: Root, last: bool)
    requires ops != [] && MaySurvive(r, ops[..|ops| - 1], p)
    ensures MaySurvive(r, ops, if last then Apply(p, ops[|ops| - 1]) else p)
  {
    hide Apply;
    var front := ops[..|ops| - 1];
    var which: seq<bool> :| |which| == |front| && Survived(r, front, which) == p;
    assert (which + [last])[..|front|] == which;
    assert Survived(r, ops, which + [last]) == if last then Apply(p, ops[|ops| - 1]) else p;
  }

  /** Until every entry of a tree has been synced, a crash may leave anything of it. */
  lemma UnsyncedMayBeAnything(d: Disk, sealed: map<Ino, Tree>, i: Ino, t: Tree)
    requires Safe(d, sealed) && i in d.trees && i in d.unsynced && d.unsynced[i] != {} && Sound(t)
    ensures CrashImage(d, Image(d.root, d.trees[i := t]))
  {
  }

  /** A sync of an entry brings just that entry to the disk. */
  lemma SyncedExactly(d: Disk, i: Ino, p: Bytes, j: Ino, q: Bytes)
    requires i in d.unsynced && j in d.unsynced
    ensures Synced(d, i, p).trees == d.trees && Synced(d, i, p).possible == d.possible
    ensures q in Synced(d, i, p).unsynced[j] <==> q in d.unsynced[j] && (j, q) != (i, p)
  {
  }

  // ---------- more steps ----------

  /** A change of the root directory is safe if it is safe in each directory it may meet. */
  lemma UpdateSafe(d: Disk, op: RootOp, sealed: map<Ino, Tree>)
    requires Safe(d, sealed)
    requires forall r :: r in d.possible ==> RootSafe(d, sealed, Apply(r, op))
    ensures Safe(Update(d, op), sealed)
  {
    hide Sound;
    var e := Update(d, op);
    assert e.root in e.possible;
    forall r | r in e.possible ensures RootSafe(e, sealed, r) {
      PossibleAfter(d, op, r);
      if r in d.possible {
        assert RootSafe(d, sealed, r);
      }
    }
  }

  lemma SyncSafe(d: Disk, sealed: map<Ino, Tree>)
    requires Safe(d, sealed)
    ensures Safe(SyncRoot(d), sealed)
  {
  }

  /** A tree that no backup may be can be changed at will. */
  lemma SetTreeSafe(d: Disk, i: Ino, t: Tree, changed: set<Bytes>, sealed: map<Ino, Tree>)
    requires Safe(d, sealed) && i in d.trees && Free(d, i) && Sound(t)
    ensures Safe(SetTree(d, i, t, changed), sealed)
  {
    hide Sound;
    var e := SetTree(d, i, t, changed);
    forall r | r in e.possible ensures RootSafe(e, sealed, r) {
      assert RootSafe(d, sealed, r);
    }
  }

  /**
   * Changing a tree is safe exactly when no directory a crash may leave has it as a backup:
   * unlinking must wait until the rename out of the backup namespace is durable.
   */
  lemma ChangeSafeExactly(d: Disk, i: Ino, t: Tree, changed: set<Bytes>, sealed: map<Ino, Tree>)
    requires Safe(d, sealed) && i in d.trees && Sound(t) && changed != {}
    ensures Safe(SetTree(d, i, t, changed), sealed) <==> Free(d, i)
  {
    hide Sound;
    if Free(d, i) {
      SetTreeSafe(d, i, t, changed, sealed);
    } else {
      var r, n :| r in d.possible && n in r && n.Backup? && r[n] == i;
      assert !Complete(SetTree(d, i, t, changed), sealed, r[n]);
      assert !RootSafe(SetTree(d, i, t, changed), sealed, r);
    }
  }

  /** `fsync` of an entry of a tree. */
  function Synced(d: Disk, i: Ino, p: Bytes): Disk
    requires i in d.unsynced
  {
    d.(unsynced := d.unsynced[i := d.unsynced[i] - {p}])
  }

  lemma SyncedSafe(d: Disk, i: Ino, p: Bytes, sealed: map<Ino, Tree>)
    requires Safe(d, sealed) && i in d.unsynced
    ensures Safe(Synced(d, i, p), sealed)
  {
    hide Sound;
    var e := Synced(d, i, p);
    forall r | r in e.possible ensures RootSafe(e, sealed, r) {
      assert RootSafe(d, sealed, r);
    }
  }

  const EMPTY_DIR: Tree := Tree(Dir(PRIVATE), map[])

  /** Room for a new tree, which no directory refers to yet. */
  function Allocated(d: Disk): Disk {
    d.(trees := d.trees[d.next := EMPTY_DIR], unsynced := d.unsynced[d.next := {[]}], next := d.next + 1)
  }

  /** A new empty directory. */
  function Created(d: Disk, n: Name): Disk {
    Update(Allocated(d), Link(n, d.next))
  }

  lemma AllocatedSafe(d: Disk, sealed: map<Ino, Tree>)
    requires Safe(d, sealed)
    ensures Safe(Allocated(d), sealed)
    ensures forall r, n :: r in d.possible && n in r ==> r[n] != d.next
  {
    EmptyIsSound();
    hide Sound;
    var e := Allocated(d);
    forall r | r in e.possible ensures RootSafe(e, sealed, r) {
      assert RootSafe(d, sealed, r);
    }
  }

  lemma CreatedSafe(d: Disk, n: Name, sealed: map<Ino, Tree>)
    requires Safe(d, sealed) && n.InProgress?
    ensures Safe(Created(d, n), sealed)
  {
    hide Sound;
    AllocatedSafe(d, sealed);
    var e := Allocated(d);
    forall r | r in e.possible ensures RootSafe(e, sealed, Apply(r, Link(n, d.next))) {
      assert RootSafe(e, sealed, r);
    }
    UpdateSafe(e, Link(n, d.next), sealed);
  }

  lemma EmptyIsSound()
    ensures Sound(EMPTY_DIR)
  {
  }

  /** Moving a name onto one no possible directory has keeps directories injective. */
  lemma MoveInjective(r: Root, a: Name, b: Name)
    requires Injective(r)
    ensures Injective(Apply(r, Move(a, b)))
  {
  }

  /** Promotion: wherever the stage survives, it is the sealed tree. */
  lemma PromoteSafe(d: Disk, a: Name, b: Name, sealed: map<Ino, Tree>, i: Ino)
    requires Safe(d, sealed) && a.InProgress? && b.Backup? && Complete(d, sealed, i)
    requires forall r :: r in d.possible && a in r ==> r[a] == i
    ensures Safe(Update(d, Move(a, b)), sealed)
  {
    hide Sound;
    forall r | r in d.possible ensures RootSafe(d, sealed, Apply(r, Move(a, b))) {
      assert RootSafe(d, sealed, r);
      MoveInjective(r, a, b);
    }
    UpdateSafe(d, Move(a, b), sealed);
  }

  /** Promotion is safe exactly when every entry of the stage has been synced. */
  lemma PromotionSafeExactly(d: Disk, a: Name, b: Name, sealed: map<Ino, Tree>, i: Ino)
    requires Safe(d, sealed) && a.InProgress? && b.Backup? && a in d.root
    requires i in d.trees && i in d.unsynced && i in sealed && d.trees[i] == sealed[i]
    requires forall r :: r in d.possible && a in r ==> r[a] == i
    ensures Safe(Update(d, Move(a, b)), sealed) <==> d.unsynced[i] == {}
  {
    hide Sound;
    var e := Update(d, Move(a, b));
    if Complete(d, sealed, i) {
      PromoteSafe(d, a, b, sealed, i);
    } else {
      assert d.root[a] == i && e.root in e.possible && b in e.root && e.root[b] == i;
      assert !RootSafe(e, sealed, e.root);
    }
  }

  /** A settled root covers all the backups it shows. */
  lemma SettledCovers(d: Disk)
    requires d.possible == {d.root}
    ensures Covers(d, |BackupNames(d.root)|)
  {
  }

  /** Retiring a backup into the deletion namespace. */
  lemma RetireSafe(d: Disk, a: Name, b: Name, sealed: map<Ino, Tree>)
    requires Safe(d, sealed) && !b.Backup?
    ensures Safe(Update(d, Move(a, b)), sealed)
  {
    hide Sound;
    forall r | r in d.possible ensures RootSafe(d, sealed, Apply(r, Move(a, b))) {
      assert RootSafe(d, sealed, r);
      MoveInjective(r, a, b);
    }
    UpdateSafe(d, Move(a, b), sealed);
  }

  lemma UnlinkSafe(d: Disk, n: Name, sealed: map<Ino, Tree>)
    requires Safe(d, sealed)
    ensures Safe(Update(d, Unlink(n)), sealed)
  {
    hide Sound;
    forall r | r in d.possible ensures RootSafe(d, sealed, Apply(r, Unlink(n))) {
      assert RootSafe(d, sealed, r);
    }
    UpdateSafe(d, Unlink(n), sealed);
  }

  /** Sealing one more tree changes nothing about the others. */
  lemma MoreSealed(d: Disk, sealed: map<Ino, Tree>, i: Ino, t: Tree)
    requires Safe(d, sealed) && i !in sealed
    ensures Safe(d, sealed[i := t])
  {
  }

  // ---------- stages ----------

  /** At most one stage is visible. */
  predicate OneStage(d: Disk) {
    |StageNames(d.root)| <= 1
  }

  /** A change that adds no stage keeps it at one. */
  lemma NoMoreStages(d: Disk, e: Disk)
    requires OneStage(d) && StageNames(e.root) <= StageNames(d.root)
    ensures OneStage(e)
  {
    SubsetSize(StageNames(e.root), StageNames(d.root));
  }

  lemma FirstStage(d: Disk, n: Name)
    requires StageNames(d.root) == {}
    ensures OneStage(Created(d, n))
  {
    SubsetSize(StageNames(Created(d, n).root), {n});
  }

  // ---------- coverage ----------

  /** A change that takes no backup name away anywhere keeps the coverage. */
  lemma UpdateCovers(d: Disk, op: RootOp, m: nat)
    requires Covers(d, m)
    requires forall r :: r in d.possible ==> BackupNames(r) <= BackupNames(Apply(r, op))
    ensures Covers(Update(d, op), m)
  {
    forall r | r in Update(d, op).possible ensures |BackupNames(r)| >= m {
      PossibleAfter(d, op, r);
      if r !in d.possible {
        var q :| q in d.possible && r == Apply(q, op);
        SubsetSize(BackupNames(q), BackupNames(r));
      }
    }
  }

  lemma LinkCovers(d: Disk, n: Name, i: Ino, m: nat)
    requires Covers(d, m) && !n.Backup?
    ensures Covers(Update(d, Link(n, i)), m)
  {
    UpdateCovers(d, Link(n, i), m);
  }

  lemma UnlinkCovers(d: Disk, n: Name, m: nat)
    requires Covers(d, m) && !n.Backup?
    ensures Covers(Update(d, Unlink(n)), m)
  {
    UpdateCovers(d, Unlink(n), m);
  }

  lemma PromoteCovers(d: Disk, a: Name, b: Name, m: nat)
    requires Covers(d, m) && !a.Backup?
    ensures Covers(Update(d, Move(a, b)), m)
  {
    UpdateCovers(d, Move(a, b), m);
  }

  /** Retiring keeps the coverage while `kept` stays untouched everywhere. */
  lemma RetireCovers(d: Disk, a: Name, b: Name, kept: set<Name>, m: nat)
    requires Covers(d, m) && !b.Backup? && a !in kept && m <= |kept|
    requires forall r :: r in d.possible ==> kept <= BackupNames(r)
    ensures Covers(Update(d, Move(a, b)), m)
  {
    forall r | r in Update(d, Move(a, b)).possible ensures |BackupNames(r)| >= m {
      PossibleAfter(d, Move(a, b), r);
      if r !in d.possible {
        var q :| q in d.possible && r == Apply(q, Move(a, b));
        assert kept <= BackupNames(r);
        SubsetSize(kept, BackupNames(r));
      }
    }
  }

  /** In every crash image there are as many backups. */
  lemma CoversImages(d: Disk, m: nat, img: Image)
    requires Covers(d, m) && CrashImage(d, img)
    ensures |set n | n in img.root && n.Backup?| >= m
  {
  }

  // ---------- which backups a crash leaves ----------

  /** Every directory a crash may leave has these backups, as these trees. */
  ghost predicate Assures(d: Disk, names: Root) {
    forall r, n :: r in d.possible && n in names ==> n.Backup? && n in r && r[n] == names[n]
  }

  predicate Touches(op: RootOp, n: Name) {
    match op
    case Link(m, _) => n == m
    case Move(a, b) => n == a || n == b
    case Unlink(m) => n == m
  }

  lemma UpdateAssures(d: Disk, op: RootOp, names: Root)
    requires Assures(d, names) && forall n :: n in names ==> !Touches(op, n)
    ensures Assures(Update(d, op), names)
  {
  }

  /** In every crash image an assured backup is there, with its sealed tree. */
  lemma AssuredImages(d: Disk, sealed: map<Ino, Tree>, names: Root, img: Image, n: Name)
    requires Safe(d, sealed) && Assures(d, names) && CrashImage(d, img) && n in names
    ensures n in img.root && img.root[n] == names[n] && names[n] in sealed && img.trees[names[n]] == sealed[names[n]]
  {
  }

  // ---------- promises ----------

  /**
   * What is promised of every state from some point on: at least `floor` backups in every
   * directory a crash may leave, among them those of `names`, and at most one visible stage.
   */
  datatype Promise = Promise(floor: nat, names: Root, oneStage: bool)

  ghost predicate Meets(d: Disk, p: Promise) {
    Covers(d, p.floor) && Assures(d, p.names) && (p.oneStage ==> OneStage(d))
  }

  lemma WeakerMeets(d: Disk, p: Promise)
    requires Meets(d, p)
    ensures Meets(d, p.(oneStage := false))
  {
  }

  /** The backups out of reach of a retirement are enough for the promise. */
  predicate Fits(p: Promise, kept: set<Name>) {
    p.floor <= |kept| && p.names.Keys <= kept
  }

  lemma CreatedMeets(d: Disk, n: Name, p: Promise)
    requires Meets(d, p) && d.root in d.possible && n.InProgress? && (p.oneStage ==> StageNames(d.root) == {})
    ensures Meets(Created(d, n), p)
  {
    hide Covers, Assures, OneStage;
    SameRootMeets(d, Allocated(d), p);
    LinkCovers(Allocated(d), n, d.next, p.floor);
    AssuredAreBackups(d, p.names);
    UpdateAssures(Allocated(d), Link(n, d.next), p.names);
    if p.oneStage {
      FirstStage(d, n);
    }
  }

  lemma AssuredAreBackups(d: Disk, names: Root)
    requires Assures(d, names) && d.root in d.possible
    ensures forall n :: n in names ==> n.Backup? && n in d.root
  {
  }

  /** A change inside the trees. */
  lemma SameRootMeets(d: Disk, e: Disk, p: Promise)
    requires Meets(d, p) && e.root == d.root && e.possible == d.possible
    ensures Meets(e, p)
  {
  }

  lemma SyncMeets(d: Disk, p: Promise)
    requires Meets(d, p) && d.root in d.possible
    ensures Meets(SyncRoot(d), p)
  {
  }

  lemma UnlinkMeets(d: Disk, n: Name, p: Promise)
    requires Meets(d, p) && d.root in d.possible && !n.Backup?
    ensures Meets(Update(d, Unlink(n)), p)
  {
    hide Covers, Assures, OneStage;
    UnlinkCovers(d, n, p.floor);
    AssuredAreBackups(d, p.names);
    UpdateAssures(d, Unlink(n), p.names);
    if p.oneStage {
      NoMoreStages(d, Update(d, Unlink(n)));
    }
  }

  lemma PromoteMeets(d: Disk, a: Name, b: Name, p: Promise)
    requires Meets(d, p) && d.root in d.possible && a.InProgress? && b.Backup? && b !in d.root
    ensures Meets(Update(d, Move(a, b)), p)
  {
    hide Covers, Assures, OneStage;
    PromoteCovers(d, a, b, p.floor);
    AssuredAreBackups(d, p.names);
    UpdateAssures(d, Move(a, b), p.names);
    if p.oneStage {
      NoMoreStages(d, Update(d, Move(a, b)));
    }
  }

  lemma RetireMeets(d: Disk, a: Name, b: Name, kept: set<Name>, p: Promise)
    requires Meets(d, p) && d.root in d.possible && b.Deleting? && a !in kept
    requires Fits(p, kept) && forall r :: r in d.possible ==> kept <= BackupNames(r)
    ensures Meets(Update(d, Move(a, b)), p)
  {
    hide Covers, Assures, OneStage;
    RetireCovers(d, a, b, kept, p.floor);
    AssuredAreBackups(d, p.names);
    UpdateAssures(d, Move(a, b), p.names);
    if p.oneStage {
      NoMoreStages(d, Update(d, Move(a, b)));
    }
  }

  // ---------- crashes ----------

  /** The disk after a crash and a restart: what was left is what is there. */
  function Restarted(img: Image, next: Ino): Disk {
    Disk(img.root, {img.root}, img.trees, map i | i in img.trees :: {}, next)
  }

  lemma RestartSafe(d: Disk, img: Image, next: Ino, sealed: map<Ino, Tree>)
    requires Safe(d, sealed) && CrashImage(d, img) && d.next <= next
    ensures Safe(Restarted(img, next), sealed)
  {
    hide Sound;
    var e := Restarted(img, next);
    assert RootSafe(d, sealed, img.root);
    forall n | n in img.root && n.Backup? ensures Complete(e, sealed, img.root[n]) {
      SafeImages(d, sealed, img, n);
    }
  }

  lemma RestartMeets(d: Disk, img: Image, next: Ino, p: Promise)
    requires Meets(d, p) && CrashImage(d, img)
    ensures Meets(Restarted(img, next), p.(oneStage := false))
  {
  }
}
