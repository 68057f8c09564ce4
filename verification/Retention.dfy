/** The retention phase of `backup`: pending deletions, then the backups beyond the limit. */
module Retention {
  import opened Audit
  import opened Bytes
  import opened Disks
  import opened Inventories
  import opened Removals
  import opened Sorting
  import opened Trees
  import opened Volumes

  // ---------- which backups are kept ----------

  /** The names of `s` that come before `n` in the inventory order. */
  ghost function Earlier(prepared: map<Name, int>, s: set<Name>, n: Name): set<Name> {
    set m | m in s && Before(prepared, m, n)
  }

  /** The first `keep - 1` of the older backups. */
  ghost function Kept(prepared: map<Name, int>, prior: set<Name>, keep: int): set<Name> {
    set n | n in prior && |Earlier(prepared, prior, n)| < keep - 1
  }

  ghost function Below<T>(less: (T, T) -> bool, s: set<T>, x: T): set<T> {
    set m | m in s && less(m, x)
  }

  /** In a sorted list, what comes before an element is what is before it in the list. */
  lemma PositionIsRank<T>(less: (T, T) -> bool, q: seq<T>, i: nat)
    requires SortedBy(less, q) && StrictOrderOn(less, Elems(q)) && i < |q|
    ensures Below(less, Elems(q), q[i]) == Elems(q[..i]) && |Elems(q[..i])| == i
  {
    SortedIsDistinct(less, q);
    DistinctCount(q[..i]);
    forall m ensures m in Below(less, Elems(q), q[i]) <==> m in Elems(q[..i]) {
      if m in Elems(q) {
        var j :| 0 <= j < |q| && q[j] == m;
        OneWay(less, q, i, j);
        assert j < i ==> q[..i][j] == m;
      }
    }
  }

  lemma OneWay<T>(less: (T, T) -> bool, q: seq<T>, i: nat, j: nat)
    requires SortedBy(less, q) && StrictOrderOn(less, Elems(q)) && i < |q| && j < |q|
    ensures less(q[j], q[i]) <==> j < i
  {
  }

  /** Retention keeps as many older backups as it may, and no more. */
  lemma KeptSize(prepared: map<Name, int>, prior: set<Name>, keep: int)
    requires keep >= 1 && prior <= prepared.Keys && forall n :: n in prior ==> n.Backup?
    ensures |Kept(prepared, prior, keep)| == if |prior| < keep - 1 then |prior| else keep - 1
  {
    hide Before, Kept;
    OrderIsStrict(prepared, prior);
    KeptCount(prepared, prior, keep, Sort(Order(prepared), AnySeq(prior)));
  }

  /** Every older backup that is kept precedes every one that is not. */
  lemma KeptPrecede(prepared: map<Name, int>, prior: set<Name>, keep: int, n: Name, m: Name)
    requires prior <= prepared.Keys && forall x :: x in prior ==> x.Backup?
    requires n in Kept(prepared, prior, keep) && m in prior - Kept(prepared, prior, keep)
    ensures Before(prepared, n, m)
  {
    hide Before;
    OrderIsStrict(prepared, prior);
    if !Before(prepared, n, m) {
      assert Order(prepared)(m, n);
      assert Earlier(prepared, prior, m) <= Earlier(prepared, prior, n) by {
        forall x | x in Earlier(prepared, prior, m) ensures Before(prepared, x, n) {
          assert Order(prepared)(x, m) && Order(prepared)(m, n);
        }
      }
      SubsetSize(Earlier(prepared, prior, m), Earlier(prepared, prior, n));
    }
  }

  lemma KeptCount(prepared: map<Name, int>, prior: set<Name>, keep: int, q: seq<Name>)
    requires Elems(q) == prior && SortedBy(Order(prepared), q) && StrictOrderOn(Order(prepared), prior) && keep >= 1
    ensures |Kept(prepared, prior, keep)| == if |prior| < keep - 1 then |prior| else keep - 1
  {
    hide Before, Kept, StrictOrderOn, SortedBy;
    SortedIsDistinct(Order(prepared), q);
    DistinctCount(q);
    var k := if |prior| < keep - 1 then |prior| else keep - 1;
    DistinctCount(q[..k]);
    KeptIsPrefix(prepared, prior, keep, q, k);
  }

  lemma KeptIsPrefix(prepared: map<Name, int>, prior: set<Name>, keep: int, q: seq<Name>, k: nat)
    requires Elems(q) == prior && SortedBy(Order(prepared), q) && StrictOrderOn(Order(prepared), prior)
    requires |q| == |prior| && keep >= 1 && k == if |prior| < keep - 1 then |prior| else keep - 1
    ensures Kept(prepared, prior, keep) == Elems(q[..k])
  {
    hide Before;
    SortedIsDistinct(Order(prepared), q);
    forall n | n in prior ensures n in Kept(prepared, prior, keep) <==> n in Elems(q[..k]) {
      var i :| 0 <= i < |q| && q[i] == n;
      PositionIsRank(Order(prepared), q, i);
      assert Earlier(prepared, prior, n) == Below(Order(prepared), Elems(q), q[i]);
      InPrefix(q, i, k);
    }
    forall n | n in Elems(q[..k]) ensures n in prior {
      assert n in Elems(q);
    }
  }

  lemma InPrefix<T>(q: seq<T>, i: nat, k: nat)
    requires Distinct(q) && i < |q| && k <= |q|
    ensures q[i] in Elems(q[..k]) <==> i < k
  {
  }

  // ---------- one deletion ----------

  /** Nothing about the root directory is open: a crash leaves just what is visible. */
  predicate Settled(d: Disk) {
    d.possible == {d.root}
  }

  ghost predicate SameTree(d: Disk, e: Disk, n: Name) {
    && n in d.root && n in e.root && d.root[n] == e.root[n]
    && d.root[n] in d.trees && d.root[n] in e.trees && d.trees[d.root[n]] == e.trees[d.root[n]]
  }

  /** Every name outside `s` still leads to the same unchanged tree. */
  ghost predicate StillThere(d: Disk, e: Disk, s: set<Name>) {
    forall n :: n in d.root && n !in s ==> SameTree(d, e, n)
  }

  /** Nothing outside `s` is touched, and only deletion names are added. */
  ghost predicate OthersStay(d: Disk, e: Disk, s: set<Name>) {
    StillThere(d, e, s) && forall n :: n in e.root ==> n in d.root || n.Deleting?
  }

  /** The names `gone` and nothing else have been removed, and that is settled. */
  ghost predicate Trimmed(d: Disk, e: Disk, gone: set<Name>) {
    e.root == d.root - gone && Settled(e) && OthersStay(d, e, gone)
  }

  lemma StayTransitive(d: Disk, e: Disk, f: Disk, s: set<Name>, u: set<Name>)
    requires OthersStay(d, e, s) && OthersStay(e, f, u)
    ensures OthersStay(d, f, s + u)
  {
  }

  lemma TrimTransitive(d: Disk, e: Disk, f: Disk, s: set<Name>, u: set<Name>)
    requires Trimmed(d, e, s) && Trimmed(e, f, u)
    ensures Trimmed(d, f, s + u)
  {
  }

  /** In a settled root, what is not a backup shares no tree with one. */
  lemma SettledFree(d: Disk, sealed: map<Ino, Tree>, n: Name)
    requires Safe(d, sealed) && Settled(d) && n in d.root && !n.Backup?
    ensures Free(d, d.root[n])
  {
  }

  lemma AllStay(d: Disk, sealed: map<Ino, Tree>, s: set<Name>)
    requires Safe(d, sealed)
    ensures OthersStay(d, d, s)
  {
  }

  lemma PrunedStays(d: Disk, e: Disk, sealed: map<Ino, Tree>, n: Name, s: set<Bytes>)
    requires Safe(d, sealed) && n in d.root && OnlyPruned(d, e, d.root[n], s)
    ensures OthersStay(d, e, {n})
  {
  }

  lemma GoneStays(d: Disk, e: Disk, sealed: map<Ino, Tree>, n: Name)
    requires Safe(d, sealed) && Gone(d, e, n)
    ensures OthersStay(d, e, {n}) && OthersStay(d, SyncRoot(e), {n}) && Trimmed(d, SyncRoot(e), {n})
  {
    hide Sound;
    assert RootSafe(d, sealed, d.root);
  }

  // ---------- what deletions leave ----------

  /** The name leads to what is left of the tree it led to. */
  ghost predicate Shrunk(d: Disk, e: Disk, n: Name) {
    && n in d.root && n in e.root && d.root[n] == e.root[n]
    && d.root[n] in d.trees && e.root[n] in e.trees
    && Remainder(e.trees[e.root[n]], d.trees[d.root[n]])
  }

  /** The name leads to what is left of the valid backup of the same id. */
  ghost predicate FromBackup(codec: Codec, d: Disk, e: Disk, n: Name) {
    && n.Deleting?
    && var b := Backup(n.id);
    && b in d.root && n in e.root && d.root[b] == e.root[n]
    && d.root[b] in d.trees && e.root[n] in e.trees && ValidBackup(codec, d.trees[d.root[b]])
    && Remainder(e.trees[e.root[n]], d.trees[d.root[b]])
  }

  /** Every deletion name that is there has lost at most entries, and no backup has changed. */
  ghost predicate Shrinks(d: Disk, e: Disk) {
    && (forall n :: n in e.root && n.Deleting? ==> Shrunk(d, e, n))
    && (forall n :: n in e.root && n.Backup? ==> SameTree(d, e, n))
  }

  /** The same, where valid backups may have become deletion names. */
  ghost predicate Retires(codec: Codec, d: Disk, e: Disk) {
    && (forall n :: n in e.root && n.Deleting? ==> Shrunk(d, e, n) || FromBackup(codec, d, e, n))
    && (forall n :: n in e.root && n.Backup? ==> SameTree(d, e, n))
  }

  lemma NothingShrinks(d: Disk, sealed: map<Ino, Tree>)
    requires Safe(d, sealed)
    ensures Shrinks(d, d)
  {
  }

  lemma ShrinksRetires(codec: Codec, d: Disk, e: Disk)
    requires Shrinks(d, e)
    ensures Retires(codec, d, e)
  {
  }

  lemma ShrinksTransitive(d: Disk, e: Disk, f: Disk)
    requires Shrinks(d, e) && Shrinks(e, f)
    ensures Shrinks(d, f)
  {
  }

  lemma RetiresTransitive(codec: Codec, d: Disk, e: Disk, f: Disk)
    requires Retires(codec, d, e) && Retires(codec, e, f)
    ensures Retires(codec, d, f)
  {
    hide Remainder, ValidBackup;
    forall n | n in f.root && n.Deleting? ensures Shrunk(d, f, n) || FromBackup(codec, d, f, n) {
      if Shrunk(e, f, n) {
        if Shrunk(d, e, n) {
          RemainderTransitive(f.trees[f.root[n]], e.trees[e.root[n]], d.trees[d.root[n]]);
        } else {
          RemainderTransitive(f.trees[f.root[n]], e.trees[e.root[n]], d.trees[d.root[Backup(n.id)]]);
        }
      } else {
        assert SameTree(d, e, Backup(n.id));
      }
    }
  }

  lemma PrunedShrinks(d: Disk, e: Disk, sealed: map<Ino, Tree>, n: Name)
    requires Safe(d, sealed) && n in d.root && n.Deleting? && d.root[n] in d.trees
    requires OnlyPruned(d, e, d.root[n], d.trees[d.root[n]].items.Keys)
    ensures Shrinks(d, e)
  {
    NothingShrinks(d, sealed);
    hide Complete, Sound;
    assert RootSafe(d, sealed, d.root);
  }

  lemma GoneShrinks(d: Disk, e: Disk, sealed: map<Ino, Tree>, n: Name)
    requires Safe(d, sealed) && Gone(d, e, n) && n.Deleting?
    ensures Shrinks(d, e) && Shrinks(d, SyncRoot(e))
  {
    NothingShrinks(d, sealed);
    hide Complete, Sound;
    assert RootSafe(d, sealed, d.root);
  }

  predicate TreeSafe(d: Disk, n: Name) {
    n in d.root && d.root[n] in d.trees && SafeTree(d.trees[d.root[n]])
  }

  /** Removing a name of the deletion namespace and making that durable. */
  method Discard(v: Volume, n: Name) returns (ok: bool)
    requires v.Valid() && Settled(v.disk) && n.Deleting? && n in v.disk.root
    modifies v`disk, v`history, v`faults
    ensures v.Valid() && v.Extends() && OthersStay(old(v.disk), v.disk, {n})
    ensures ok ==> Trimmed(old(v.disk), v.disk, {n})
    ensures Shrinks(old(v.disk), v.disk)
    ensures !ok && TreeSafe(old(v.disk), n) ==> v.faults > old(v.faults)
  {
    hide Volume.Valid, Safe, Free, OthersStay, Trimmed, Gone, OnlyPruned, SafeTree, Sound, Shrinks;
    v.Now();
    ghost var d0, sealed := v.disk, v.sealed;
    EntryTree(v, n);
    NothingShrinks(d0, sealed);
    AllStay(d0, sealed, {n});
    ok := v.Attempt();
    if !ok || !SafeTree(v.disk.trees[v.disk.root[n]]) {
      return false;
    }
    SettledFree(d0, sealed, n);
    var r := RemoveTree(v, n, true);
    if r != Removed {
      PrunedStays(d0, v.disk, sealed, n, d0.trees[d0.root[n]].items.Keys);
      PrunedShrinks(d0, v.disk, sealed, n);
      return false;
    }
    GoneStays(d0, v.disk, sealed, n);
    GoneShrinks(d0, v.disk, sealed, n);
    ok := v.SyncParent();
  }

  // ---------- the loop over pending deletions ----------

  ghost predicate PendingGood(d: Disk, n: Name) {
    TreeSafe(d, n) && d.trees[d.root[n]].top.Dir?
  }

  /** Every pending deletion is one that the loop accepts. */
  ghost predicate GoodPending(d: Disk) {
    forall n :: n in d.root && n.Deleting? ==> PendingGood(d, n)
  }

  /** One turn of the loop over pending deletions. */
  method RetryPending(v: Volume, n: Name) returns (ok: bool)
    requires v.Valid() && Settled(v.disk) && n.Deleting? && n in v.disk.root
    modifies v`disk, v`history, v`faults
    ensures v.Valid() && v.Extends() && OthersStay(old(v.disk), v.disk, {n})
    ensures ok ==> Trimmed(old(v.disk), v.disk, {n})
    ensures Shrinks(old(v.disk), v.disk)
    ensures !ok && PendingGood(old(v.disk), n) ==> v.faults > old(v.faults)
  {
    hide Volume.Valid, Safe, OthersStay, Trimmed, SafeTree, Sound, Shrinks;
    v.Now();
    NothingShrinks(v.disk, v.sealed);
    AllStay(v.disk, v.sealed, {n});
    EntryTree(v, n);
    ok := v.Attempt();
    if !ok || !v.disk.trees[v.disk.root[n]].top.Dir? {
      return false;
    }
    ok := Discard(v, n);
  }

  lemma TrimNext(d: Disk, e: Disk, f: Disk, gone: set<Name>, n: Name)
    requires Trimmed(d, e, gone) && OthersStay(e, f, {n})
    ensures OthersStay(d, f, gone + {n})
    ensures Trimmed(e, f, {n}) ==> Trimmed(d, f, gone + {n})
  {
  }

  lemma StayWider(d: Disk, e: Disk, s: set<Name>, u: set<Name>)
    requires OthersStay(d, e, s) && s <= u
    ensures OthersStay(d, e, u)
  {
  }

  /** A name not trimmed away is there, with the tree it had. */
  lemma TrimmedHas(d: Disk, e: Disk, gone: set<Name>, n: Name)
    requires Trimmed(d, e, gone) && n in d.root && n !in gone
    ensures n in e.root && SameTree(d, e, n)
    ensures PendingGood(d, n) <==> PendingGood(e, n)
  {
  }

  lemma NothingTrimmed(d: Disk, sealed: map<Ino, Tree>)
    requires Safe(d, sealed) && Settled(d)
    ensures Trimmed(d, d, {})
  {
  }

  /** The loop over the pending deletions of the inventory. */
  method RetryAllPending(v: Volume, pending: seq<Name>) returns (ok: bool)
    requires v.Valid() && Settled(v.disk) && Elems(pending) == DeletingNames(v.disk.root) && Distinct(pending)
    modifies v`disk, v`history, v`faults
    ensures v.Valid() && v.Extends() && OthersStay(old(v.disk), v.disk, Elems(pending))
    ensures ok ==> Trimmed(old(v.disk), v.disk, Elems(pending))
    ensures Shrinks(old(v.disk), v.disk)
    ensures !ok ==> v.faults > old(v.faults) || exists n :: n in Elems(pending) && !PendingGood(old(v.disk), n)
  {
    hide Volume.Valid, Safe, OthersStay, Trimmed, PendingGood, Shrinks;
    ghost var d0 := v.disk;
    v.Now();
    NothingShrinks(d0, v.sealed);
    NothingTrimmed(d0, v.sealed);
    AllStay(d0, v.sealed, Elems(pending));
    assert Elems(pending[..0]) == {};
    for i := 0 to |pending|
      invariant v.Valid() && v.Extends() && Trimmed(d0, v.disk, Elems(pending[..i])) && Shrinks(d0, v.disk)
    {
      ghost var d1, gone := v.disk, Elems(pending[..i]);
      var n := pending[i];
      NextOf(pending, i);
      StaysSettled(d0, d1, gone);
      TrimmedHas(d0, d1, gone, n);
      TrimStays(d0, d1, gone, Elems(pending));
      var stop := v.Poll(true);
      if stop {
        return false;
      }
      ok := RetryPending(v, n);
      ShrinksTransitive(d0, d1, v.disk);
      TrimNext(d0, d1, v.disk, gone, n);
      StayWider(d0, v.disk, gone + {n}, Elems(pending));
      if !ok {
        return;
      }
    }
    assert pending[..|pending|] == pending;
    TrimStays(d0, v.disk, Elems(pending), Elems(pending));
    ok := true;
  }

  lemma StaysSettled(d: Disk, e: Disk, gone: set<Name>)
    requires Trimmed(d, e, gone)
    ensures Settled(e)
  {
  }

  lemma TrimStays(d: Disk, e: Disk, gone: set<Name>, s: set<Name>)
    requires Trimmed(d, e, gone) && gone <= s
    ensures OthersStay(d, e, s)
  {
  }

  // ---------- retiring one backup ----------

  ghost predicate BackupGood(codec: Codec, d: Disk, n: Name) {
    n in d.root && d.root[n] in d.trees && ValidBackup(codec, d.trees[d.root[n]])
  }

  /** A structurally valid backup is a tree the removal accepts throughout. */
  lemma ValidIsSafe(codec: Codec, t: Tree)
    requires ValidBackup(codec, t)
    ensures SafeTree(t) && t.top.Dir?
  {
  }

  /** The root after a backup has been renamed into the deletion namespace. */
  ghost predicate Moved(d: Disk, e: Disk, n: Name, del: Name) {
    && n in d.root && n != del && del !in d.root && del.Deleting?
    && e.root == (d.root - {n})[del := d.root[n]] && e.trees == d.trees
  }

  lemma JustMoved(d: Disk, n: Name, del: Name)
    requires n in d.root && n != del && del !in d.root && del.Deleting?
    ensures Moved(d, Update(d, Move(n, del)), n, del) && Moved(d, SyncRoot(Update(d, Move(n, del))), n, del)
  {
  }

  lemma MovedStays(d: Disk, e: Disk, sealed: map<Ino, Tree>, n: Name, del: Name)
    requires Safe(d, sealed) && Moved(d, e, n, del)
    ensures OthersStay(d, e, {n})
    ensures del in e.root && (TreeSafe(d, n) <==> TreeSafe(e, del))
  {
  }

  lemma SoundThere(d: Disk, sealed: map<Ino, Tree>, n: Name)
    requires Safe(d, sealed) && n in d.root
    ensures d.root[n] in d.trees && Sound(d.trees[d.root[n]])
  {
  }

  lemma StillSame(d: Disk, e: Disk, n: Name, del: Name, m: Name)
    requires Moved(d, e, n, del) && Shrinks(d, d) && m in e.root && m != del
    ensures (m.Deleting? ==> Shrunk(d, e, m)) && (m.Backup? ==> SameTree(d, e, m))
  {
  }

  lemma MovedRetires(codec: Codec, d: Disk, e: Disk, sealed: map<Ino, Tree>, n: Name, del: Name)
    requires Safe(d, sealed) && Moved(d, e, n, del) && n.Backup? && del == Deleting(n.id) && BackupGood(codec, d, n)
    ensures Retires(codec, d, e)
  {
    hide Safe, Remainder, ValidBackup, Sound, SameTree;
    NothingShrinks(d, sealed);
    SoundThere(d, sealed, n);
    WholeRemainder(d.trees[d.root[n]]);
    forall m | m in e.root && m != del ensures (m.Deleting? ==> Shrunk(d, e, m)) && (m.Backup? ==> SameTree(d, e, m)) {
      StillSame(d, e, n, del, m);
    }
  }

  lemma MovedThenGone(d: Disk, e: Disk, f: Disk, n: Name, del: Name)
    requires Moved(d, e, n, del) && OthersStay(d, e, {n}) && OthersStay(e, f, {del})
    ensures OthersStay(d, f, {n})
    ensures Trimmed(e, f, {del}) ==> Trimmed(d, f, {n})
  {
  }

  /** Validation, collision test, rename and sync: the part before anything is unlinked. */
  method MoveAside(v: Volume, codec: Codec, n: Name, del: Name, ghost kept: set<Name>) returns (ok: bool)
    requires v.Valid() && Settled(v.disk) && n.Backup? && del == Deleting(n.id) && n in v.disk.root
    requires n !in kept && Fits(v.promise, kept) && kept <= BackupNames(v.disk.root)
    modifies v`disk, v`history, v`faults
    ensures v.Valid() && v.Extends() && OthersStay(old(v.disk), v.disk, {n})
    ensures ok ==> Moved(old(v.disk), v.disk, n, del) && Settled(v.disk) && BackupGood(codec, old(v.disk), n)
    ensures Retires(codec, old(v.disk), v.disk)
    ensures !ok ==> v.faults > old(v.faults) || !BackupGood(codec, old(v.disk), n) || del in old(v.disk.root)
  {
    hide Volume.Valid, Safe, OthersStay, ValidBackup, Sound, BackupNames, Retires, Moved;
    v.Now();
    ghost var d0, sealed := v.disk, v.sealed;
    AllStay(d0, sealed, {n});
    NothingShrinks(d0, sealed);
    ShrinksRetires(codec, d0, d0);
    EntryTree(v, n);
    ok := CheckBackup(v, codec, v.disk.trees[v.disk.root[n]]);
    if !ok {
      return;
    }
    var stop := v.Poll(true);
    if stop {
      return false;
    }
    ok := v.Attempt();
    if !ok || del in v.disk.root {
      return false;
    }
    stop := v.Poll(true);
    if stop {
      return false;
    }
    ok := v.Retire(n, del, kept);
    if !ok {
      return;
    }
    JustMoved(d0, n, del);
    MovedStays(d0, v.disk, sealed, n, del);
    MovedStays(d0, SyncRoot(v.disk), sealed, n, del);
    MovedRetires(codec, d0, v.disk, sealed, n, del);
    MovedRetires(codec, d0, SyncRoot(v.disk), sealed, n, del);
    ok := v.SyncParent();
  }

  /** The turn of the retention loop for a backup beyond the limit. */
  method RetireOne(v: Volume, codec: Codec, n: Name, ghost kept: set<Name>) returns (ok: bool)
    requires v.Valid() && Settled(v.disk) && n.Backup? && n in v.disk.root
    requires n !in kept && Fits(v.promise, kept) && kept <= BackupNames(v.disk.root)
    modifies v`disk, v`history, v`faults
    ensures v.Valid() && v.Extends() && OthersStay(old(v.disk), v.disk, {n})
    ensures ok ==> Trimmed(old(v.disk), v.disk, {n})
    ensures Retires(codec, old(v.disk), v.disk)
    ensures !ok ==> v.faults > old(v.faults) || !BackupGood(codec, old(v.disk), n) || Deleting(n.id) in old(v.disk.root)
  {
    hide Volume.Valid, Safe, OthersStay, Trimmed, ValidBackup, BackupNames, SafeTree, Moved, Retires, Shrinks;
    v.Now();
    ghost var d0, sealed := v.disk, v.sealed;
    var del := Deleting(n.id);
    ok := MoveAside(v, codec, n, del, kept);
    if !ok {
      return;
    }
    ghost var d1 := v.disk;
    MovedStays(d0, d1, sealed, n, del);
    ValidIsSafe(codec, d0.trees[d0.root[n]]);
    var stop := v.Poll(true);
    if stop {
      return false;
    }
    ok := Discard(v, del);
    ShrinksRetires(codec, d1, v.disk);
    RetiresTransitive(codec, d0, d1, v.disk);
    MovedThenGone(d0, d1, v.disk, n, del);
  }

  // ---------- the retention loop ----------

  /** The inventory after promotion: the new backup somewhere among the older ones, in order. */
  ghost predicate Ranked(prepared: map<Name, int>, prior: set<Name>, completed: Name, list: seq<Name>) {
    && completed !in prior && Elems(list) == prior + {completed}
    && Elems(list) <= prepared.Keys && (forall n :: n in list ==> n.Backup?)
    && SortedBy(Order(prepared), list)
  }

  /** The older backups among the first `i`. */
  ghost function Seen(list: seq<Name>, i: nat, completed: Name): set<Name>
    requires i <= |list|
  {
    Elems(list[..i]) - {completed}
  }

  /** An older backup's rank is the number of older backups the loop has seen before it. */
  lemma RankIsSeen(prepared: map<Name, int>, prior: set<Name>, completed: Name, list: seq<Name>, i: nat)
    requires Ranked(prepared, prior, completed, list) && i < |list| && list[i] != completed
    ensures Earlier(prepared, prior, list[i]) == Seen(list, i, completed)
    ensures list[i] in prior
  {
    assert forall n :: n in Elems(list) ==> n in list;
    OrderIsStrict(prepared, Elems(list));
    PositionIsRank(Order(prepared), list, i);
    assert list[i] in Elems(list);
    assert Earlier(prepared, prior, list[i]) == Below(Order(prepared), Elems(list), list[i]) - {completed};
  }

  lemma RankedDistinct(prepared: map<Name, int>, prior: set<Name>, completed: Name, list: seq<Name>)
    requires Ranked(prepared, prior, completed, list)
    ensures Distinct(list)
  {
    assert forall n :: n in Elems(list) ==> n in list;
    OrderIsStrict(prepared, Elems(list));
    SortedIsDistinct(Order(prepared), list);
  }

  lemma SeenNext(list: seq<Name>, i: nat, completed: Name)
    requires i < |list| && Distinct(list)
    ensures Seen(list, i + 1, completed) ==
            if list[i] == completed then Seen(list, i, completed) else Seen(list, i, completed) + {list[i]}
    ensures list[i] !in Seen(list, i, completed)
  {
  }

  ghost function Least(a: int, b: int): int {
    if a < b then a else b
  }

  /** The state of the loop after `i` names. */
  ghost predicate Retaining(d0: Disk, d: Disk, prepared: map<Name, int>, prior: set<Name>, completed: Name,
                            list: seq<Name>, keep: int, i: nat, kept: int) {
    && i <= |list| && Ranked(prepared, prior, completed, list)
    && kept == Least(|Seen(list, i, completed)|, keep - 1)
    && Trimmed(d0, d, Seen(list, i, completed) - Kept(prepared, prior, keep))
  }

  /** A backup within the limit, or the new one: the loop moves on. */
  lemma Passing(d0: Disk, d: Disk, prepared: map<Name, int>, prior: set<Name>, completed: Name,
                list: seq<Name>, keep: int, i: nat, kept: int)
    requires Retaining(d0, d, prepared, prior, completed, list, keep, i, kept) && i < |list|
    requires list[i] == completed || kept < keep - 1
    ensures Retaining(d0, d, prepared, prior, completed, list, keep, i + 1,
                      if list[i] == completed then kept else kept + 1)
  {
    hide Trimmed, Ranked, Before;
    RankedDistinct(prepared, prior, completed, list);
    SeenNext(list, i, completed);
    if list[i] != completed {
      RankIsSeen(prepared, prior, completed, list, i);
      assert list[i] in Kept(prepared, prior, keep);
    }
    assert Seen(list, i + 1, completed) - Kept(prepared, prior, keep) == Seen(list, i, completed) - Kept(prepared, prior, keep);
  }

  /** A backup beyond the limit is still there, and the kept ones are in the root. */
  lemma BeyondLimit(d0: Disk, d: Disk, prepared: map<Name, int>, prior: set<Name>, completed: Name,
                    list: seq<Name>, keep: int, i: nat, kept: int)
    requires Retaining(d0, d, prepared, prior, completed, list, keep, i, kept) && i < |list| && keep >= 1
    requires list[i] != completed && kept >= keep - 1 && BackupNames(d0.root) == Elems(list)
    ensures list[i] !in Kept(prepared, prior, keep) + {completed}
    ensures list[i] in d0.root && list[i] !in Seen(list, i, completed)
    ensures list[i] in d.root && list[i].Backup? && SameTree(d0, d, list[i])
    ensures Kept(prepared, prior, keep) + {completed} <= BackupNames(d.root)
  {
    hide Before, SameTree;
    RankedDistinct(prepared, prior, completed, list);
    SeenNext(list, i, completed);
    RankIsSeen(prepared, prior, completed, list, i);
    assert list[i] in Elems(list);
  }

  /** One more backup retired. */
  lemma Dropped(d0: Disk, d: Disk, e: Disk, prepared: map<Name, int>, prior: set<Name>, completed: Name,
                list: seq<Name>, keep: int, i: nat, kept: int)
    requires Retaining(d0, d, prepared, prior, completed, list, keep, i, kept) && i < |list|
    requires list[i] != completed && kept >= keep - 1 && list[i] !in Kept(prepared, prior, keep)
    requires OthersStay(d, e, {list[i]})
    ensures Trimmed(d, e, {list[i]}) ==> Retaining(d0, e, prepared, prior, completed, list, keep, i + 1, kept)
    ensures OthersStay(d0, e, prior - Kept(prepared, prior, keep))
  {
    hide Before, Trimmed, OthersStay, Ranked;
    RankedDistinct(prepared, prior, completed, list);
    SeenNext(list, i, completed);
    RankIsSeen(prepared, prior, completed, list, i);
    var gone := Seen(list, i, completed) - Kept(prepared, prior, keep);
    TrimNext(d0, d, e, gone, list[i]);
    assert Seen(list, i + 1, completed) - Kept(prepared, prior, keep) == gone + {list[i]};
    SeenIsPrior(prepared, prior, completed, list, i + 1);
    StayWider(d0, e, gone + {list[i]}, prior - Kept(prepared, prior, keep));
  }

  lemma SeenIsPrior(prepared: map<Name, int>, prior: set<Name>, completed: Name, list: seq<Name>, i: nat)
    requires Ranked(prepared, prior, completed, list) && i <= |list|
    ensures Seen(list, i, completed) <= prior && Seen(list, |list|, completed) == prior
  {
  }

  /** Enough backups stay out of reach of the loop. */
  lemma KeptCovers(prepared: map<Name, int>, prior: set<Name>, completed: Name, list: seq<Name>, keep: int, m: nat)
    requires Ranked(prepared, prior, completed, list) && keep >= 1 && m <= keep && m <= |prior| + 1
    ensures |Kept(prepared, prior, keep) + {completed}| >= m
  {
    hide Before;
    assert forall n :: n in Elems(list) ==> n in list;
    KeptSize(prepared, prior, keep);
  }

  /** The retention loop of `backup`. */
  method RetireOld(v: Volume, codec: Codec, completed: Name, keep: int, list: seq<Name>,
                   ghost prepared: map<Name, int>, ghost prior: set<Name>) returns (ok: bool)
    requires v.Valid() && Settled(v.disk) && keep >= 1
    requires v.promise.floor <= keep && v.promise.floor <= |prior| + 1
    requires v.promise.names.Keys <= Kept(prepared, prior, keep)
    requires Ranked(prepared, prior, completed, list) && BackupNames(v.disk.root) == Elems(list)
    modifies v`disk, v`history, v`faults
    ensures v.Valid() && v.Extends() && OthersStay(old(v.disk), v.disk, prior - Kept(prepared, prior, keep))
    ensures ok ==> Trimmed(old(v.disk), v.disk, prior - Kept(prepared, prior, keep))
    ensures Retires(codec, old(v.disk), v.disk)
    ensures !ok ==> v.faults > old(v.faults)
                    || exists n :: n in prior && (!BackupGood(codec, old(v.disk), n) || Deleting(n.id) in old(v.disk.root))
  {
    hide Volume.Valid, Safe, OthersStay, Trimmed, Ranked, Retaining, BackupGood, BackupNames, Kept, SameTree,
         Shrinks, Retires;
    ghost var d0, out := v.disk, prior - Kept(prepared, prior, keep);
    v.Now();
    AllStay(d0, v.sealed, out);
    KeptCovers(prepared, prior, completed, list, keep, v.promise.floor);
    NothingShrinks(d0, v.sealed);
    ShrinksRetires(codec, d0, d0);
    StartRetaining(d0, v.sealed, prepared, prior, completed, list, keep);
    var kept := 0;
    for i := 0 to |list|
      invariant v.Valid() && v.Extends() && OthersStay(d0, v.disk, out)
      invariant Retires(codec, d0, v.disk)
      invariant Retaining(d0, v.disk, prepared, prior, completed, list, keep, i, kept)
    {
      ghost var d1 := v.disk;
      var stop := v.Poll(true);
      if stop {
        return false;
      }
      if list[i] == completed {
        Passing(d0, d1, prepared, prior, completed, list, keep, i, kept);
      } else if kept < keep - 1 {
        Passing(d0, d1, prepared, prior, completed, list, keep, i, kept);
        kept := kept + 1;
      } else {
        BeyondLimit(d0, d1, prepared, prior, completed, list, keep, i, kept);
        SettledHere(d0, d1, prepared, prior, completed, list, keep, i, kept);
        ok := RetireOne(v, codec, list[i], Kept(prepared, prior, keep) + {completed});
        RetiresTransitive(codec, d0, d1, v.disk);
        Dropped(d0, d1, v.disk, prepared, prior, completed, list, keep, i, kept);
        if !ok {
          WhyStopped(codec, d0, d1, prepared, prior, completed, list, keep, i, kept);
          return;
        }
      }
    }
    DoneRetaining(d0, v.disk, prepared, prior, completed, list, keep, kept);
    ok := true;
  }

  lemma StartRetaining(d: Disk, sealed: map<Ino, Tree>, prepared: map<Name, int>, prior: set<Name>, completed: Name,
                       list: seq<Name>, keep: int)
    requires Safe(d, sealed) && Settled(d) && Ranked(prepared, prior, completed, list) && keep >= 1
    ensures Retaining(d, d, prepared, prior, completed, list, keep, 0, 0)
  {
    hide Safe, Trimmed, Ranked;
    NothingTrimmed(d, sealed);
    assert Seen(list, 0, completed) == {};
    assert {} - Kept(prepared, prior, keep) == {};
  }

  lemma SettledHere(d0: Disk, d: Disk, prepared: map<Name, int>, prior: set<Name>, completed: Name,
                    list: seq<Name>, keep: int, i: nat, kept: int)
    requires Retaining(d0, d, prepared, prior, completed, list, keep, i, kept)
    ensures Settled(d)
  {
  }

  lemma DoneRetaining(d0: Disk, d: Disk, prepared: map<Name, int>, prior: set<Name>, completed: Name,
                      list: seq<Name>, keep: int, kept: int)
    requires Retaining(d0, d, prepared, prior, completed, list, keep, |list|, kept)
    ensures Trimmed(d0, d, prior - Kept(prepared, prior, keep))
  {
    hide Trimmed, Ranked;
    SeenIsPrior(prepared, prior, completed, list, |list|);
  }

  lemma WhyStopped(codec: Codec, d0: Disk, d: Disk, prepared: map<Name, int>, prior: set<Name>, completed: Name,
                   list: seq<Name>, keep: int, i: nat, kept: int)
    requires Retaining(d0, d, prepared, prior, completed, list, keep, i, kept) && i < |list|
    requires list[i] != completed && SameTree(d0, d, list[i])
    ensures list[i] in prior && (BackupGood(codec, d, list[i]) <==> BackupGood(codec, d0, list[i]))
    ensures Deleting(list[i].id) in d.root ==> Deleting(list[i].id) in d0.root
  {
    hide Before, ValidBackup, OthersStay;
    RankIsSeen(prepared, prior, completed, list, i);
    assert list[i] in list;
  }
}
