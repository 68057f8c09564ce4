/** `syncTree` and `removeTreeContext` on a tree of the volume. */
module RootOps {
  import opened Bytes
  import opened Disks
  import opened Paths
  import opened Sorting
  import opened Trees
  import opened Volumes

  // ---------- syncTree ----------

  /** From `d` to `e`, entries of tree `i` have been synced, and nothing else happened. */
  ghost predicate OnlySynced(d: Disk, e: Disk, i: Ino) {
    && i in d.unsynced && i in e.unsynced && e.unsynced[i] <= d.unsynced[i]
    && e == d.(unsynced := d.unsynced[i := e.unsynced[i]])
  }

  lemma NoneSynced(d: Disk, i: Ino)
    requires i in d.unsynced
    ensures OnlySynced(d, d, i)
  {
  }

  lemma FsyncLast(d: Disk, e: Disk, i: Ino, c: Bytes, below: set<Bytes>)
    requires OnlySynced(d, e, i) && e.unsynced[i] !! below
    ensures OnlySynced(d, Synced(e, i, c), i) && Synced(e, i, c).unsynced[i] !! {c} + below
  {
  }

  lemma SyncedMore(d: Disk, e: Disk, f: Disk, i: Ino, done: set<Bytes>)
    requires OnlySynced(d, e, i) && OnlySynced(e, f, i) && e.unsynced[i] !! done
    ensures f.unsynced[i] !! done && OnlySynced(d, f, i)
  {
  }

  /** `syncTree` on an entry: everything below it first, then the entry itself. */
  method SyncEntry(v: Volume, i: Ino, items: Items, p: Bytes, c: Bytes) returns (ok: bool)
    requires v.Valid() && i in v.disk.unsynced && WellFormed(items)
    requires DirPrefix(p) && c in Children(items, p)
    modifies v`disk, v`history, v`faults
    ensures v.Valid() && v.Extends() && OnlySynced(old(v.disk), v.disk, i)
    ensures ok ==> v.disk.unsynced[i] !! Region(items, c)
    ensures !ok && (forall k :: k in Region(items, c) ==> SafeItem(items[k])) ==> v.faults > old(v.faults)
    decreases Region(items, c), 0
  {
    hide Volume.Valid, Region, Under, WellFormed, Synced;
    ghost var d0 := v.disk;
    NoneSynced(d0, i);
    RegionSplit(items, p, c);
    if !items[c].attr.owned || !items[c].attr.private {
      return false;
    }
    if items[c].Dir? {
      ok := SyncBelow(v, i, items, c + [SLASH]);
      if !ok {
        return;
      }
    } else {
      if !items[c].File? || items[c].attr.links != 1 {
        return false;
      }
      FileIsLeaf(items, c);
    }
    FsyncLast(d0, v.disk, i, c, Under(items, c + [SLASH]));
    ok := v.Fsync(i, c);
  }

  /** `syncTree` on the entries of a directory. */
  method SyncBelow(v: Volume, i: Ino, items: Items, p: Bytes) returns (ok: bool)
    requires v.Valid() && i in v.disk.unsynced && WellFormed(items) && DirPrefix(p)
    modifies v`disk, v`history, v`faults
    ensures v.Valid() && v.Extends() && OnlySynced(old(v.disk), v.disk, i)
    ensures ok ==> v.disk.unsynced[i] !! Under(items, p)
    ensures !ok && (forall k :: k in Under(items, p) ==> SafeItem(items[k])) ==> v.faults > old(v.faults)
    decreases Under(items, p), 1
  {
    hide Volume.Valid, Region, Visited, Under, WellFormed;
    NoneSynced(v.disk, i);
    var names := Enumerate(Children(items, p));
    VisitedNone(items);
    assert names[..0] == [];
    for k := 0 to |names|
      invariant v.Valid() && v.Extends() && OnlySynced(old(v.disk), v.disk, i)
      invariant v.disk.unsynced[i] !! Visited(items, names[..k])
    {
      NextOf(names, k);
      VisitNext(items, p, names[..k], names[k]);
      RegionSplit(items, p, names[k]);
      ghost var before := v.disk;
      ok := SyncEntry(v, i, items, p, names[k]);
      SyncedMore(old(v.disk), before, v.disk, i, Visited(items, names[..k]));
      if !ok {
        return;
      }
    }
    assert names[..|names|] == names;
    VisitedAll(items, p, names);
    ok := true;
  }

  lemma VisitedNone(items: Items)
    ensures Visited(items, []) == {}
  {
  }

  /** `syncTree` on a tree: after success every entry of it is on the disk. */
  method SyncTree(v: Volume, i: Ino) returns (ok: bool)
    requires v.Valid() && i in v.disk.trees
    requires i in v.disk.unsynced && Sound(v.disk.trees[i])
    requires v.disk.unsynced[i] <= v.disk.trees[i].items.Keys + {[]}
    modifies v`disk, v`history, v`faults
    ensures v.Valid() && v.Extends() && OnlySynced(old(v.disk), v.disk, i)
    ensures ok ==> v.disk.unsynced[i] == {}
    ensures !ok && SafeTree(old(v.disk.trees[i])) ==> v.faults > old(v.faults)
  {
    hide Volume.Valid, WellFormed, Sound, Synced;
    NoneSynced(v.disk, i);
    var t := v.disk.trees[i];
    SoundParts(t);
    if !SafeEntry(t.top, t.top.Dir?) {
      return false;
    }
    EverythingUnder(t.items);
    if t.top.Dir? {
      ok := SyncBelow(v, i, t.items, []);
      if !ok {
        return;
      }
    }
    FsyncLast(old(v.disk), v.disk, i, [], if t.top.Dir? then t.items.Keys else {});
    ok := v.Fsync(i, []);
  }

  lemma SoundParts(t: Tree)
    requires Sound(t)
    ensures WellFormed(t.items) && (!t.top.Dir? ==> t.items.Keys == {})
  {
  }
}
