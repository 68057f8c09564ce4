/** `removeTreeContext`: unlinking a tree entry by entry, from the leaves up. */
module Removals {
  import opened Bytes
  import opened Disks
  import opened Paths
  import opened Sorting
  import opened Trees
  import opened Volumes
  import opened RootOps

  datatype Removal = Removed | Cancelled | UnsafeTarget | Failed

  /** `a` is `b` without some of the entries `s`, all of them safe, and still closed under parents. */
  ghost predicate Pruned(a: Tree, b: Tree, s: set<Bytes>) {
    && Sound(a) && a.top == b.top
    && a.items.Keys <= b.items.Keys && b.items.Keys - a.items.Keys <= s
    && (forall k :: k in a.items ==> a.items[k] == b.items[k])
    && forall k :: k in b.items && k !in a.items ==> SafeItem(b.items[k])
  }

  /** `t` is what an interrupted removal may have left of `was`. */
  ghost predicate Remainder(t: Tree, was: Tree) {
    Pruned(t, was, was.items.Keys)
  }

  lemma WholeRemainder(t: Tree)
    requires Sound(t)
    ensures Remainder(t, t)
  {
  }

  lemma RemainderTransitive(t: Tree, u: Tree, was: Tree)
    requires Remainder(t, u) && Remainder(u, was)
    ensures Remainder(t, was)
  {
  }

  /** From `d` to `e`, tree `i` has lost some of the entries `s`, and nothing else happened. */
  ghost predicate OnlyPruned(d: Disk, e: Disk, i: Ino, s: set<Bytes>) {
    && i in d.trees && i in e.trees && i in e.unsynced
    && e == SetTree(d, i, e.trees[i], e.unsynced[i])
    && Pruned(e.trees[i], d.trees[i], s)
  }

  lemma PrunedFacts(d: Disk, e: Disk, i: Ino, s: set<Bytes>)
    requires OnlyPruned(d, e, i, s)
    ensures i in e.trees && i in e.unsynced && Sound(e.trees[i]) && e.root == d.root && e.possible == d.possible
    ensures e.trees[i].items.Keys <= d.trees[i].items.Keys
    ensures forall k :: k in e.trees[i].items ==> e.trees[i].items[k] == d.trees[i].items[k]
    ensures d.trees[i].items.Keys - s <= e.trees[i].items.Keys
    ensures SafeTree(d.trees[i]) ==> SafeTree(e.trees[i])
    ensures Free(d, i) ==> Free(e, i)
  {
  }

  lemma PrunedNone(d: Disk, i: Ino, s: set<Bytes>)
    requires i in d.trees && i in d.unsynced && Sound(d.trees[i])
    ensures OnlyPruned(d, d, i, s)
  {
  }

  lemma PrunedMore(d: Disk, e: Disk, f: Disk, i: Ino, s: set<Bytes>, u: set<Bytes>, w: set<Bytes>)
    requires OnlyPruned(d, e, i, s) && OnlyPruned(e, f, i, u) && s + u <= w
    ensures OnlyPruned(d, f, i, w)
  {
    hide Sound;
    assert f.trees == d.trees[i := f.trees[i]];
    assert f.unsynced == d.unsynced[i := f.unsynced[i]];
  }

  /** Whatever is left of a safe tree is a safe tree, with the same top. */
  lemma RemainderIsSafe(t: Tree, was: Tree)
    requires Remainder(t, was) && SafeTree(was)
    ensures SafeTree(t) && Sound(t) && t.top == was.top
  {
  }

  lemma LeafIsPruned(t: Tree, c: Bytes)
    requires Sound(t) && c in t.items && SafeItem(t.items[c]) && Under(t.items, c + [SLASH]) == {}
    ensures Pruned(t.(items := t.items - {c}), t, {c})
  {
  }

  lemma LeafOfSound(t: Tree, c: Bytes)
    requires Sound(t)
    ensures WellFormed(t.items)
    ensures c in t.items && !t.items[c].Dir? ==> Under(t.items, c + [SLASH]) == {}
  {
    if c in t.items && !t.items[c].Dir? {
      FileIsLeaf(t.items, c);
    }
  }

  /** An entry that removal refuses to touch. */
  predicate Refused(item: Item) {
    !item.attr.owned || !item.attr.private || item.Special? || (item.File? && item.attr.links != 1)
  }

  lemma NotRefused(item: Item)
    ensures !Refused(item) <==> SafeItem(item)
  {
  }

  lemma SafeIsNotRefused(t: Tree)
    ensures SafeTree(t) ==> !Refused(t.top) && forall c :: c in t.items ==> !Refused(t.items[c])
  {
  }

  lemma RegionOf(items: Items, c: Bytes)
    requires c in items
    ensures Region(items, c) == {c} + Under(items, c + [SLASH]) && c !in Under(items, c + [SLASH])
    ensures DirPrefix(c + [SLASH])
  {
  }

  lemma RegionGone(items: Items, c: Bytes)
    requires Under(items, c + [SLASH]) == {}
    ensures Region(items - {c}, c) == {}
  {
  }

  /** `Remove` of an entry that has nothing below it. */
  method UnlinkEntry(v: Volume, i: Ino, c: Bytes) returns (ok: bool)
    requires v.Valid() && i in v.disk.trees && i in v.disk.unsynced && Free(v.disk, i)
    requires c in v.disk.trees[i].items && Sound(v.disk.trees[i]) && SafeItem(v.disk.trees[i].items[c])
    modifies v`disk, v`history, v`faults
    ensures v.Valid() && v.Extends() && OnlyPruned(old(v.disk), v.disk, i, {c})
    ensures ok ==> v.disk.trees[i].items == old(v.disk.trees[i].items) - {c}
    ensures !ok ==> v.disk == old(v.disk)
    ensures !ok && Under(old(v.disk.trees[i].items), c + [SLASH]) == {} ==> v.faults > old(v.faults)
  {
    hide Volume.Valid, Free, Sound, Under, SafeItem;
    PrunedNone(v.disk, i, {c});
    var t := v.disk.trees[i];
    ok := v.Attempt();
    if !ok || Under(t.items, c + [SLASH]) != {} {
      return false;
    }
    LeafIsPruned(t, c);
    var parent := ParentPath(c);
    v.ChangeTree(i, t.(items := t.items - {c}), v.disk.unsynced[i] + {parent});
  }

  /** The same, unless the run is cancelled before. */
  method UnlinkEmptied(v: Volume, i: Ino, c: Bytes, cancellable: bool) returns (r: Removal)
    requires v.Valid() && i in v.disk.trees && i in v.disk.unsynced && Free(v.disk, i)
    requires c in v.disk.trees[i].items && Sound(v.disk.trees[i]) && SafeItem(v.disk.trees[i].items[c])
    requires Under(v.disk.trees[i].items, c + [SLASH]) == {}
    modifies v`disk, v`history, v`faults
    ensures v.Valid() && v.Extends() && OnlyPruned(old(v.disk), v.disk, i, {c}) && r != UnsafeTarget
    ensures if r == Removed then Region(v.disk.trees[i].items, c) == {} else v.faults > old(v.faults)
  {
    hide Volume.Valid, Free, Sound, Under, Region, OnlyPruned;
    PrunedNone(v.disk, i, {c});
    ghost var items := v.disk.trees[i].items;
    var stop := v.Poll(cancellable);
    if stop {
      return Cancelled;
    }
    var ok := UnlinkEntry(v, i, c);
    PrunedFacts(old(v.disk), v.disk, i, {c});
    if !ok {
      return Failed;
    }
    RegionGone(items, c);
    return Removed;
  }

  method RemoveEntry(v: Volume, i: Ino, c: Bytes, cancellable: bool) returns (r: Removal)
    requires v.Valid() && i in v.disk.trees && i in v.disk.unsynced && Free(v.disk, i) && Sound(v.disk.trees[i])
    modifies v`disk, v`history, v`faults
    ensures v.Valid() && v.Extends()
    ensures OnlyPruned(old(v.disk), v.disk, i, Region(old(v.disk.trees[i].items), c))
    ensures r == Removed ==> Region(v.disk.trees[i].items, c) == {}
    ensures SafeTree(old(v.disk.trees[i])) ==> r != UnsafeTarget
    ensures r != Removed && SafeTree(old(v.disk.trees[i])) && c in old(v.disk.trees[i].items) ==> v.faults > old(v.faults)
    decreases Region(v.disk.trees[i].items, c), 0
  {
    hide Volume.Valid, Free, Sound, Under, Region, SafeTree, SafeItem, OnlyPruned, Refused, Children;
    ghost var d0 := v.disk;
    var stop := v.Poll(cancellable);
    PrunedNone(d0, i, Region(d0.trees[i].items, c));
    if stop {
      return Cancelled;
    }
    var items := v.disk.trees[i].items;
    if c !in items {
      return Failed;
    }
    RegionOf(items, c);
    SafeIsNotRefused(d0.trees[i]);
    var item := items[c];
    NotRefused(item);
    if Refused(item) {
      return UnsafeTarget;
    }
    ghost var below := Under(items, c + [SLASH]);
    if item.Dir? {
      r := RemoveBelow(v, i, c + [SLASH], cancellable);
      if r != Removed {
        PrunedNone(d0, i, {});
        PrunedMore(d0, d0, v.disk, i, {}, below, Region(items, c));
        return;
      }
    } else {
      LeafOfSound(d0.trees[i], c);
      PrunedNone(d0, i, below);
    }
    ghost var d1 := v.disk;
    PrunedFacts(d0, d1, i, below);
    r := UnlinkEmptied(v, i, c, cancellable);
    PrunedMore(d0, d1, v.disk, i, below, {c}, Region(items, c));
  }

  method RemoveBelow(v: Volume, i: Ino, p: Bytes, cancellable: bool) returns (r: Removal)
    requires v.Valid() && i in v.disk.trees && i in v.disk.unsynced && Free(v.disk, i) && Sound(v.disk.trees[i])
    requires DirPrefix(p)
    modifies v`disk, v`history, v`faults
    ensures v.Valid() && v.Extends()
    ensures OnlyPruned(old(v.disk), v.disk, i, Under(old(v.disk.trees[i].items), p))
    ensures r == Removed ==> Under(v.disk.trees[i].items, p) == {}
    ensures SafeTree(old(v.disk.trees[i])) ==> r != UnsafeTarget
    ensures r != Removed && SafeTree(old(v.disk.trees[i])) ==> v.faults > old(v.faults)
    decreases Under(v.disk.trees[i].items, p), 1
  {
    hide Volume.Valid, Free, Sound, Under, Region, Visited;
    ghost var d0 := v.disk;
    var items := v.disk.trees[i].items;
    PrunedNone(d0, i, {});
    VisitedNone(items);
    var names := Enumerate(Children(items, p));
    assert names[..0] == [];
    for k := 0 to |names|
      invariant v.Valid() && v.Extends()
      invariant OnlyPruned(d0, v.disk, i, Visited(items, names[..k]))
      invariant v.disk.trees[i].items.Keys !! Visited(items, names[..k])
    {
      ghost var done, d1 := names[..k], v.disk;
      NextOf(names, k);
      VisitNext(items, p, done, names[k]);
      RegionSplit(items, p, names[k]);
      PrunedFacts(d0, d1, i, Visited(items, done));
      RegionShrinks(d1.trees[i].items, items, names[k]);
      r := RemoveEntry(v, i, names[k], cancellable);
      StillBelow(d0, d1, v.disk, i, items, p, done, names[k]);
      if r != Removed {
        return;
      }
      GoneNext(d1.trees[i].items, v.disk.trees[i].items, items, done, names[k]);
    }
    assert names[..|names|] == names;
    LeafOfSound(d0.trees[i], []);
    VisitedAll(items, p, names);
    NothingUnder(v.disk.trees[i].items, items, p);
    r := Removed;
  }

  lemma StillBelow(d0: Disk, d1: Disk, e: Disk, i: Ino, items: Items, p: Bytes, done: seq<Bytes>, c: Bytes)
    requires OnlyPruned(d0, d1, i, Visited(items, done)) && items == d0.trees[i].items
    requires OnlyPruned(d1, e, i, Region(d1.trees[i].items, c))
    requires Visited(items, done + [c]) == Visited(items, done) + Region(items, c)
    requires Visited(items, done + [c]) <= Under(items, p)
    ensures OnlyPruned(d0, e, i, Visited(items, done + [c])) && OnlyPruned(d0, e, i, Under(items, p))
    ensures e.trees[i].items.Keys <= d1.trees[i].items.Keys
    ensures SafeTree(d0.trees[i]) ==> SafeTree(d1.trees[i])
  {
    hide Sound, Visited, Region, Under;
    PrunedFacts(d0, d1, i, Visited(items, done));
    PrunedFacts(d1, e, i, Region(d1.trees[i].items, c));
    RegionShrinks(d1.trees[i].items, items, c);
    PrunedMore(d0, d1, e, i, Visited(items, done), Region(d1.trees[i].items, c), Visited(items, done + [c]));
    PrunedMore(d0, d1, e, i, Visited(items, done), Region(d1.trees[i].items, c), Under(items, p));
  }

  lemma GoneNext(before: Items, now: Items, items: Items, done: seq<Bytes>, c: Bytes)
    requires now.Keys <= before.Keys <= items.Keys && before.Keys !! Visited(items, done) && Region(now, c) == {}
    requires Visited(items, done + [c]) == Visited(items, done) + Region(items, c)
    ensures now.Keys !! Visited(items, done + [c])
  {
    hide Visited;
    forall k | k in now ensures k !in Region(items, c) {
      assert k !in Region(now, c);
    }
  }

  lemma RegionShrinks(now: Items, items: Items, c: Bytes)
    requires now.Keys <= items.Keys
    ensures Region(now, c) <= Region(items, c)
  {
  }

  lemma NothingUnder(now: Items, items: Items, p: Bytes)
    requires now.Keys <= items.Keys && now.Keys !! Under(items, p)
    ensures Under(now, p) == {}
  {
  }

  /** From `d` to `e`, the name `n` and the whole tree under it have been removed. */
  ghost predicate Gone(d: Disk, e: Disk, n: Name) {
    && n in d.root && d.root[n] in d.trees
    && var i := d.root[n];
    && i in e.trees && i in e.unsynced
    && e == Update(SetTree(d, i, e.trees[i], e.unsynced[i]), Unlink(n))
    && e.trees[i].items == map[] && e.trees[i].top == d.trees[i].top
  }

  lemma AllLostSafe(d: Disk, e: Disk, i: Ino)
    requires i in d.trees && OnlyPruned(d, e, i, d.trees[i].items.Keys) && SafeItem(d.trees[i].top)
    ensures e.trees[i].items == map[] ==> SafeTree(d.trees[i])
  {
  }

  /** The last step on a name, whose tree has nothing left in it. */
  method RemoveEmptied(v: Volume, n: Name, cancellable: bool) returns (r: Removal)
    requires v.Valid() && !n.Backup? && n in v.disk.root && v.disk.root[n] in v.disk.trees
    requires v.disk.trees[v.disk.root[n]].items == map[]
    modifies v`disk, v`history, v`faults
    ensures v.Valid() && v.Extends() && r != UnsafeTarget
    ensures r == Removed ==> v.disk == Update(old(v.disk), Unlink(n))
    ensures r != Removed ==> v.disk == old(v.disk) && v.faults > old(v.faults)
  {
    hide Volume.Valid, Update;
    var stop := v.Poll(cancellable);
    if stop {
      return Cancelled;
    }
    var ok := v.RemoveName(n);
    return if ok then Removed else Failed;
  }

  /**
   * `removeTreeContext` on a name of the backup root. Stopped at any point, it leaves a
   * parent-closed part of the tree and has changed nothing else.
   */
  method RemoveTree(v: Volume, n: Name, cancellable: bool) returns (r: Removal)
    requires v.Valid() && !n.Backup? && (n in v.disk.root ==> Free(v.disk, v.disk.root[n]))
    modifies v`disk, v`history, v`faults
    ensures v.Valid() && v.Extends()
    ensures r == Removed ==> Gone(old(v.disk), v.disk, n) && SafeTree(old(v.disk.trees[v.disk.root[n]]))
    ensures r != Removed && n !in old(v.disk.root) ==> v.disk == old(v.disk)
    ensures r != Removed && n in old(v.disk.root) ==>
              var i := old(v.disk.root[n]);
              i in old(v.disk.trees) && OnlyPruned(old(v.disk), v.disk, i, old(v.disk.trees[i].items.Keys))
    ensures n in old(v.disk.root) && old(v.disk.root[n]) in old(v.disk.trees) && SafeTree(old(v.disk.trees[v.disk.root[n]])) ==>
              r == Removed || (r != UnsafeTarget && v.faults > old(v.faults))
  {
    hide Volume.Valid, Free, Sound, Under, OnlyPruned, Gone, Complete, SetTree, Update, SafeTree, SafeItem, Refused;
    ghost var d0 := v.disk;
    var stop := v.Poll(cancellable);
    if n !in v.disk.root {
      return if stop then Cancelled else Failed;
    }
    var i := v.disk.root[n];
    RootTree(v, n);
    PrunedNone(d0, i, d0.trees[i].items.Keys);
    if stop {
      return Cancelled;
    }
    var top := v.disk.trees[i].top;
    SafeIsNotRefused(d0.trees[i]);
    NotRefused(top);
    if Refused(top) {
      return UnsafeTarget;
    }
    LeafOfSound(d0.trees[i], []);
    EverythingUnder(d0.trees[i].items);
    if top.Dir? {
      r := RemoveBelow(v, i, [], cancellable);
      if r != Removed {
        return;
      }
    }
    PrunedName(d0, v.disk, n);
    NothingLeft(d0, v.disk, i);
    AllLostSafe(d0, v.disk, i);
    r := RemoveEmptied(v, n, cancellable);
  }

  lemma NothingLeft(d: Disk, e: Disk, i: Ino)
    requires i in d.trees && OnlyPruned(d, e, i, d.trees[i].items.Keys) && Sound(d.trees[i])
    ensures Under(e.trees[i].items, []) == {} ==> e.trees[i].items == map[]
    ensures !d.trees[i].top.Dir? ==> e.trees[i].items == map[]
  {
    PrunedFacts(d, e, i, d.trees[i].items.Keys);
    LeafOfSound(e.trees[i], []);
    EverythingUnder(e.trees[i].items);
    hide WellFormed;
    assert e.trees[i].items.Keys == {} ==> e.trees[i].items == map[];
  }

  /** The name still leads to the tree, and once it is empty removing the name finishes. */
  lemma PrunedName(d: Disk, e: Disk, n: Name)
    requires n in d.root && d.root[n] in d.trees && OnlyPruned(d, e, d.root[n], d.trees[d.root[n]].items.Keys)
    ensures n in e.root && e.root[n] == d.root[n] && e.root[n] in e.trees
    ensures e.trees[e.root[n]].items == map[] ==> Gone(d, Update(e, Unlink(n)), n)
  {
  }

  lemma RootTree(v: Volume, n: Name)
    requires v.Valid() && n in v.disk.root
    ensures v.disk.root[n] in v.disk.trees && v.disk.root[n] in v.disk.unsynced && Sound(v.disk.trees[v.disk.root[n]])
  {
  }
}
