/**
 * A directory tree as a flat map from slash-separated relative paths to entries, and how
 * the entries below a directory split into the regions of its children.
 */
module Trees {
  import opened Bytes
  import opened Paths
  import opened Sorting

  /** Owned by the running user, without group or other permissions, and the link count. */
  datatype Attr = Attr(owned: bool, private: bool, links: nat)

  datatype Item =
    | File(data: Bytes, attr: Attr)
    | Dir(attr: Attr)
    | Special(attr: Attr)

  type Items = map<Bytes, Item>

  /** A named entry of the backup root: the entry itself and everything below it. */
  datatype Tree = Tree(top: Item, items: Items)

  const PRIVATE: Attr := Attr(true, true, 1)

  /** `items` with a private file written. */
  function AddFile(items: Items, name: Bytes, data: Bytes): Items {
    items[name := File(data, PRIVATE)]
  }

  predicate SafeEntry(i: Item, dir: bool) {
    && i.attr.owned && i.attr.private
    && if dir then i.Dir? else i.File? && i.attr.links == 1
  }

  /** A private directory, or a private regular file with one link. */
  predicate SafeItem(i: Item) {
    SafeEntry(i, i.Dir?)
  }

  predicate SafeTree(t: Tree) {
    SafeItem(t.top) && forall k :: k in t.items ==> SafeItem(t.items[k])
  }

  /** What is safe to keep, sync and remove. */
  lemma SafeTreeExactly(t: Tree)
    ensures SafeTree(t) <==>
            forall item :: item == t.top || item in t.items.Values ==>
              item.attr.owned && item.attr.private && (item.Dir? || (item.File? && item.attr.links == 1))
  {
  }

  /** What a file system admits as a path: no empty component. */
  predicate PathKey(k: Bytes) {
    && k != [] && k[0] != SLASH && k[|k| - 1] != SLASH
    && forall j :: 0 < j < |k| && k[j] == SLASH ==> k[j - 1] != SLASH
  }

  /** Every entry's parent directory is an entry too. */
  predicate WellFormed(items: Items) {
    forall k :: k in items ==>
      && PathKey(k)
      && forall j :: 0 < j < |k| && k[j] == SLASH ==> k[..j] in items && items[k[..j]].Dir?
  }

  /** The path of the directory an entry is in; the top has the empty path. */
  function ParentPath(c: Bytes): Bytes {
    if c == [] then [] else if c[|c| - 1] == SLASH then c[..|c| - 1] else ParentPath(c[..|c| - 1])
  }

  /** The paths of a tree, and the empty path of its top. */
  function PathsOf(t: Tree): set<Bytes> {
    t.items.Keys + {[]}
  }

  /**
   * What a change from `a` to `b` leaves to be synced: the entries that are new or altered,
   * and the directories that entries were added to or removed from.
   */
  ghost function Touched(a: Tree, b: Tree): set<Bytes> {
    (set k | k in b.items && (k !in a.items || a.items[k] != b.items[k]))
    + (set k | k in a.items.Keys + b.items.Keys && (k in a.items) != (k in b.items) :: ParentPath(k)) * PathsOf(b)
  }

  /** A tree a file system can hold: only a directory has entries. */
  predicate Sound(t: Tree) {
    WellFormed(t.items) && (t.items != map[] ==> t.top.Dir?)
  }

  /** The prefix of the paths in the top directory, or in the directory it names. */
  predicate DirPrefix(p: Bytes) {
    p == [] || p[|p| - 1] == SLASH
  }

  function Under(items: Items, p: Bytes): set<Bytes> {
    set k | k in items && p < k
  }

  lemma EverythingUnder(items: Items)
    requires WellFormed(items)
    ensures Under(items, []) == items.Keys
  {
  }

  predicate ChildOf(k: Bytes, p: Bytes) {
    p < k && SLASH !in k[|p|..]
  }

  function Children(items: Items, p: Bytes): set<Bytes> {
    set k | k in items && ChildOf(k, p)
  }

  predicate Beneath(k: Bytes, c: Bytes) {
    k == c || c + [SLASH] < k
  }

  /** The entry `c` and everything below it. */
  function Region(items: Items, c: Bytes): set<Bytes> {
    set k | k in items && Beneath(k, c)
  }

  function FilesAmong(items: Items, s: set<Bytes>): set<Bytes> {
    set k | k in s && k in items && items[k].File?
  }

  lemma FirstStep(items: Items, p: Bytes, k: Bytes) returns (c: Bytes)
    requires WellFormed(items) && DirPrefix(p) && k in Under(items, p)
    ensures c in Children(items, p) && Beneath(k, c)
  {
    assert p != [] ==> k[|p| - 1] == p[|p| - 1];
    assert k[|p|] != SLASH;
    var j := |p|;
    while j < |k| && k[j] != SLASH
      invariant |p| <= j <= |k| && SLASH !in k[|p|..j]
    {
      assert k[|p|..j + 1] == k[|p|..j] + [k[j]];
      j := j + 1;
    }
    c := k[..j];
    assert j > |p|;
    assert c[..|p|] == p;
    assert c[|p|..] == k[|p|..j];
    if j < |k| {
      assert c + [SLASH] == k[..j + 1];
    } else {
      assert c == k;
    }
  }

  lemma RegionSplit(items: Items, p: Bytes, c: Bytes)
    requires c in Children(items, p)
    ensures Region(items, c) == {c} + Under(items, c + [SLASH])
    ensures c !in Under(items, c + [SLASH]) && c !in Region(items, c) - {c}
    ensures Region(items, c) <= Under(items, p)
    ensures DirPrefix(c + [SLASH])
  {
  }

  lemma LongerHasSlash(p: Bytes, c: Bytes, d: Bytes, k: Bytes)
    requires p < c && |c| < |d| && Beneath(k, c) && Beneath(k, d)
    ensures SLASH in d[|p|..]
  {
    assert d == k[..|d|] && (c + [SLASH])[|c|] == SLASH;
    assert d[|p|..][|c| - |p|] == k[|c|] == SLASH;
  }

  /** The path tells which child it is beneath. */
  lemma BeneathOne(p: Bytes, c: Bytes, d: Bytes, k: Bytes)
    requires ChildOf(c, p) && ChildOf(d, p) && Beneath(k, c) && Beneath(k, d)
    ensures c == d
  {
    if |c| < |d| {
      LongerHasSlash(p, c, d, k);
    } else if |d| < |c| {
      LongerHasSlash(p, d, c, k);
    } else {
      assert c == k[..|c|] && d == k[..|d|];
    }
  }

  lemma RegionsApart(items: Items, p: Bytes, c: Bytes, d: Bytes)
    requires ChildOf(c, p) && ChildOf(d, p) && c != d
    ensures Region(items, c) !! Region(items, d)
  {
    forall k | k in Region(items, c) ensures k !in Region(items, d) {
      if k in Region(items, d) {
        BeneathOne(p, c, d, k);
      }
    }
  }

  /** Regions of the children seen so far; all of them together are everything below. */
  ghost function Visited(items: Items, done: seq<Bytes>): set<Bytes> {
    set k | k in items && exists c :: c in done && Beneath(k, c)
  }

  lemma VisitedAll(items: Items, p: Bytes, done: seq<Bytes>)
    requires WellFormed(items) && DirPrefix(p) && Elems(done) == Children(items, p)
    ensures Visited(items, done) == Under(items, p)
  {
    forall k | k in Under(items, p) ensures k in Visited(items, done) {
      var c := FirstStep(items, p, k);
      assert c in Elems(done);
    }
    forall k | k in Visited(items, done) ensures k in Under(items, p) {
      var c :| c in done && Beneath(k, c);
      assert c in Elems(done);
    }
  }

  lemma VisitNext(items: Items, p: Bytes, done: seq<Bytes>, c: Bytes)
    requires c in Children(items, p) && c !in done
    requires forall d :: d in done ==> d in Children(items, p)
    ensures Visited(items, done + [c]) == Visited(items, done) + Region(items, c)
    ensures Visited(items, done) !! Region(items, c)
    ensures Visited(items, done + [c]) <= Under(items, p)
  {
    forall k | k in Visited(items, done) ensures k !in Region(items, c) {
      var d :| d in done && Beneath(k, d);
      RegionsApart(items, p, c, d);
      assert k in Region(items, d);
    }
    forall k | k in Visited(items, done + [c]) ensures k in Visited(items, done) + Region(items, c) {
      var d :| d in done + [c] && Beneath(k, d);
    }
    forall k | k in Region(items, c) ensures k in Visited(items, done + [c]) {
      assert c in done + [c];
    }
    forall k | k in Visited(items, done) ensures k in Visited(items, done + [c]) {
      var d :| d in done && Beneath(k, d);
      assert d in done + [c];
    }
    RegionSplit(items, p, c);
    forall k | k in Visited(items, done) ensures k in Under(items, p) {
      var d :| d in done && Beneath(k, d);
      RegionSplit(items, p, d);
    }
  }

  lemma ParentOf(c: Bytes, k: Bytes)
    requires c + [SLASH] < k
    ensures k[..|c|] == c && k[|c|] == SLASH
  {
  }

  lemma FileIsLeaf(items: Items, c: Bytes)
    requires WellFormed(items) && c in items && !items[c].Dir?
    ensures Region(items, c) == {c} && Under(items, c + [SLASH]) == {}
  {
    forall k | k in items ensures !(c + [SLASH] < k) {
      if c + [SLASH] < k {
        ParentOf(c, k);
      }
    }
  }
}
