/** `listFiles`: the recursive walk over a backup tree. */
module Walk {
  import opened Bytes
  import opened Manifests
  import opened Paths
  import opened Sorting
  import opened Trees

  const MAX_DEPTH: nat := 256

  function Slashes(p: Bytes): nat {
    if p == [] then 0 else (if p[|p| - 1] == SLASH then 1 else 0) + Slashes(p[..|p| - 1])
  }

  /** What the walk demands of one entry. */
  predicate EntryOk(items: Items, k: Bytes)
    requires k in items
  {
    ValidRelative(k) && SafeItem(items[k]) && (items[k].Dir? ==> Slashes(k + [SLASH]) <= MAX_DEPTH)
  }

  predicate AllOk(items: Items, s: set<Bytes>)
    requires s <= items.Keys
  {
    forall k :: k in s ==> EntryOk(items, k)
  }

  /** The trees `listFiles` accepts. */
  predicate Walkable(items: Items) {
    |items| <= MAX_ENTRIES + 1 && AllOk(items, items.Keys)
  }

  function FilePaths(items: Items): set<Bytes> {
    FilesAmong(items, items.Keys)
  }

  // ---------- the rules for a tree ----------

  function SlashesIn(p: Bytes): set<int> {
    set j | 0 <= j < |p| && p[j] == 47
  }

  lemma {:induction false} SlashesExactly(p: Bytes)
    ensures Slashes(p) == |SlashesIn(p)|
  {
    if p != [] {
      var q := p[..|p| - 1];
      SlashesExactly(q);
      assert SlashesIn(p) == SlashesIn(q) + (if p[|p| - 1] == SLASH then {|p| - 1} else {});
    }
  }

  /** What may be in a tree: private directories and files of the running user, with no other link. */
  ghost predicate TreeRules(items: Items) {
    && |items| <= 100001
    && forall k :: k in items ==>
         && NameRules(k) && items[k].attr.owned && items[k].attr.private
         && match items[k] {
              case Dir(_) => |SlashesIn(k)| <= 255
              case File(_, attr) => attr.links == 1
              case Special(_) => false
            }
  }

  lemma WalkableExactly(items: Items)
    ensures Walkable(items) <==> TreeRules(items)
  {
    hide NameRules, ValidRelative, Slashes, SlashesIn;
    forall k | k in items ensures ValidRelative(k) <==> NameRules(k) {
      ValidRelativeExactly(k);
    }
    forall k | k in items ensures Slashes(k + [SLASH]) == |SlashesIn(k)| + 1 {
      SlashesExactly(k);
      OneMoreSlash(k);
    }
  }

  lemma OneMoreSlash(p: Bytes)
    ensures Slashes(p + [SLASH]) == Slashes(p) + 1
  {
  }

  /** What a walk that started with `count` entries and `files` has done over the paths `s`. */
  ghost predicate Walked(items: Items, s: set<Bytes>, count: nat, files: seq<Bytes>, count': nat, files': seq<Bytes>) {
    && s <= items.Keys && AllOk(items, s)
    && count' == count + |s| && count' <= MAX_ENTRIES + 1
    && Distinct(files') && Elems(files') == Elems(files) + FilesAmong(items, s)
  }

  /** Why a walk over the paths `s` fails. */
  ghost predicate Unwalkable(items: Items, s: set<Bytes>, count: nat) {
    s <= items.Keys && (!AllOk(items, s) || count + |s| > MAX_ENTRIES + 1)
  }

  /** The state of the loop over one directory, after the children `done`. */
  ghost predicate Progress(items: Items, p: Bytes, done: seq<Bytes>, count: nat, files: seq<Bytes>,
                           count': nat, files': seq<Bytes>) {
    var vis := Visited(items, done);
    && vis <= items.Keys && AllOk(items, vis)
    && count' == count + |Children(items, p) + vis| && count' <= MAX_ENTRIES + 1
    && Distinct(files') && Elems(files') == Elems(files) + FilesAmong(items, vis)
  }

  /** What handling the child `c` does. */
  ghost predicate EntryDone(items: Items, c: Bytes, count: nat, files: seq<Bytes>, count': nat, files': seq<Bytes>) {
    && Region(items, c) <= items.Keys && AllOk(items, Region(items, c))
    && count' == count + |Under(items, c + [SLASH])| && count' <= MAX_ENTRIES + 1
    && Distinct(files') && Elems(files') == Elems(files) + FilesAmong(items, Region(items, c))
  }

  ghost predicate EntryFails(items: Items, c: Bytes, count: nat) {
    Region(items, c) <= items.Keys &&
    (!AllOk(items, Region(items, c)) || count + |Under(items, c + [SLASH])| > MAX_ENTRIES + 1)
  }

  lemma Begin(items: Items, p: Bytes, count: nat, files: seq<Bytes>)
    requires Distinct(files) && count + |Children(items, p)| <= MAX_ENTRIES + 1
    ensures Progress(items, p, [], count, files, count + |Children(items, p)|, files)
  {
  }

  lemma TooMany(items: Items, p: Bytes, count: nat)
    requires count + |Children(items, p)| > MAX_ENTRIES + 1
    ensures Unwalkable(items, Under(items, p), count)
  {
    SubsetSize(Children(items, p), Under(items, p));
  }

  /** The next child's descendants have not been counted before. */
  lemma SeenNext(items: Items, p: Bytes, done: seq<Bytes>, c: Bytes)
    requires c in Children(items, p) && c !in done
    requires forall d :: d in done ==> d in Children(items, p)
    ensures var seen := Children(items, p) + Visited(items, done);
            && seen !! Under(items, c + [SLASH])
            && Children(items, p) + Visited(items, done + [c]) == seen + Under(items, c + [SLASH])
  {
    VisitNext(items, p, done, c);
    RegionSplit(items, p, c);
    forall k | k in Under(items, c + [SLASH]) ensures k !in Children(items, p) {
      assert k[|p|..][|c| - |p|] == (c + [SLASH])[|c|];
    }
  }

  lemma StepOk(items: Items, p: Bytes, done: seq<Bytes>, c: Bytes, count: nat, files: seq<Bytes>,
               count1: nat, files1: seq<Bytes>, count2: nat, files2: seq<Bytes>)
    requires c in Children(items, p) && c !in done
    requires forall d :: d in done ==> d in Children(items, p)
    requires Progress(items, p, done, count, files, count1, files1)
    requires EntryDone(items, c, count1, files1, count2, files2)
    ensures Progress(items, p, done + [c], count, files, count2, files2)
  {
    hide EntryOk, Visited, Region, Under, Children;
    SeenNext(items, p, done, c);
    VisitNext(items, p, done, c);
    var vis, reg := Visited(items, done), Region(items, c);
    assert FilesAmong(items, vis + reg) == FilesAmong(items, vis) + FilesAmong(items, reg);
  }

  lemma StepFails(items: Items, p: Bytes, done: seq<Bytes>, c: Bytes, count: nat, files: seq<Bytes>,
                  count1: nat, files1: seq<Bytes>)
    requires c in Children(items, p) && c !in done
    requires forall d :: d in done ==> d in Children(items, p)
    requires Progress(items, p, done, count, files, count1, files1)
    requires EntryFails(items, c, count1)
    ensures Unwalkable(items, Under(items, p), count)
  {
    SeenNext(items, p, done, c);
    VisitNext(items, p, done, c);
    RegionSplit(items, p, c);
    var seen := Children(items, p) + Visited(items, done) + Under(items, c + [SLASH]);
    SubsetSize(seen, Under(items, p));
  }

  lemma Finish(items: Items, p: Bytes, done: seq<Bytes>, count: nat, files: seq<Bytes>, count': nat, files': seq<Bytes>)
    requires WellFormed(items) && DirPrefix(p) && Elems(done) == Children(items, p)
    requires Progress(items, p, done, count, files, count', files')
    ensures Walked(items, Under(items, p), count, files, count', files')
  {
    VisitedAll(items, p, done);
    assert Children(items, p) + Under(items, p) == Under(items, p);
  }

  /** Files found in the children already visited are not below the next child. */
  lemma FilesApart(items: Items, p: Bytes, done: seq<Bytes>, c: Bytes, count: nat, files: seq<Bytes>,
                   count': nat, files': seq<Bytes>)
    requires c in Children(items, p) && c !in done
    requires forall d :: d in done ==> d in Children(items, p)
    requires Elems(files) !! Under(items, p)
    requires Progress(items, p, done, count, files, count', files')
    ensures Elems(files') !! Region(items, c) && Distinct(files') && count' <= MAX_ENTRIES + 1
  {
    VisitNext(items, p, done, c);
    RegionSplit(items, p, c);
  }

  /** One entry: a file is recorded, a directory is walked. */
  method WalkEntry(items: Items, p: Bytes, c: Bytes, count: nat, files: seq<Bytes>)
      returns (ok: bool, count': nat, files': seq<Bytes>)
    requires WellFormed(items) && DirPrefix(p) && c in Children(items, p) && count <= MAX_ENTRIES + 1
    requires Distinct(files) && Elems(files) !! Region(items, c)
    ensures ok ==> EntryDone(items, c, count, files, count', files')
    ensures !ok ==> EntryFails(items, c, count)
    decreases Region(items, c), 0
  {
    hide ValidRelative;
    count', files' := count, files;
    RegionSplit(items, p, c);
    ok := ValidRelative(c) && SafeEntry(items[c], items[c].Dir?);
    if !ok {
      assert !EntryOk(items, c);
      return;
    }
    if items[c].Dir? {
      ok, count', files' := WalkDir(items, c + [SLASH], count, files);
      EntryDir(items, p, c, ok, count, files, count', files');
    } else {
      FileIsLeaf(items, c);
      files' := files + [c];
      EntryFile(items, c, files, files');
    }
  }

  /** The names of a directory, read in any order and sorted. */
  method SortedChildren(items: Items, p: Bytes) returns (names: seq<Bytes>)
    ensures Elems(names) == Children(items, p) && Distinct(names) && |names| == |Children(items, p)|
    ensures SortedBy(Less, names)
  {
    hide Children;
    names := Enumerate(Children(items, p));
    DistinctCount(names);
    names := SortStrings(names);
    LessIsStrictOrder(Elems(names));
    SortedIsDistinct(Less, names);
  }

  method WalkDir(items: Items, p: Bytes, count: nat, files: seq<Bytes>)
      returns (ok: bool, count': nat, files': seq<Bytes>)
    requires WellFormed(items) && DirPrefix(p) && count <= MAX_ENTRIES + 1
    requires Distinct(files) && Elems(files) !! Under(items, p)
    ensures ok ==> Slashes(p) <= MAX_DEPTH && Walked(items, Under(items, p), count, files, count', files')
    ensures !ok ==> Slashes(p) > MAX_DEPTH || Unwalkable(items, Under(items, p), count)
    decreases Under(items, p), 1
  {
    hide EntryOk, Region, Visited, Unwalkable, Walked, EntryDone, EntryFails, WellFormed, SortedBy, Children, Under,
         Slashes, Progress;
    count', files' := count, files;
    if Slashes(p) > MAX_DEPTH {
      return false, count', files';
    }
    var names := SortedChildren(items, p);
    if count + |names| > MAX_ENTRIES + 1 {
      TooMany(items, p, count);
      return false, count', files';
    }
    count' := count + |names|;
    Begin(items, p, count, files);
    assert names[..0] == [];
    for i := 0 to |names|
      invariant Progress(items, p, names[..i], count, files, count', files')
    {
      NextOf(names, i);
      FilesApart(items, p, names[..i], names[i], count, files, count', files');
      RegionSplit(items, p, names[i]);
      ghost var count1, files1 := count', files';
      ok, count', files' := WalkEntry(items, p, names[i], count', files');
      if !ok {
        StepFails(items, p, names[..i], names[i], count, files, count1, files1);
        return;
      }
      StepOk(items, p, names[..i], names[i], count, files, count1, files1, count', files');
    }
    assert names[..|names|] == names;
    Finish(items, p, names, count, files, count', files');
    ok := true;
  }

  lemma EntryFile(items: Items, c: Bytes, files: seq<Bytes>, files': seq<Bytes>)
    requires c in items && items[c].File? && Region(items, c) == {c} && Distinct(files) && c !in Elems(files)
    requires files' == files + [c]
    ensures Distinct(files') && Elems(files') == Elems(files) + FilesAmong(items, Region(items, c))
  {
  }

  lemma EntryDir(items: Items, p: Bytes, c: Bytes, ok: bool, count: nat, files: seq<Bytes>,
                 count': nat, files': seq<Bytes>)
    requires c in Children(items, p) && items[c].Dir? && ValidRelative(c) && SafeItem(items[c])
    requires ok ==> Slashes(c + [SLASH]) <= MAX_DEPTH
                    && Walked(items, Under(items, c + [SLASH]), count, files, count', files')
    requires !ok ==> Slashes(c + [SLASH]) > MAX_DEPTH || Unwalkable(items, Under(items, c + [SLASH]), count)
    ensures ok ==> EntryDone(items, c, count, files, count', files')
    ensures !ok ==> EntryFails(items, c, count)
  {
    hide ValidRelative;
    RegionSplit(items, p, c);
    var below := Under(items, c + [SLASH]);
    assert FilesAmong(items, {c} + below) == FilesAmong(items, below);
    if !ok && Slashes(c + [SLASH]) > MAX_DEPTH {
      assert !EntryOk(items, c);
    }
  }

  /** The list `files` is the sorted list of the regular files of the tree. */
  ghost predicate IsListing(files: seq<Bytes>, items: Items) {
    SortedBy(Less, files) && Elems(files) == FilePaths(items)
  }

  /**
   * `listFiles`. It succeeds exactly on the walkable trees, those that follow the rules, and
   * then returns the paths of all regular files at any depth, in increasing byte order.
   */
  method ListFiles(items: Items) returns (r: Option<seq<Bytes>>)
    requires WellFormed(items)
    ensures r.Some? <==> Walkable(items)
    ensures r.Some? ==> IsListing(r.value, items) && |r.value| <= MAX_ENTRIES + 1
    ensures r.Some? ==> forall f :: f in r.value ==> ValidRelative(f)
    ensures r.Some? <==> TreeRules(items)
    ensures r.Some? ==> forall f :: f in r.value <==> f in items && items[f].File?
    ensures r.Some? ==> forall i, j :: 0 <= i < j < |r.value| ==> Less(r.value[i], r.value[j])
  {
    WalkableExactly(items);
    hide EntryOk, ValidRelative, TreeRules, Less;
    EverythingUnder(items);
    var ok, count, files := WalkDir(items, [], 0, []);
    if !ok {
      return None;
    }
    Listed(items, count, files);
    r := Some(SortStrings(files));
    assert forall f :: f in r.value <==> f in Elems(r.value);
  }

  lemma Listed(items: Items, count: nat, files: seq<Bytes>)
    requires Walked(items, items.Keys, 0, [], count, files)
    ensures Walkable(items) && Elems(files) == FilePaths(items) && |files| <= |items|
    ensures forall f :: f in Elems(files) ==> ValidRelative(f)
  {
    hide ValidRelative;
    assert |items| == |items.Keys|;
    DistinctCount(files);
    SubsetSize(Elems(files), items.Keys);
    forall f | f in Elems(files) ensures ValidRelative(f) {
      assert EntryOk(items, f);
    }
  }

  /**
   * Directories are read in the order of their names, but a path below `c` does not come
   * before the sibling `d` when `d` goes on from `c` with a byte below the slash. That is
   * why the complete list is sorted once more.
   */
  lemma {:induction false} SiblingOrder(c: Bytes, d: Bytes, rest: Bytes)
    requires Less(c, d) && SLASH !in d
    ensures Less(c + [SLASH] + rest, d) <==> !(c < d && d[|c|] < SLASH)
  {
    if c == [] {
      assert d[0] in d;
      assert c + [SLASH] + rest == [SLASH] + rest;
    } else if c[0] == d[0] {
      SiblingOrder(c[1..], d[1..], rest);
      assert (c + [SLASH] + rest)[1..] == c[1..] + [SLASH] + rest;
      assert c < d <==> c[1..] < d[1..];
    }
  }
}
