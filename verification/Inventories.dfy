/** `inspectContext`: the inventory of the backup root. */
module Inventories {
  import opened Audit
  import opened Bytes
  import opened Disks
  import opened Manifests
  import opened Sorting
  import opened Trees
  import opened Volumes

  datatype Status = Status(backups: seq<Name>, incomplete: seq<Name>, pending: seq<Name>, last: Option<Name>)

  // ---------- the order of the inventory ----------

  /** When the backup behind a name was prepared, by its own metadata. */
  function PreparedTime(codec: Codec, d: Disk, n: Name): int {
    if n in d.root && d.root[n] in d.trees then
      match MetadataIn(codec, d.trees[d.root[n]].items)
      case Some(m) => (match m.prepared case Some(t) => t case None => 0)
      case None => 0
    else 0
  }

  ghost function PreparedTimes(codec: Codec, d: Disk): map<Name, int> {
    map n | n in BackupNames(d.root) :: PreparedTime(codec, d, n)
  }

  /** Later preparation first, and at equal times the greater name first. */
  predicate Before(prepared: map<Name, int>, a: Name, b: Name) {
    && a in prepared && b in prepared && a.Backup? && b.Backup?
    && (prepared[a] > prepared[b] || (prepared[a] == prepared[b] && Less(b.id, a.id)))
  }

  function Order(prepared: map<Name, int>): (Name, Name) -> bool {
    (a: Name, b: Name) => Before(prepared, a, b)
  }

  lemma OrderIsStrict(prepared: map<Name, int>, s: set<Name>)
    requires s <= prepared.Keys && forall n :: n in s ==> n.Backup?
    ensures StrictOrderOn(Order(prepared), s)
  {
    hide Less;
    forall a | a in s ensures !Before(prepared, a, a) { LessIrreflexive(a.id); }
    forall a, b | a in s && b in s && a != b ensures Before(prepared, a, b) || Before(prepared, b, a) {
      LessTotal(a.id, b.id);
    }
    forall a, b, c | a in s && b in s && c in s && Before(prepared, a, b) && Before(prepared, b, c)
      ensures Before(prepared, a, c)
    {
      if prepared[a] == prepared[c] {
        LessTransitive(c.id, b.id, a.id);
      }
    }
  }

  /** The byte order of the names: a managed name's kind decides before its suffix does. */
  predicate NameLess(a: Name, b: Name) {
    Kind(a) < Kind(b) || (Kind(a) == Kind(b) && Less(Suffix(a), Suffix(b)))
  }

  function Kind(n: Name): nat {
    match n
    case Deleting(_) => 0
    case LegacyInProgress(_) => 1
    case Backup(_) => 2
    case InProgress(_) => 3
    case Other(_) => 4
  }

  function Suffix(n: Name): Bytes {
    match n
    case Deleting(id) => id
    case LegacyInProgress(id) => id
    case Backup(id) => id
    case InProgress(id) => id
    case Other(text) => text
  }

  /** The whole name of a managed entry. */
  function TextOf(n: Name): Bytes
    requires !n.Other?
  {
    match n
    case Deleting(id) => Ascii(".deleting-") + id
    case LegacyInProgress(id) => Ascii(".inprogress-") + id
    case Backup(id) => Ascii("backup-") + id
    case InProgress(id) => Ascii("inprogress-") + id
  }

  lemma {:induction false} SamePrefix(s: Bytes, t: Bytes, k: nat)
    requires k <= |s| && k <= |t| && s[..k] == t[..k]
    ensures Less(s, t) <==> Less(s[k..], t[k..])
  {
    if k > 0 {
      assert s[0] == s[..k][0] == t[..k][0] == t[0];
      assert s[1..][..k - 1] == s[..k][1..] && t[1..][..k - 1] == t[..k][1..];
      SamePrefix(s[1..], t[1..], k - 1);
      assert s[1..][k - 1..] == s[k..] && t[1..][k - 1..] == t[k..];
    }
  }

  /** The order of the names is the byte order of their texts. */
  lemma NameLessExactly(a: Name, b: Name)
    requires !a.Other? && !b.Other?
    ensures NameLess(a, b) <==> Less(TextOf(a), TextOf(b))
  {
    if Kind(a) == Kind(b) {
      var k := |TextOf(a)| - |Suffix(a)|;
      assert TextOf(a)[..k] == TextOf(b)[..k] && TextOf(a)[k..] == Suffix(a) && TextOf(b)[k..] == Suffix(b);
      SamePrefix(TextOf(a), TextOf(b), k);
    } else {
      OtherKind(a, b);
    }
  }

  lemma OtherKind(a: Name, b: Name)
    requires !a.Other? && !b.Other? && Kind(a) != Kind(b)
    ensures Less(TextOf(a), TextOf(b)) <==> Kind(a) < Kind(b)
  {
  }

  lemma NameOrderIsStrict(s: set<Name>)
    ensures StrictOrderOn(NameLess, s)
  {
    hide Less;
    forall a | a in s ensures !NameLess(a, a) { LessIrreflexive(Suffix(a)); }
    forall a, b | a in s && b in s && a != b ensures NameLess(a, b) || NameLess(b, a) {
      if Kind(a) == Kind(b) {
        LessTotal(Suffix(a), Suffix(b));
      }
    }
    forall a, b, c | a in s && b in s && c in s && NameLess(a, b) && NameLess(b, c) ensures NameLess(a, c) {
      if Kind(a) == Kind(c) {
        LessTransitive(Suffix(a), Suffix(b), Suffix(c));
      }
    }
  }

  // ---------- the order by what the backups say of themselves ----------

  /** The metadata of the backup says that it was prepared at `t`. */
  ghost predicate PreparedAt(codec: Codec, d: Disk, n: Name, t: int) {
    && n in d.root && d.root[n] in d.trees && Ascii("xbkeeper.json") in d.trees[d.root[n]].items
    && d.trees[d.root[n]].items[Ascii("xbkeeper.json")].File?
    && codec.decode(d.trees[d.root[n]].items[Ascii("xbkeeper.json")].data).Some?
    && codec.decode(d.trees[d.root[n]].items[Ascii("xbkeeper.json")].data).value.prepared == Some(t)
  }

  /** The backup `n` was prepared later than `m`; or at the same time, and its id is the greater text. */
  ghost predicate Newer(codec: Codec, d: Disk, n: Name, m: Name) {
    && n.Backup? && m.Backup?
    && exists s, t :: PreparedAt(codec, d, n, s) && PreparedAt(codec, d, m, t)
         && (s > t || (s == t && exists k :: LessAt(m.id, n.id, k)))
  }

  lemma TimeIsPrepared(codec: Codec, d: Disk, n: Name)
    requires n in BackupNames(d.root) && EntryValid(codec, d, n)
    ensures PreparedAt(codec, d, n, PreparedTime(codec, d, n))
  {
    hide CheckpointIn, Structural;
    ValidHasTime(codec, d.trees[d.root[n]]);
  }

  /** The inventory order puts the newer backup first. */
  lemma BeforeIsNewer(codec: Codec, d: Disk, n: Name, m: Name)
    requires EntryValid(codec, d, n) && EntryValid(codec, d, m)
    requires Before(PreparedTimes(codec, d), n, m)
    ensures Newer(codec, d, n, m)
  {
    hide EntryValid, PreparedTime, PreparedAt, Less;
    TimeIsPrepared(codec, d, n);
    TimeIsPrepared(codec, d, m);
    LessExactly(m.id, n.id);
  }

  /** What may stand in the root: valid backups, and stages that can be removed. */
  ghost predicate EntryRules(codec: Codec, d: Disk, n: Name) {
    && n in d.root && d.root[n] in d.trees
    && (n.Backup? ==> BackupRules(codec, d.trees[d.root[n]]))
    && (n.InProgress? || n.LegacyInProgress? ==> SafeTree(d.trees[d.root[n]]))
  }

  lemma EntryExactly(codec: Codec, d: Disk, n: Name)
    ensures EntryValid(codec, d, n) <==> EntryRules(codec, d, n)
  {
    hide ValidBackup, BackupRules, SafeTree;
    if n in d.root && d.root[n] in d.trees {
      ValidExactly(codec, d.trees[d.root[n]]);
    }
  }

  lemma InventoryIsNewestFirst(codec: Codec, d: Disk, s: Status)
    requires IsInventory(codec, d, s)
    ensures forall i, j :: 0 <= i < j < |s.backups| ==> Newer(codec, d, s.backups[i], s.backups[j])
    ensures forall n :: n in d.root ==> EntryRules(codec, d, n)
    ensures forall n :: n in d.root && n.Backup? ==> s.last.Some? && (n == s.last.value || Newer(codec, d, s.last.value, n))
  {
    hide EntryValid, EntryRules, PreparedTime, Newer, Less;
    forall n | n in d.root ensures EntryRules(codec, d, n) {
      EntryExactly(codec, d, n);
    }
    forall i, j | 0 <= i < j < |s.backups| ensures Newer(codec, d, s.backups[i], s.backups[j]) {
      assert s.backups[i] in Elems(s.backups) && s.backups[j] in Elems(s.backups);
      BeforeIsNewer(codec, d, s.backups[i], s.backups[j]);
    }
    forall n | n in d.root && n.Backup? ensures s.last.Some? && (n == s.last.value || Newer(codec, d, s.last.value, n)) {
      assert n in Elems(s.backups);
      var j :| 0 <= j < |s.backups| && s.backups[j] == n;
    }
  }

  // ---------- inspectContext ----------

  /** What the scan requires of the entry behind a name of the root. */
  ghost predicate EntryValid(codec: Codec, d: Disk, n: Name) {
    && n in d.root && d.root[n] in d.trees
    && (n.Backup? ==> ValidBackup(codec, d.trees[d.root[n]]))
    && (n.InProgress? || n.LegacyInProgress? ==> SafeTree(d.trees[d.root[n]]))
  }

  datatype Lists = Lists(backups: seq<Name>, incomplete: seq<Name>, pending: seq<Name>, prepared: map<Name, int>)

  predicate IsStage(n: Name) {
    n.InProgress? || n.LegacyInProgress?
  }

  /** The lists after the names `seen`: each managed name in its list, the others in none. */
  ghost predicate Classified(codec: Codec, d: Disk, seen: set<Name>, l: Lists) {
    && Distinct(l.backups) && Elems(l.backups) == (set n | n in seen && n.Backup?)
    && Distinct(l.incomplete) && Elems(l.incomplete) == (set n | n in seen && IsStage(n))
    && Distinct(l.pending) && Elems(l.pending) == (set n | n in seen && n.Deleting?)
    && (forall n :: n in seen ==> EntryValid(codec, d, n))
    && l.prepared == map n | n in seen && n.Backup? :: PreparedTime(codec, d, n)
  }

  function Listed(l: Lists, n: Name, time: int): Lists {
    match n
    case Deleting(_) => l.(pending := l.pending + [n])
    case Backup(_) => l.(backups := l.backups + [n], prepared := l.prepared[n := time])
    case Other(_) => l
    case _ => l.(incomplete := l.incomplete + [n])
  }

  lemma AppendNew(q: seq<Name>, n: Name)
    requires Distinct(q) && n !in Elems(q)
    ensures Distinct(q + [n]) && Elems(q + [n]) == Elems(q) + {n}
  {
  }

  lemma ListedNext(codec: Codec, d: Disk, seen: set<Name>, l: Lists, n: Name)
    requires Classified(codec, d, seen, l) && n !in seen && EntryValid(codec, d, n)
    ensures Classified(codec, d, seen + {n}, Listed(l, n, PreparedTime(codec, d, n)))
  {
    hide EntryValid, PreparedTime, Distinct, Elems;
    match n
    case Deleting(_) => AppendNew(l.pending, n);
    case Backup(_) => AppendNew(l.backups, n);
    case Other(_) =>
    case _ => AppendNew(l.incomplete, n);
  }

  /** `validBackupContext` on the tree behind a name. */
  method CheckBackup(v: Volume, codec: Codec, t: Tree) returns (ok: bool)
    requires v.Valid() && Sound(t)
    modifies v`faults
    ensures v.Valid() && v.Extends()
    ensures ok ==> ValidBackup(codec, t)
    ensures !ok ==> v.faults > old(v.faults) || !ValidBackup(codec, t)
  {
    hide Volume.Valid, ValidRoot;
    ok := v.Attempt();
    if !ok || !SafeEntry(t.top, true) {
      return false;
    }
    SoundIsWellFormed(t);
    ok := ValidBackupRoot(codec, t.items);
  }

  lemma SoundIsWellFormed(t: Tree)
    requires Sound(t)
    ensures WellFormed(t.items)
  {
  }

  lemma EntryTree(v: Volume, n: Name)
    requires v.Valid() && n in v.disk.root
    ensures v.disk.root[n] in v.disk.trees && Sound(v.disk.trees[v.disk.root[n]])
  {
  }

  lemma ValidHasTime(codec: Codec, t: Tree)
    requires ValidBackup(codec, t)
    ensures Control(t.items, METADATA_NAME, MAX_CONTROL).Some?
    ensures MetadataIn(codec, t.items).Some? && MetadataIn(codec, t.items).value.prepared.Some?
  {
  }

  /** One entry of the scan. */
  method ScanName(v: Volume, codec: Codec, n: Name, l: Lists) returns (ok: bool, l': Lists)
    requires v.Valid() && n in v.disk.root
    modifies v`faults
    ensures v.Valid() && v.Extends()
    ensures ok ==> EntryValid(codec, v.disk, n) && l' == Listed(l, n, PreparedTime(codec, v.disk, n))
    ensures !ok ==> v.faults > old(v.faults) || !EntryValid(codec, v.disk, n)
  {
    hide Volume.Valid, ValidBackup, Sound, SafeTree, Control;
    l' := l;
    EntryTree(v, n);
    var t := v.disk.trees[v.disk.root[n]];
    ok := v.Attempt();
    if !ok {
      return;
    }
    match n
    case Other(_) =>
    case Deleting(_) =>
      l' := l.(pending := l.pending + [n]);
    case Backup(_) =>
      ok := CheckBackup(v, codec, t);
      if !ok {
        return;
      }
      ok := v.Attempt();
      if !ok {
        return;
      }
      ValidHasTime(codec, t);
      var m := MetadataIn(codec, t.items).value;
      l' := l.(backups := l.backups + [n], prepared := l.prepared[n := m.prepared.value]);
    case _ =>
      ok := SafeTree(t);
      if !ok {
        return;
      }
      l' := l.(incomplete := l.incomplete + [n]);
  }

  /** The inventory of a disk: three exact lists, the backups in order, the first of them the last success. */
  ghost predicate IsInventory(codec: Codec, d: Disk, s: Status) {
    && Elems(s.backups) == BackupNames(d.root) && SortedBy(Order(PreparedTimes(codec, d)), s.backups)
    && Elems(s.incomplete) == StageNames(d.root) && SortedBy(NameLess, s.incomplete)
    && Elems(s.pending) == DeletingNames(d.root) && SortedBy(NameLess, s.pending)
    && s.last == (if s.backups == [] then None else Some(s.backups[0]))
    && (forall n :: n in d.root ==> EntryValid(codec, d, n))
  }

  /** `inspectContext`. */
  method Inspect(v: Volume, codec: Codec) returns (ok: bool, s: Status)
    requires v.Valid()
    modifies v`faults
    ensures v.Valid() && v.Extends()
    ensures ok ==> IsInventory(codec, v.disk, s)
    ensures ok ==> forall n :: n in v.disk.root ==> EntryRules(codec, v.disk, n)
    ensures ok ==> forall i, j :: 0 <= i < j < |s.backups| ==> Newer(codec, v.disk, s.backups[i], s.backups[j])
    ensures ok ==> forall n :: n in v.disk.root && n.Backup? ==>
              s.last.Some? && (n == s.last.value || Newer(codec, v.disk, s.last.value, n))
    ensures !ok ==> v.faults > old(v.faults) || exists n :: n in v.disk.root && !EntryValid(codec, v.disk, n)
  {
    hide Volume.Valid, Classified, EntryValid, IsInventory, Listed, PreparedTime, Newer, EntryRules;
    s := Status([], [], [], None);
    ok := v.Attempt();
    if !ok {
      return;
    }
    var names := Enumerate(v.disk.root.Keys);
    var l := Lists([], [], [], map[]);
    NothingListed(codec, v.disk);
    assert names[..0] == [];
    for i := 0 to |names|
      invariant v.Valid() && v.Extends() && Classified(codec, v.disk, Elems(names[..i]), l)
    {
      NextOf(names, i);
      ghost var before := l;
      ok, l := ScanName(v, codec, names[i], l);
      if !ok {
        return;
      }
      ListedNext(codec, v.disk, Elems(names[..i]), before, names[i]);
    }
    assert names[..|names|] == names;
    Arranged(codec, v.disk, l);
    var backups := Sort(Order(l.prepared), l.backups);
    s := Status(backups, Sort(NameLess, l.incomplete), Sort(NameLess, l.pending),
                if |backups| > 0 then Some(backups[0]) else None);
    Inventoried(codec, v.disk, l, s);
    InventoryIsNewestFirst(codec, v.disk, s);
    ok := v.Attempt();
  }

  lemma NothingListed(codec: Codec, d: Disk)
    ensures Classified(codec, d, Elems([]), Lists([], [], [], map[]))
  {
  }

  /** The scanned lists can be sorted. */
  lemma Arranged(codec: Codec, d: Disk, l: Lists)
    requires Classified(codec, d, d.root.Keys, l)
    ensures Distinct(l.backups) && StrictOrderOn(Order(l.prepared), Elems(l.backups))
    ensures Distinct(l.incomplete) && StrictOrderOn(NameLess, Elems(l.incomplete))
    ensures Distinct(l.pending) && StrictOrderOn(NameLess, Elems(l.pending))
  {
    hide EntryValid, PreparedTime;
    OrderIsStrict(l.prepared, Elems(l.backups));
    NameOrderIsStrict(Elems(l.incomplete));
    NameOrderIsStrict(Elems(l.pending));
  }

  lemma Inventoried(codec: Codec, d: Disk, l: Lists, s: Status)
    requires Classified(codec, d, d.root.Keys, l)
    requires Elems(s.backups) == Elems(l.backups) && SortedBy(Order(l.prepared), s.backups)
    requires Elems(s.incomplete) == Elems(l.incomplete) && SortedBy(NameLess, s.incomplete)
    requires Elems(s.pending) == Elems(l.pending) && SortedBy(NameLess, s.pending)
    requires s.last == if s.backups == [] then None else Some(s.backups[0])
    ensures IsInventory(codec, d, s)
  {
    hide EntryValid, PreparedTime, Less;
    assert l.prepared == PreparedTimes(codec, d);
  }

  /** The last success is the greatest backup of the inventory. */
  lemma LastIsGreatest(codec: Codec, d: Disk, s: Status, n: Name)
    requires IsInventory(codec, d, s) && n in BackupNames(d.root)
    ensures s.last.Some? && s.last.value in BackupNames(d.root)
    ensures n == s.last.value || Before(PreparedTimes(codec, d), s.last.value, n)
  {
    hide Less, PreparedTimes, EntryValid;
    assert n in Elems(s.backups);
    FirstIsLeast(Order(PreparedTimes(codec, d)), s.backups, n);
    assert s.backups[0] in Elems(s.backups);
  }
}
