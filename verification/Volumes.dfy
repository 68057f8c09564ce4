/**
 * The backup root as the engine uses it. Every operation may fail, and every state the disk
 * goes through is recorded.
 */
module Volumes {
  import opened Bytes
  import opened Disks
  import opened Trees
  import Containment

  datatype Phase = VersionPhase | BackupPhase | PreparePhase

  /**
   * What was done in the stage `ino`, and the tree that was there afterwards. `printed` is
   * what the phase has printed, without the white space around it.
   */
  datatype Event =
    | PhaseEnded(ino: Ino, phase: Phase, result: Containment.Outcome, printed: Bytes, tree: Tree)
    | FileWritten(ino: Ino, name: Bytes, ok: bool, tree: Tree)

  class Volume {
    var disk: Disk
    /** The trees of the backups, as they were when promoted. */
    ghost var sealed: map<Ino, Tree>
    /** Every state so far, the present one last. */
    var history: seq<Disk>
    /** From state `since` on, every state is to meet the promise. */
    var since: nat
    ghost var promise: Promise
    /** How many operations have failed and how many polls have found the run cancelled. */
    ghost var faults: nat
    /** Whether no operation fails and no poll finds the run cancelled. */
    const reliable: bool
    /** Every phase of a child and every file written since, each recorded by the operation itself. */
    ghost var events: seq<Event>

    ghost predicate Valid()
      reads this
    {
      && since < |history| && history[|history| - 1] == disk
      && (forall k :: 0 <= k < |history| ==> Safe(history[k], sealed))
      && (forall k :: since <= k < |history| ==> Meets(history[k], promise))
      && (forall i :: i in sealed ==> i < disk.next)
      && (forall k :: 0 <= k < |history| ==> history[k].next <= disk.next)
      && (reliable ==> faults == 0)
    }

    /** States are only added, and what is sealed stays sealed as it is. */
    twostate predicate Grows()
      reads this
    {
      && old(history) <= history && faults >= old(faults) && old(events) <= events
      && forall i :: i in old(sealed) ==> i in sealed && sealed[i] == old(sealed)[i]
    }

    /** The same, under the same promise. */
    twostate predicate Extends()
      reads this
    {
      Grows() && since == old(since) && promise == old(promise)
    }

    /** The events since then. */
    twostate function News(): seq<Event>
      reads this
    {
      if old(events) <= events then events[|old(events)|..] else []
    }

    /** A volume found in a safe state. */
    constructor (d: Disk, ghost sealed: map<Ino, Tree>, reliable: bool)
      requires Safe(d, sealed) && forall i :: i in sealed ==> i < d.next
      ensures Valid() && disk == d && this.sealed == sealed && history == [d] && this.reliable == reliable
    {
      disk, this.sealed, history, this.reliable := d, sealed, [d], reliable;
      since, promise, faults, events := 0, Promise(0, map[], false), 0, [];
    }

    /** Makes a promise, which the present state meets, for all states from now on. */
    method Undertake(ghost p: Promise)
      requires Valid() && Meets(disk, p)
      modifies this`since, this`promise
      ensures Valid() && since == |history| - 1 && promise == p
    {
      hide Safe, Meets;
      since, promise := |history| - 1, p;
    }

    /** The one way the disk changes. */
    method Commit(d: Disk)
      requires Valid() && Safe(d, sealed) && Meets(d, promise) && d.next >= disk.next
      modifies this`disk, this`history
      ensures Valid() && Extends() && disk == d && history == old(history) + [d]
    {
      hide Safe, Meets;
      disk, history := d, history + [d];
    }

    /** An operation of the system either succeeds or is counted as a fault. */
    method Attempt() returns (ok: bool)
      modifies this`faults
      ensures faults == if ok then old(faults) else old(faults) + 1
      ensures Extends() && (old(Valid()) ==> Valid()) && (reliable ==> ok)
    {
      ok := *;
      ok := ok || reliable;
      if !ok {
        faults := faults + 1;
      }
    }

    /** `ctx.Err()`, where the context can be cancelled at all. */
    method Poll(cancellable: bool) returns (stop: bool)
      modifies this`faults
      ensures stop ==> cancellable && faults > old(faults)
      ensures Extends() && (old(Valid()) ==> Valid()) && (reliable ==> !stop)
    {
      var ok := Attempt();
      stop := cancellable && !ok;
    }

    /** Records an event; it changes nothing else. */
    ghost method Record(e: Event)
      modifies this`events
      ensures events == old(events) + [e] && Extends() && (old(Valid()) ==> Valid())
    {
      events := events + [e];
    }

    lemma Now()
      requires Valid()
      ensures Safe(disk, sealed) && Meets(disk, promise) && disk.root in disk.possible
    {
    }

    /** `Mkdir` of a stage: fails if the name is there. */
    method Mkdir(n: Name) returns (ok: bool, i: Ino)
      requires Valid() && n.InProgress? && (promise.oneStage ==> StageNames(disk.root) == {})
      modifies this`disk, this`history, this`faults
      ensures Valid() && Extends()
      ensures !ok ==> disk == old(disk) && history == old(history) && (faults > old(faults) || n in disk.root)
      ensures ok ==> n !in old(disk.root) && i == old(disk.next) && disk == Created(old(disk), n)
    {
      hide Safe, Meets;
      i := disk.next;
      ok := Attempt();
      if !ok || n in disk.root {
        return false, i;
      }
      Now();
      CreatedSafe(disk, n, sealed);
      CreatedMeets(disk, n, promise);
      Commit(Created(disk, n));
    }

    /** A parent sync. On failure, what had reached the disk stays open. */
    method SyncParent() returns (ok: bool)
      requires Valid()
      modifies this`disk, this`history, this`faults
      ensures Valid() && Extends()
      ensures !ok ==> disk == old(disk) && history == old(history) && faults > old(faults)
      ensures ok ==> disk == SyncRoot(old(disk))
    {
      hide Safe, Meets;
      ok := Attempt();
      if ok {
        Now();
        SyncSafe(disk, sealed);
        SyncMeets(disk, promise);
        Commit(SyncRoot(disk));
      }
    }

    /** `fsync` of one entry of a tree. */
    method Fsync(i: Ino, p: Bytes) returns (ok: bool)
      requires Valid() && i in disk.unsynced
      modifies this`disk, this`history, this`faults
      ensures Valid() && Extends()
      ensures !ok ==> disk == old(disk) && faults > old(faults)
      ensures ok ==> disk == Synced(old(disk), i, p)
    {
      hide Safe, Meets;
      ok := Attempt();
      if ok {
        Now();
        SyncedSafe(disk, i, p, sealed);
        SameRootMeets(disk, Synced(disk, i, p), promise);
        Commit(Synced(disk, i, p));
      }
    }

    /** `Remove` of a name: of a file, or of a directory with nothing in it. */
    method RemoveName(n: Name) returns (ok: bool)
      requires Valid() && !n.Backup? && n in disk.root && disk.root[n] in disk.trees
      modifies this`disk, this`history, this`faults
      ensures Valid() && Extends()
      ensures !ok ==> disk == old(disk) && (faults > old(faults) || disk.trees[disk.root[n]].items != map[])
      ensures ok ==> old(disk.trees[disk.root[n]].items) == map[] && disk == Update(old(disk), Unlink(n))
    {
      hide Safe, Meets;
      ok := Attempt();
      if !ok || disk.trees[disk.root[n]].items != map[] {
        return false;
      }
      Now();
      UnlinkSafe(disk, n, sealed);
      UnlinkMeets(disk, n, promise);
      Commit(Update(disk, Unlink(n)));
    }

    /** The rename that turns a stage into a backup; its tree counts as sealed from then on. */
    method Promote(a: Name, b: Name) returns (ok: bool)
      requires Valid() && a.InProgress? && b.Backup? && a in disk.root && b !in disk.root
      requires Clean(disk, disk.root[a]) && disk.root[a] !in sealed && disk.root[a] < disk.next
      requires forall r :: r in disk.possible && a in r ==> r[a] == disk.root[a]
      modifies this`disk, this`history, this`faults, this`sealed
      ensures Valid() && Extends()
      ensures !ok ==> disk == old(disk) && sealed == old(sealed) && faults > old(faults)
      ensures ok ==> disk == Update(old(disk), Move(a, b))
      ensures ok ==> sealed == old(sealed)[old(disk.root[a]) := old(disk.trees[disk.root[a]])]
    {
      hide Safe, Meets;
      ok := Attempt();
      if !ok {
        return;
      }
      ghost var i := disk.root[a];
      Seal(i, disk.trees[i]);
      Now();
      PromoteSafe(disk, a, b, sealed, i);
      PromoteMeets(disk, a, b, promise);
      Commit(Update(disk, Move(a, b)));
    }

    ghost method Seal(i: Ino, t: Tree)
      requires Valid() && i !in sealed && i < disk.next
      modifies this`sealed
      ensures Valid() && sealed == old(sealed)[i := t]
    {
      hide Safe, Meets;
      forall k | 0 <= k < |history| ensures Safe(history[k], sealed[i := t]) {
        MoreSealed(history[k], sealed, i, t);
      }
      sealed := sealed[i := t];
    }

    /** `renameNoReplace` into the deletion namespace. */
    method Retire(a: Name, b: Name, ghost kept: set<Name>) returns (ok: bool)
      requires Valid() && b.Deleting? && a !in kept && Fits(promise, kept)
      requires forall r :: r in disk.possible ==> kept <= BackupNames(r)
      modifies this`disk, this`history, this`faults
      ensures Valid() && Extends()
      ensures !ok ==> disk == old(disk) && (faults > old(faults) || a !in disk.root || b in disk.root)
      ensures ok ==> a in old(disk.root) && b !in old(disk.root) && disk == Update(old(disk), Move(a, b))
    {
      hide Safe, Meets;
      ok := Attempt();
      if !ok || a !in disk.root || b in disk.root {
        return false;
      }
      Now();
      RetireSafe(disk, a, b, sealed);
      RetireMeets(disk, a, b, kept, promise);
      Commit(Update(disk, Move(a, b)));
    }

    /**
     * The machine stops in state `k` and starts again with what the crash has left; the
     * states recorded after `k` have not come about.
     */
    method Crash(k: nat, img: Image)
      requires Valid() && since <= k < |history| && CrashImage(history[k], img)
      modifies this`disk, this`history, this`promise
      ensures Valid() && Grows() && since == old(since) && promise == old(promise).(oneStage := false)
      ensures disk == Restarted(img, old(disk.next)) && history == old(history) + [disk]
    {
      hide Safe, Meets, CrashImage;
      forall j | since <= j < |history| ensures Meets(history[j], promise.(oneStage := false)) {
        WeakerMeets(history[j], promise);
      }
      promise := promise.(oneStage := false);
      RestartSafe(history[k], img, disk.next, sealed);
      RestartMeets(history[k], img, disk.next, old(promise));
      Commit(Restarted(img, disk.next));
    }

    /** Any change inside a tree that no backup may be; all that it touches is still to be synced. */
    method ChangeTree(i: Ino, t: Tree, changed: set<Bytes>)
      requires Valid() && i in disk.trees && i in disk.unsynced && Free(disk, i) && Sound(t)
      requires Touched(disk.trees[i], t) + (disk.unsynced[i] * PathsOf(t)) <= changed
      modifies this`disk, this`history, this`faults
      ensures Valid() && Extends() && disk == SetTree(old(disk), i, t, changed)
    {
      hide Safe, Meets, Free, Sound, Touched, PathsOf;
      Now();
      SetTreeSafe(disk, i, t, changed, sealed);
      SameRootMeets(disk, SetTree(disk, i, t, changed), promise);
      Commit(SetTree(disk, i, t, changed));
    }
  }
}
