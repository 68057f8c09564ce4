/** `verify`: the audit of one backup or of all of them. */
module Verifying {
  import opened Audit
  import opened Disks
  import opened Inventories
  import opened Manifests
  import opened Sorting
  import opened Trees

  datatype Outcome = BadName | Unavailable | NothingToVerify | Stopped | AllPassed | SomeFailed
  datatype Result = Result(name: Name, v: Verification)

  /** The names of the backups in the listing of the root. */
  function BackupsIn(root: map<Name, Tree>): set<Name> {
    set n | n in root && n.Backup?
  }

  /** The names to verify: the selected one, or all backups in byte order. */
  ghost predicate Chosen(root: map<Name, Tree>, selected: Option<Name>, names: seq<Name>) {
    match selected
    case Some(n) => names == [n]
    case None => Elems(names) == BackupsIn(root) && SortedBy(NameLess, names)
  }

  /** The name is there and its backup passes. */
  ghost predicate Passes(codec: Codec, root: map<Name, Tree>, n: Name) {
    n in root && Intact(codec, root[n])
  }

  /** The result for one name; one that is not there is reported like an unsafe directory. */
  ghost predicate ReportsName(codec: Codec, root: map<Name, Tree>, a: Result) {
    if a.name in root then Reports(codec, root[a.name], a.v) else a.v == Verification(false, 0, InvalidBackup)
  }

  ghost predicate WellFormedTrees(root: map<Name, Tree>) {
    forall n :: n in root ==> WellFormed(root[n].items)
  }

  lemma OkMeansPasses(codec: Codec, root: map<Name, Tree>, a: Result)
    requires ReportsName(codec, root, a)
    ensures a.v.ok <==> Passes(codec, root, a.name)
  {
    hide ValidBackup, DigestsMatch, FirstMismatch, UpTo, Differs;
  }

  method VerifyName(ctx: Context, codec: Codec, root: map<Name, Tree>, n: Name) returns (cancelled: bool, v: Verification)
    requires WellFormedTrees(root) && ctx.Valid()
    modifies ctx
    ensures ctx.Valid()
    ensures cancelled == ctx.cancelled
    ensures !cancelled ==> ReportsName(codec, root, Result(n, v))
  {
    hide Reports, WellFormed;
    v := Verification(false, 0, InvalidBackup);
    if n !in root {
      cancelled := ctx.Err();
      return;
    }
    var r := VerifyOne(ctx, codec, root[n]);
    match r
    case Cancelled => cancelled := true;
    case Checked(checked) => cancelled, v := false, checked;
  }

  /** The names to verify. */
  method Choose(root: map<Name, Tree>, selected: Option<Name>) returns (names: seq<Name>)
    ensures Chosen(root, selected, names)
  {
    if selected.Some? {
      return [selected.value];
    }
    NameOrderIsStrict(BackupsIn(root));
    var listed := Enumerate(BackupsIn(root));
    names := Sort(NameLess, listed);
  }

  /** Without a selection, every backup of the root is among the names. */
  lemma AllChosen(root: map<Name, Tree>, selected: Option<Name>, names: seq<Name>)
    requires Chosen(root, selected, names)
    ensures selected.None? ==> forall n :: n in root && n.Backup? ==> exists k :: 0 <= k < |names| && names[k] == n
  {
    if selected.None? {
      forall n | n in root && n.Backup? ensures n in names {
        assert n in Elems(names);
      }
    }
  }

  /** One result for each name in turn, kept also when the run is cancelled. */
  method VerifyNames(ctx: Context, codec: Codec, root: map<Name, Tree>, names: seq<Name>)
      returns (outcome: Outcome, report: seq<Result>)
    requires WellFormedTrees(root) && ctx.Valid() && !ctx.cancelled
    modifies ctx
    ensures ctx.Valid()
    ensures outcome == Stopped || outcome == AllPassed || outcome == SomeFailed
    ensures outcome == Stopped <==> ctx.cancelled
    ensures outcome == AllPassed ==> forall n :: n in names ==> Passes(codec, root, n)
    ensures outcome == SomeFailed ==> exists n :: n in names && !Passes(codec, root, n)
    ensures |report| <= |names| && (outcome != Stopped ==> |report| == |names|)
    ensures forall k :: 0 <= k < |report| ==> report[k].name == names[k] && ReportsName(codec, root, report[k])
  {
    hide ReportsName, Passes, WellFormedTrees;
    report := [];
    var failed := false;
    for i := 0 to |names|
      invariant ctx.Valid() && !ctx.cancelled && |report| == i
      invariant forall k :: 0 <= k < i ==> report[k].name == names[k] && ReportsName(codec, root, report[k])
      invariant !failed ==> forall k :: 0 <= k < i ==> Passes(codec, root, names[k])
      invariant failed ==> exists k :: 0 <= k < i && !Passes(codec, root, names[k])
    {
      var stop := ctx.Err();
      if stop {
        return Stopped, report;
      }
      var cancelled, v := VerifyName(ctx, codec, root, names[i]);
      if cancelled {
        return Stopped, report;
      }
      var result := Result(names[i], v);
      OkMeansPasses(codec, root, result);
      report := report + [result];
      if !v.ok {
        failed := true;
      }
    }
    var stop := ctx.Err();
    if stop {
      return Stopped, report;
    }
    return if failed then SomeFailed else AllPassed, report;
  }

  /**
   * `verify`: success exactly if there is a backup to verify and all of them pass, unless
   * the run is cancelled. `available` says whether the root could be opened, locked and
   * listed.
   */
  method Verify(ctx: Context, codec: Codec, available: bool, root: map<Name, Tree>, selected: Option<Name>)
      returns (outcome: Outcome, report: seq<Result>, names: seq<Name>)
    requires WellFormedTrees(root) && ctx.Valid()
    modifies ctx
    ensures ctx.Valid()
    ensures outcome == BadName <==> selected.Some? && !selected.value.Backup?
    ensures outcome != BadName ==> (outcome == Stopped <==> ctx.cancelled)
    ensures outcome == Unavailable ==> !available
    ensures outcome in {NothingToVerify, AllPassed, SomeFailed} ==>
              available && Chosen(root, selected, names) && |report| == |names|
    ensures outcome == NothingToVerify ==> names == []
    ensures outcome == AllPassed ==> names != [] && forall n :: n in names ==> Passes(codec, root, n)
    ensures outcome == SomeFailed ==> exists n :: n in names && !Passes(codec, root, n)
    ensures selected.None? && (outcome == AllPassed || outcome == SomeFailed) ==>
              forall n :: n in root && n.Backup? ==> exists k :: 0 <= k < |report| && report[k].name == n
    ensures selected.None? && outcome == NothingToVerify ==> forall n :: n in root ==> !n.Backup?
    ensures report == [] || Chosen(root, selected, names)
    ensures |report| <= |names|
    ensures forall k :: 0 <= k < |report| ==> report[k].name == names[k] && ReportsName(codec, root, report[k])
  {
    hide ReportsName, Passes, Chosen, WellFormedTrees;
    report, names := [], [];
    if selected.Some? && !selected.value.Backup? {
      return BadName, report, names;
    }
    var stop := ctx.Err();
    if stop {
      return Stopped, report, names;
    }
    if !available {
      return Unavailable, report, names;
    }
    names := Choose(root, selected);
    AllChosen(root, selected, names);
    if |names| == 0 {
      return NothingToVerify, report, names;
    }
    outcome, report := VerifyNames(ctx, codec, root, names);
  }
}
