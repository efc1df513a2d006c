/** BuildWithStorageAndRecovery: plan, snapshot, write, publish, and roll back on any error. */
module BuildRun {
  import opened Wrappers
  import opened Storage
  import opened Planner
  import opened PlanProperties
  import opened Preflight
  import opened Builder
  import opened BuilderProperties
  import opened EntryProperties
  import opened Recovery
  import opened Rollback

  /** What one write does: it works, fails without a trace, or stops halfway. */
  datatype WriteFate = Works | Fails | Tears(partial: Bytes)

  /** The write succeeds; a file that is skipped cannot fail. */
  predicate Goes(tree: Tree, s: Step, fate: WriteFate) {
    Skips(tree, s) || (Writable(tree, s.path) && fate.Works?)
  }

  /** The torn file an exporter leaves, which writes in place; every other write is atomic. */
  function Torn(tree: Tree, mode: Mode, s: Step, fate: WriteFate): Option<File> {
    if !Skips(tree, s) && Writable(tree, s.path) && s.Export?
      && fate.Tears? then Some(File(fate.partial, Written(tree, mode, s).mode))
    else None
  }

  /** One write. */
  method Perform(disk: Disk, mode: Mode, s: Step, fate: WriteFate) returns (ok: bool, ghost torn: Option<File>)
    modifies disk`output
    ensures ok <==> Goes(old(disk.output), s, fate)
    ensures ok ==> disk.output == Apply(old(disk.output), mode, s) && torn == None
    ensures !ok ==> torn == Torn(old(disk.output), mode, s, fate)
    ensures !ok ==> disk.output == if torn.Some? then old(disk.output)[s.path := torn.value] else old(disk.output)
    ensures ok <==>
              || (s.Sync? && SameFile(old(disk.output), s.path, s.source.bytes))
              || (fate == Works && forall q | q in old(disk.output) :: !(q < s.path) && !(s.path < q))
    ensures ok ==> SameFile(disk.output, s.path, Content(s))
    ensures ok && !(s.Sync? && SameFile(old(disk.output), s.path, s.source.bytes)) ==>
              disk.output[s.path].mode ==
                if s.Sync? && mode == Hardlinking && s.source.linkable then s.source.mode
                else if s.Export? then if s.path in old(disk.output) then old(disk.output)[s.path].mode else 420
                else 384
    ensures forall q | q != s.path :: (q in disk.output <==> q in old(disk.output))
                                      && (q in disk.output ==> disk.output[q] == old(disk.output)[q])
    ensures !ok && !(s.Export? && fate.Tears?) ==> disk.output == old(disk.output)
  {
    torn := None;
    if Skips(disk.output, s) { return true, None; }
    if !Writable(disk.output, s.path) || fate.Fails? { return false, None; }
    if fate.Tears? {
      if s.Export? {
        var left := File(fate.partial, Written(disk.output, mode, s).mode);
        disk.output := disk.output[s.path := left];
        torn := Some(left);
      }
      return false, torn;
    }
    disk.output := disk.output[s.path := Written(disk.output, mode, s)];
    ok := true;
  }

  /** Every step goes through. */
  predicate Completes(tree: Tree, mode: Mode, steps: seq<Step>, fates: nat -> WriteFate) {
    steps == [] ||
    (var n := |steps| - 1;
     Completes(tree, mode, steps[..n], fates) && Goes(After(tree, mode, steps[..n]), steps[n], fates(n)))
  }

  /** Where one step does not go, the whole build does not complete. */
  lemma {:induction false} CompletesPrefix(tree: Tree, mode: Mode, steps: seq<Step>, fates: nat -> WriteFate, n: nat)
    requires n <= |steps|
    ensures Completes(tree, mode, steps, fates) ==> Completes(tree, mode, steps[..n], fates)
  {
    if n == |steps| {
      assert steps[..n] == steps;
    } else {
      CompletesPrefix(tree, mode, steps[..|steps| - 1], fates, n);
      assert steps[..|steps| - 1][..n] == steps[..n];
    }
  }

  /** The steps in order, up to the first that fails. */
  method WriteAll(disk: Disk, mode: Mode, steps: seq<Step>, fates: nat -> WriteFate)
    returns (done: nat, tally: Tally, ghost torn: Option<File>)
    modifies disk`output
    ensures done <= |steps| && Runs(old(disk.output), mode, steps[..done])
    ensures Completes(old(disk.output), mode, steps[..done], fates)
    ensures done == |steps| <==> Completes(old(disk.output), mode, steps, fates)
    ensures tally == Counts(old(disk.output), mode, steps[..done])
    ensures torn.None? ==> disk.output == After(old(disk.output), mode, steps[..done])
    ensures torn.Some? ==> done < |steps| && steps[done].Export? &&
                           Writable(After(old(disk.output), mode, steps[..done]), steps[done].path) &&
                           disk.output == After(old(disk.output), mode, steps[..done])[steps[done].path := torn.value]
  {
    done, torn, tally := 0, None, Tally(0, 0, 0);
    while done < |steps|
      invariant done <= |steps| && Runs(old(disk.output), mode, steps[..done])
      invariant Completes(old(disk.output), mode, steps[..done], fates)
      invariant tally == Counts(old(disk.output), mode, steps[..done])
      invariant torn.None? && disk.output == After(old(disk.output), mode, steps[..done])
    {
      assert steps[..done + 1][..done] == steps[..done];
      CompletesPrefix(old(disk.output), mode, steps, fates, done + 1);
      var ok;
      var next := Count(tally, disk.output, mode, steps[done]);
      ok, torn := Perform(disk, mode, steps[done], fates(done));
      if !ok { return; }
      done, tally := done + 1, next;
    }
    assert steps[..|steps|] == steps;
  }

  /** What a build is asked for besides the package: the device, where the snapshot goes,
      what exporters and the manifest will write. */
  datatype Setting = Setting(mode: Mode, target: string, device: Option<Device>, available: Option<nat>,
                             out: Path, recoveryBase: Path, name: string, exports: seq<Builder.Step>, manifest: Bytes)

  /** What every file operation of a build does. */
  datatype BuildFate = BuildFate(readable: Path -> bool, copies: Path -> bool, writes: nat -> WriteFate,
                                 undoes: Path -> UndoFate)

  function ItemsOf(p: Package, output: Tree, owned: Ledger, hadManifest: bool, mode: Mode): seq<Item> {
    Fold(Requests(p), output, owned, hadManifest, mode).items
  }

  /** No conflict while planning, and none in the checks on the finished plan. */
  ghost predicate Cleared(p: Package, s: Setting, output: Tree, owned: Ledger, hadManifest: bool) {
    && Fold(Requests(p), output, owned, hadManifest, s.mode).conflicts == []
    && Passes(ItemsOf(p, output, owned, hadManifest, s.mode), s.device, s.target, s.mode, s.available)
  }

  /** A build succeeds when its plan is cleared, its snapshot can be taken, and every write goes through. */
  ghost predicate BuildGoes(p: Package, s: Setting, output: Tree, recovery: Tree, owned: Ledger, hadManifest: bool,
                            fate: BuildFate)
  {
    && Cleared(p, s, output, owned, hadManifest)
    && Preparable(output, recovery, s.out, s.recoveryBase, s.name,
                  Targets(ItemsOf(p, output, owned, hadManifest, s.mode)),
                  fate.readable, fate.copies)
    && Completes(output, s.mode, BuildSteps(p, s.mode, s.exports, s.manifest), fate.writes)
  }

  /** Planning with its checks: the items and whether they are cleared. */
  method MakePlan(p: Package, s: Setting, output: Tree, owned: Ledger, hadManifest: bool)
    returns (cleared: bool, items: seq<Item>)
    ensures cleared <==> Cleared(p, s, output, owned, hadManifest)
    ensures cleared ==> items == ItemsOf(p, output, owned, hadManifest, s.mode)
  {
    var plan := new Plan(owned);
    plan.AddAll(Requests(p), output, owned, hadManifest, s.mode);
    var planned := plan.items;
    var checked := new Item[|planned|](i requires 0 <= i < |planned| => planned[i]);
    assert checked[..] == planned;
    var findings := ApplyPreflight(checked, s.device, s.target, s.mode, s.available);
    return plan.conflicts == [] && findings == [], planned;
  }

  /** The writes of a build whose plan is cleared and whose snapshot is taken, and the
      rollback when one of them fails. */
  method WriteOrRestore(p: Package, s: Setting, disk: Disk, ghost owned: Ledger, ghost hadManifest: bool,
                        snapshot: Snapshot, ghost paths: seq<Path>, writes: nat -> WriteFate, undoes: Path -> UndoFate)
    returns (ok: bool, tally: Tally, rollbackErrors: nat)
    requires WellFormed(disk.output) && ExportsMetadata(s.exports, p)
    requires Fold(Requests(p), disk.output, owned, hadManifest, s.mode).conflicts == []
    requires (set q | q in paths) == Targets(ItemsOf(p, disk.output, owned, hadManifest, s.mode))
    requires NoDuplicates(paths) && forall q | q in paths :: Snapshotable(disk.output, q)
    requires snapshot.Describes(disk.output, paths) && snapshot.Backed(disk.output, disk.recovery, |paths|)
    modifies disk`output
    ensures ok <==> Completes(old(disk.output), s.mode, BuildSteps(p, s.mode, s.exports, s.manifest), writes)
    ensures ok ==> disk.output == After(old(disk.output), s.mode, BuildSteps(p, s.mode, s.exports, s.manifest))
    ensures ok ==> tally == Counts(old(disk.output), s.mode, BuildSteps(p, s.mode, s.exports, s.manifest))
    ensures !ok && (forall q | q in paths :: undoes(q).Undoes?) && AllForeseen(p, s.mode) ==>
              SameBytes(disk.output, old(disk.output))
    ensures !ok && rollbackErrors == 0 && AllForeseen(p, s.mode) ==> SameBytes(disk.output, old(disk.output))
  {
    ghost var before := disk.output;
    var steps := BuildSteps(p, s.mode, s.exports, s.manifest);
    var done;
    ghost var torn;
    done, tally, torn := WriteAll(disk, s.mode, steps, writes);
    if done == |steps| {
      assert steps[..done] == steps;
      return true, tally, 0;
    }
    ghost var a := Attempt(before, owned, hadManifest, s.exports, s.manifest, done, torn, paths);
    assert Legal(a, p, s.mode);
    assert disk.output == Interrupted(a, p, s.mode);
    ghost var faulted;
    ok := false;
    rollbackErrors, faulted := snapshot.Restore(disk, undoes, before, paths);
    if !faulted && AllForeseen(p, s.mode) {
      RollbackIsExact(a, p, s.mode);
    }
  }

  /** A build writes everything exactly when nothing stands in its way. Else its output
      has the bytes it started with, provided the rollback itself met no error and the
      plan foresaw every write. */
  method Build(p: Package, s: Setting, disk: Disk, owned: Ledger, hadManifest: bool, fate: BuildFate)
    returns (ok: bool, tally: Tally, rollbackErrors: nat)
    requires WellFormed(disk.output) && ExportsMetadata(s.exports, p)
    modifies disk
    ensures ok <==> BuildGoes(p, s, old(disk.output), old(disk.recovery), owned, hadManifest, fate)
    ensures ok ==> disk.output == After(old(disk.output), s.mode, BuildSteps(p, s.mode, s.exports, s.manifest))
    ensures ok ==> tally == Counts(old(disk.output), s.mode, BuildSteps(p, s.mode, s.exports, s.manifest))
    ensures !Cleared(p, s, old(disk.output), owned, hadManifest) ==>
              disk.output == old(disk.output) && rollbackErrors == 0
    ensures (exists e | e in p.entries :: Unplannable(p.sources, e)) ==> !ok && disk.output == old(disk.output)
    ensures !ok && rollbackErrors == 0 && AllForeseen(p, s.mode) ==> SameBytes(disk.output, old(disk.output))
    ensures !ok && (forall q :: fate.undoes(q).Undoes?) && AllForeseen(p, s.mode) ==>
              SameBytes(disk.output, old(disk.output))
  {
    ok, tally, rollbackErrors := false, Tally(0, 0, 0), 0;
    var cleared, items := MakePlan(p, s, disk.output, owned, hadManifest);
    ConflictFreeIff(p, disk.output, owned, hadManifest, s.mode);
    if !cleared { return; }
    var snapshot := new Snapshot();
    var prepared;
    ghost var paths;
    prepared, paths := snapshot.Prepare(disk, s.out, s.recoveryBase, s.name, items, fate.readable, fate.copies);
    if !prepared { return; }
    ok, tally, rollbackErrors :=
      WriteOrRestore(p, s, disk, owned, hadManifest, snapshot, paths, fate.writes, fate.undoes);
  }

  /** What a successful build of a package for a device guarantees about its targets. */
  lemma BuiltTargetsAreSafe(p: Package, s: Setting, output: Tree, recovery: Tree, owned: Ledger, hadManifest: bool,
                            fate: BuildFate, d: Device)
    requires BuildGoes(p, s, output, recovery, owned, hadManifest, fate) && s.device == Some(d)
    ensures var rs := Requests(p);
            && (forall i: nat | i < |rs| && Writes(ItemsOf(p, output, owned, hadManifest, s.mode)[i].action) ::
                  AcceptsTarget(d, rs[i].target)
                    && Replaceable(output, Attribute(owned, hadManifest, rs[i]), rs[i].target))
            && (forall i: nat, j: nat | i < j < |rs| && Active(rs[i]) && Active(rs[j])
                && FoldKey(d, rs[i].target) == FoldKey(d, rs[j].target) ::
                  rs[i].target == rs[j].target && RequestSha(rs[i]) == RequestSha(rs[j]) != Blank)
  {
    PassedPlanIsSafe(Requests(p), d, s.target, s.available, output, owned, hadManifest, s.mode);
  }
}
