/** Rollback is exact. A build may stop at any write; restoring the snapshot then
    gives back the bytes of every output path, for every conflict-free plan,
    exactly when the plan foresaw every content the build may write. */
module Rollback {
  import opened Wrappers
  import opened Storage
  import opened Planner
  import opened PlanProperties
  import opened Builder
  import opened BuilderProperties
  import opened Recovery

  ghost predicate SameBytes(a: Tree, b: Tree) {
    a.Keys == b.Keys && forall p | p in a :: a[p].bytes == b[p].bytes
  }

  /*************** restoring ***************/

  /** The trees agree at `p`, as files. */
  ghost predicate SameAt(a: Tree, b: Tree, p: Path) {
    (p in a <==> p in b) && (p in a ==> a[p] == b[p])
  }

  lemma RestoreOneStep(before: Tree, tree: Tree, saved: map<Path, File>, p: Path)
    requires WellFormed(tree) && before.Keys <= tree.Keys
    requires p in saved <==> p in before
    requires p in before ==> saved[p] == before[p]
    ensures var tree' := RestoreOne(tree, saved, p);
            && WellFormed(tree') && before.Keys <= tree'.Keys
            && SameAt(tree', before, p)
            && forall q | q != p :: SameAt(tree', tree, q)
  {
  }

  lemma {:induction false} RestoreAllAt(before: Tree, now: Tree, paths: seq<Path>, saved: map<Path, File>)
    requires WellFormed(now) && before.Keys <= now.Keys
    requires forall p | p in paths :: (p in saved <==> p in before) && (p in before ==> saved[p] == before[p])
    ensures var tree := RestoreAll(now, saved, paths);
            && WellFormed(tree) && before.Keys <= tree.Keys
            && (forall p | p in paths :: SameAt(tree, before, p))
            && (forall p | p !in paths :: SameAt(tree, now, p))
  {
    if paths != [] {
      var n := |paths| - 1;
      RestoreAllAt(before, now, paths[..n], saved);
      RestoreOneStep(before, RestoreAll(now, saved, paths[..n]), saved, paths[n]);
      assert paths == paths[..n] + [paths[n]];
    }
  }

  /** Restoring undoes every change confined to the snapshotted paths. */
  lemma RestoreUndoes(before: Tree, now: Tree, paths: seq<Path>)
    requires WellFormed(now) && before.Keys <= now.Keys
    requires forall p | p in now && p !in paths :: p in before && now[p].bytes == before[p].bytes
    ensures var tree := RestoreAll(now, Saved(before, paths), paths);
            && SameBytes(tree, before)
            && (forall p | p in paths && p in before :: tree[p] == before[p])
            && (forall p | p !in paths && p in before :: tree[p] == now[p])
  {
    var saved := Saved(before, paths);
    RestoreAllAt(before, now, paths, saved);
    var tree := RestoreAll(now, saved, paths);
    forall p ensures p in tree <==> p in before {
      assert p in paths ==> SameAt(tree, before, p);
      assert p !in paths ==> SameAt(tree, now, p);
    }
    assert forall p | p in paths :: SameAt(tree, before, p);
    assert forall p | p !in paths :: SameAt(tree, now, p);
  }

  /*************** foreseeing ***************/

  /** The plan knows this write: the first request for the path is not a bare
      reference, and either announces generated metadata or exactly this content. */
  predicate Foreseen(rs: seq<Request>, mode: Mode, p: Path, b: Bytes) {
    exists i: nat | i < |rs| ::
      FirstWriter(rs, i) && rs[i].target == p && !(mode.Referencing? && rs[i].FileRequest?) &&
      (RequestSha(rs[i]) == Blank || RequestSha(rs[i]) == Sha256(b))
  }

  lemma FirstWriterExists(rs: seq<Request>, j: nat) returns (i: nat)
    requires j < |rs| && Active(rs[j])
    ensures i <= j && FirstWriter(rs, i) && rs[i].target == rs[j].target
  {
    if FirstWriter(rs, j) {
      i := j;
    } else {
      var k: nat :| k < j && Active(rs[k]) && rs[k].target == rs[j].target;
      i := FirstWriterExists(rs, k);
    }
  }

  lemma DraftWritesOrAgrees(r: Request, out: Tree, owned: Ledger, hadManifest: bool, mode: Mode, b: Bytes)
    requires Active(r) && !r.RefusedRequest? && !CatalogChanged(r) && !(mode.Referencing? && r.FileRequest?)
    requires RequestSha(r) == Blank || RequestSha(r) == Sha256(b)
    ensures Writes(WriterItem(r, true, out, owned, hadManifest, mode).action) || SameFile(out, r.target, b)
  {
  }

  /** What is foreseen is snapshotted, or was on disk with the same content. */
  lemma ForeseenIsCovered(rs: seq<Request>, out: Tree, owned: Ledger, hadManifest: bool, mode: Mode, p: Path, b: Bytes)
    requires Fold(rs, out, owned, hadManifest, mode).conflicts == []
    requires Foreseen(rs, mode, p, b)
    ensures p in Targets(Fold(rs, out, owned, hadManifest, mode).items) || SameFile(out, p, b)
  {
    var i: nat :| i < |rs| && FirstWriter(rs, i) && rs[i].target == p && !(mode.Referencing? && rs[i].FileRequest?) &&
                  (RequestSha(rs[i]) == Blank || RequestSha(rs[i]) == Sha256(b));
    PlannedItem(rs, i, out, owned, hadManifest, mode);
    ConflictFreeIsClean(rs, out, owned, hadManifest, mode);
    DraftWritesOrAgrees(rs[i], out, owned, hadManifest, mode, b);
    var items := Fold(rs, out, owned, hadManifest, mode).items;
    assert items[i] in items;
  }

  /** A content that some request announces is foreseen, unless the path was first
      claimed by a file that a reference package only describes. */
  lemma AnnouncedIsForeseen(rs: seq<Request>, mode: Mode, j: nat, b: Bytes)
    requires Clean(rs) && j < |rs| && Active(rs[j]) && RequestSha(rs[j]) == Sha256(b)
    ensures Foreseen(rs, mode, rs[j].target, b) ||
            (mode.Referencing? && exists i: nat | i <= j :: rs[i].FileRequest? && rs[i].target == rs[j].target)
  {
    var i := FirstWriterExists(rs, j);
    assert i < j ==> RequestSha(rs[i]) == RequestSha(rs[j]) != Blank;
  }

  /** Every file and configuration the build writes is foreseen. Whether this holds
      can be read off the catalog, before any output is looked at. */
  predicate AllForeseen(p: Package, mode: Mode) {
    && (mode.Referencing? || forall s | s in Syncs(p.sources, p.entries, {}) ::
          Foreseen(Requests(p), mode, s.path, Content(s)))
    && forall s | s in Renders(p.entries) :: Foreseen(Requests(p), mode, s.path, Content(s))
  }

  /** Some request puts this content, or generated metadata, at `q`. */
  predicate Announced(rs: seq<Request>, q: Path, b: Bytes) {
    exists r | r in rs :: Active(r) && r.target == q && (RequestSha(r) == Blank || RequestSha(r) == Sha256(b))
  }

  lemma AnnouncedIffForeseen(rs: seq<Request>, mode: Mode, q: Path, b: Bytes)
    requires !mode.Referencing? && Clean(rs)
    ensures Announced(rs, q, b) <==> Foreseen(rs, mode, q, b)
  {
    if Announced(rs, q, b) {
      var r :| r in rs && Active(r) && r.target == q && (RequestSha(r) == Blank || RequestSha(r) == Sha256(b));
      var j: nat :| j < |rs| && rs[j] == r;
      var i := FirstWriterExists(rs, j);
      assert i < j ==> RequestSha(rs[i]) == RequestSha(rs[j]);
    }
    if Foreseen(rs, mode, q, b) {
      var i: nat :| i < |rs| && FirstWriter(rs, i) && rs[i].target == q
        && (RequestSha(rs[i]) == Blank || RequestSha(rs[i]) == Sha256(b));
      assert rs[i] in rs;
    }
  }

  /** Exactly what is overlooked when content is copied or linked: a file below a
      skipped directory that no other entry announces. */
  lemma CopyIsForeseenIff(p: Package, mode: Mode)
    requires !mode.Referencing? && Clean(Requests(p))
    ensures AllForeseen(p, mode) <==>
              forall e, q, b | e in p.entries && SkippedByPlan(e) && Provides(p.sources, e, q, b) ::
                  Announced(Requests(p), q, b)
  {
    var rs := Requests(p);
    if AllForeseen(p, mode) {
      forall e, q, b | e in p.entries && SkippedByPlan(e) && Provides(p.sources, e, q, b) ensures Announced(rs, q, b) {
        SyncsAre(p.sources, p.entries, {}, q, b);
        var s :| s in Syncs(p.sources, p.entries, {}) && Wrote(s, q, b);
        AnnouncedIffForeseen(rs, mode, q, b);
      }
    }
    if forall e, q, b | e in p.entries && SkippedByPlan(e) && Provides(p.sources, e, q, b) :: Announced(rs, q, b) {
      forall s | s in Syncs(p.sources, p.entries, {}) ensures Foreseen(rs, mode, s.path, Content(s)) {
        SyncIsRequested(p, s);
        AnnouncedIffForeseen(rs, mode, s.path, Content(s));
      }
      forall s | s in Renders(p.entries) ensures Foreseen(rs, mode, s.path, Content(s)) {
        RenderIsRequested(p, s);
        AnnouncedIffForeseen(rs, mode, s.path, Content(s));
      }
    }
  }

  /** Nothing is overlooked when content is copied or linked and no directory artifact is skipped. */
  lemma ReadableCatalogIsForeseen(p: Package, mode: Mode)
    requires !mode.Referencing? && Clean(Requests(p))
    requires forall e | e in p.entries :: !SkippedByPlan(e)
    ensures AllForeseen(p, mode)
  {
    CopyIsForeseenIff(p, mode);
  }

  /** A reference package overlooks only a configuration at the path of a described file. */
  lemma ReferencePackageIsForeseen(p: Package)
    requires Clean(Requests(p))
    requires forall r, c | r in Requests(p) && c in Requests(p) && r.FileRequest? && c.ConfigRequest? ::
               r.target != c.target
    ensures AllForeseen(p, Referencing)
  {
    var rs := Requests(p);
    forall s | s in Renders(p.entries) ensures Foreseen(rs, Referencing, s.path, Content(s)) {
      RenderIsRequested(p, s);
      var j: nat :| j < |rs| && rs[j] == ConfigRequest(s.path, Content(s));
      AnnouncedIsForeseen(rs, Referencing, j, Content(s));
    }
  }

  /*************** interrupted builds ***************/

  /** A build that stops: the output and the ledger it started from, the steps that
      were completed, and the torn file an exporter may leave when its write fails
      half-way. `paths` lists the snapshotted targets in some order. */
  datatype Attempt = Attempt(
    output: Tree, owned: Ledger, hadManifest: bool,
    exports: seq<Step>, manifest: Bytes,
    done: nat, torn: Option<File>, paths: seq<Path>)

  function PlanOf(p: Package, mode: Mode, a: Attempt): State {
    Fold(Requests(p), a.output, a.owned, a.hadManifest, mode)
  }

  function StepsOf(p: Package, mode: Mode, a: Attempt): seq<Step> {
    BuildSteps(p, mode, a.exports, a.manifest)
  }

  ghost predicate Legal(a: Attempt, p: Package, mode: Mode) {
    var steps := StepsOf(p, mode, a);
    && WellFormed(a.output)
    && PlanOf(p, mode, a).conflicts == []
    && (set q | q in a.paths) == Targets(PlanOf(p, mode, a).items)
    && (forall q | q in a.paths :: Snapshotable(a.output, q))
    && ExportsMetadata(a.exports, p)
    && a.done <= |steps| && Runs(a.output, mode, steps[..a.done])
    && (a.torn.Some? ==> a.done < |steps| && steps[a.done].Export? &&
                         Writable(After(a.output, mode, steps[..a.done]), steps[a.done].path))
  }

  function Interrupted(a: Attempt, p: Package, mode: Mode): Tree
    requires a.done <= |StepsOf(p, mode, a)|
    requires a.torn.Some? ==> a.done < |StepsOf(p, mode, a)|
  {
    var steps := StepsOf(p, mode, a);
    var tree := After(a.output, mode, steps[..a.done]);
    if a.torn.Some? then tree[steps[a.done].path := a.torn.value] else tree
  }

  ghost predicate Undone(a: Attempt, p: Package, mode: Mode)
    requires Legal(a, p, mode)
  {
    SameBytes(RestoreAll(Interrupted(a, p, mode), Saved(a.output, a.paths), a.paths), a.output)
  }

  lemma StepKinds(p: Package, mode: Mode, exports: seq<Step>, manifest: Bytes, s: Step)
    requires s in BuildSteps(p, mode, exports, manifest) && ExportsMetadata(exports, p)
    ensures s.Export? || s.Publish? ==> s.path in p.metadata
    ensures s.Sync? ==> !mode.Referencing? && s in Syncs(p.sources, p.entries, {})
    ensures s.Render? ==> s in Renders(p.entries)
  {
    if s in Renders(p.entries) {
      RendersAre(p.entries, s);
    } else if s in Syncs(p.sources, p.entries, {}) {
      SyncsOnlySync(p.sources, p.entries, {}, s);
    }
  }

  lemma StepIsCovered(a: Attempt, p: Package, mode: Mode, s: Step)
    requires Legal(a, p, mode) && AllForeseen(p, mode)
    requires s in StepsOf(p, mode, a)
    ensures s.path in a.paths || SameFile(a.output, s.path, Content(s))
    ensures s.Export? ==> s.path in a.paths
  {
    var rs := Requests(p);
    StepKinds(p, mode, a.exports, a.manifest, s);
    if s.Export? || s.Publish? {
      MetadataIsRequested(p, s.path);
      MetadataIsTargeted(rs, a.output, a.owned, a.hadManifest, mode, s.path);
    } else {
      assert Foreseen(rs, mode, s.path, Content(s));
      ForeseenIsCovered(rs, a.output, a.owned, a.hadManifest, mode, s.path, Content(s));
    }
  }

  /** Clean requests name generated metadata once, so it is its own first writer. */
  lemma MetadataIsFirst(rs: seq<Request>, p: Path) returns (j: nat)
    requires Clean(rs) && MetadataRequest(p) in rs
    ensures j < |rs| && rs[j] == MetadataRequest(p) && FirstWriter(rs, j)
  {
    j :| 0 <= j < |rs| && rs[j] == MetadataRequest(p);
    var i := FirstWriterExists(rs, j);
    assert !(i < j);
  }

  lemma MetadataIsTargeted(rs: seq<Request>, out: Tree, owned: Ledger, hadManifest: bool, mode: Mode, p: Path)
    requires Fold(rs, out, owned, hadManifest, mode).conflicts == [] && MetadataRequest(p) in rs
    ensures p in Targets(Fold(rs, out, owned, hadManifest, mode).items)
  {
    ConflictFreeIsClean(rs, out, owned, hadManifest, mode);
    var j := MetadataIsFirst(rs, p);
    PlannedItem(rs, j, out, owned, hadManifest, mode);
    var items := Fold(rs, out, owned, hadManifest, mode).items;
    assert items[j] in items && items[j].action == Generate;
  }

  /** A run in which every step is covered changes nothing but snapshotted paths. */
  lemma RunIsCovered(before: Tree, mode: Mode, steps: seq<Step>, paths: seq<Path>)
    requires forall s | s in steps :: s.path in paths || SameFile(before, s.path, Content(s))
    ensures var now := After(before, mode, steps);
            && before.Keys <= now.Keys
            && forall p | p in now && p !in paths :: p in before && now[p].bytes == before[p].bytes
  {
    var now := After(before, mode, steps);
    forall p | p in now && p !in paths
      ensures p in before && now[p].bytes == before[p].bytes
    {
      AfterHolds(before, mode, steps, p);
      LastContentIsWritten(steps, p);
    }
    forall p | p in before ensures p in now {
      AfterHolds(before, mode, steps, p);
    }
  }

  /** Rollback is exact: wherever the build stops, restoring gives every output path
      its bytes back, and every snapshotted path its mode as well. */
  lemma RollbackIsExact(a: Attempt, p: Package, mode: Mode)
    requires Legal(a, p, mode) && AllForeseen(p, mode)
    ensures Undone(a, p, mode)
    ensures var tree := RestoreAll(Interrupted(a, p, mode), Saved(a.output, a.paths), a.paths);
            forall q | q in a.paths && q in a.output :: tree[q] == a.output[q]
  {
    var steps := StepsOf(p, mode, a)[..a.done];
    var tree := After(a.output, mode, steps);
    forall s | s in steps ensures s.path in a.paths || SameFile(a.output, s.path, Content(s)) {
      StepIsCovered(a, p, mode, s);
    }
    RunIsCovered(a.output, mode, steps, a.paths);
    RunKeepsWellFormed(a.output, mode, steps);
    if a.torn.Some? {
      StepIsCovered(a, p, mode, StepsOf(p, mode, a)[a.done]);
    }
    var now := Interrupted(a, p, mode);
    assert WellFormed(now);
    RestoreUndoes(a.output, now, a.paths);
  }

  /** At a path outside the snapshot a covered run can only change the permission
      bits: an unchanged file is skipped, but an unchanged configuration is rewritten. */
  lemma {:induction false} ModeAfter(before: Tree, mode: Mode, steps: seq<Step>, q: Path)
    requires q in before
    requires forall s | s in steps && s.path == q :: (s.Sync? || s.Render?) && Content(s) == before[q].bytes
    ensures SameFile(After(before, mode, steps), q, before[q].bytes)
    ensures After(before, mode, steps)[q].mode ==
              if Render(q, before[q].bytes) in steps then PRIVATE else before[q].mode
  {
    if steps != [] {
      var n := |steps| - 1;
      ModeAfter(before, mode, steps[..n], q);
      assert steps == steps[..n] + [steps[n]];
    }
  }

  /** Modes after rollback: those of snapshotted paths are restored, every other one
      is as before, except that a configuration which was rewritten unchanged has
      become private. */
  lemma RollbackModes(a: Attempt, p: Package, mode: Mode, q: Path)
    requires Legal(a, p, mode) && AllForeseen(p, mode) && q in a.output
    ensures var tree := RestoreAll(Interrupted(a, p, mode), Saved(a.output, a.paths), a.paths);
            q in tree && tree[q].mode ==
              if q !in a.paths && Render(q, a.output[q].bytes) in StepsOf(p, mode, a)[..a.done] then PRIVATE
              else a.output[q].mode
  {
    if q in a.paths {
      RollbackIsExact(a, p, mode);
    } else {
      OutsideMode(a, p, mode, q);
      OutsideIsKept(a, p, mode, q);
    }
  }

  lemma OutsideMode(a: Attempt, p: Package, mode: Mode, q: Path)
    requires Legal(a, p, mode) && AllForeseen(p, mode) && q in a.output && q !in a.paths
    ensures var steps := StepsOf(p, mode, a)[..a.done];
            var now := After(a.output, mode, steps);
            q in now && now[q].mode == if Render(q, a.output[q].bytes) in steps then PRIVATE else a.output[q].mode
  {
    var steps := StepsOf(p, mode, a)[..a.done];
    forall s | s in steps && s.path == q ensures (s.Sync? || s.Render?) && Content(s) == a.output[q].bytes {
      StepIsCovered(a, p, mode, s);
      StepKinds(p, mode, a.exports, a.manifest, s);
      if s.Publish? {
        MetadataIsRequested(p, s.path);
        MetadataIsTargeted(Requests(p), a.output, a.owned, a.hadManifest, mode, s.path);
      }
    }
    ModeAfter(a.output, mode, steps, q);
  }

  lemma OutsideIsKept(a: Attempt, p: Package, mode: Mode, q: Path)
    requires Legal(a, p, mode) && AllForeseen(p, mode) && q !in a.paths
    ensures SameAt(RestoreAll(Interrupted(a, p, mode), Saved(a.output, a.paths), a.paths),
                   After(a.output, mode, StepsOf(p, mode, a)[..a.done]), q)
  {
    var steps := StepsOf(p, mode, a)[..a.done];
    forall s | s in steps ensures s.path in a.paths || SameFile(a.output, s.path, Content(s)) {
      StepIsCovered(a, p, mode, s);
    }
    RunIsCovered(a.output, mode, steps, a.paths);
    RunKeepsWellFormed(a.output, mode, steps);
    if a.torn.Some? {
      StepIsCovered(a, p, mode, StepsOf(p, mode, a)[a.done]);
    }
    RestoreAllAt(a.output, Interrupted(a, p, mode), a.paths, Saved(a.output, a.paths));
  }

  /*************** what is overlooked survives ***************/

  predicate Nested(a: Path, b: Path) {
    a < b || b < a
  }

  /** The targets the plan puts something at; a missing item has none. */
  function RequestTargets(p: Package): set<Path> {
    set r | r in Requests(p) && Active(r) :: r.target
  }

  function WrittenPaths(p: Package): set<Path> {
    (set s | s in Syncs(p.sources, p.entries, {}) :: s.path) + (set s | s in Renders(p.entries) :: s.path) + {MANIFEST}
  }

  /** No path the package puts a file at, in the plan or in the build, lies below another
      one. Nothing is said about a directory the plan reports as missing: the files
      below it are among the written paths, the directory itself is not. */
  ghost predicate Separate(p: Package) {
    forall a, b | a in RequestTargets(p) + WrittenPaths(p) && b in RequestTargets(p) + WrittenPaths(p) :: !Nested(a, b)
  }

  lemma {:induction false} SeparateRuns(tree: Tree, mode: Mode, steps: seq<Step>, paths: set<Path>)
    requires tree.Keys <= paths && forall s | s in steps :: s.path in paths
    requires forall a, b | a in paths && b in paths :: !Nested(a, b)
    ensures Runs(tree, mode, steps) && After(tree, mode, steps).Keys <= paths
  {
    if steps != [] {
      SeparateRuns(tree, mode, steps[..|steps| - 1], paths);
    }
  }

  lemma {:induction false} Enumerate(s: set<Path>) returns (paths: seq<Path>)
    ensures (set p | p in paths) == s
  {
    if s == {} {
      paths := [];
    } else {
      var x :| x in s;
      paths := Enumerate(s - {x});
      paths := [x] + paths;
      assert (set p | p in paths) == (set p | p in paths[1..]) + {x};
    }
  }

  /** No planned item writes `p` when its first writer has nothing to write. */
  lemma QuietTarget(rs: seq<Request>, out: Tree, owned: Ledger, mode: Mode, p: Path)
    requires Fold(rs, out, owned, false, mode).conflicts == []
    requires forall i: nat | i < |rs| && FirstWriter(rs, i) && rs[i].target == p ::
               !Writes(DraftAction(rs[i], out, owned, mode))
    ensures p !in Targets(Fold(rs, out, owned, false, mode).items)
  {
    var items := Fold(rs, out, owned, false, mode).items;
    forall i: nat | i < |items| && items[i].target == p ensures !Writes(items[i].action) {
      PlannedItem(rs, i, out, owned, false, mode);
    }
  }

  lemma TargetsAreRequested(rs: seq<Request>, out: Tree, owned: Ledger, mode: Mode, p: Path)
    requires Fold(rs, out, owned, false, mode).conflicts == []
    requires p in Targets(Fold(rs, out, owned, false, mode).items)
    ensures exists r | r in rs && Active(r) :: r.target == p
  {
    var items := Fold(rs, out, owned, false, mode).items;
    var item :| item in items && Writes(item.action) && item.target == p;
    var i: nat :| i < |items| && items[i] == item;
    PlannedItem(rs, i, out, owned, false, mode);
    assert rs[i] in rs;
  }

  lemma BuildPaths(p: Package, mode: Mode, s: Step)
    requires s in BuildSteps(p, mode, [], [])
    ensures s.path in WrittenPaths(p)
  {
    assert s in Syncs(p.sources, p.entries, {}) || s in Renders(p.entries) || s.path == MANIFEST;
  }

  lemma BuildContains(p: Package, mode: Mode, s: Step)
    requires (!mode.Referencing? && s in Syncs(p.sources, p.entries, {})) || s in Renders(p.entries)
    ensures s in BuildSteps(p, mode, [], [])
  {
    var syncs := if mode.Referencing? then [] else Syncs(p.sources, p.entries, {});
    assert s in syncs + [] + Renders(p.entries) + [Publish(MANIFEST, [])];
  }

  /** An output whose only file, if any, is at `q` runs any prefix of the build and
      can be snapshotted. */
  lemma NearlyEmptyRuns(p: Package, mode: Mode, q: Path, out: Tree, owned: Ledger, steps: seq<Step>)
    requires Separate(p) && Clean(Requests(p)) && q in WrittenPaths(p) && out.Keys <= {q}
    requires Fold(Requests(p), out, owned, false, mode).conflicts == []
    requires forall s | s in steps :: s.path in WrittenPaths(p)
    ensures Runs(out, mode, steps)
    ensures forall t | t in Targets(Fold(Requests(p), out, owned, false, mode).items) :: Snapshotable(out, t)
  {
    SeparateRuns(out, mode, steps, RequestTargets(p) + WrittenPaths(p));
    forall t | t in Targets(Fold(Requests(p), out, owned, false, mode).items) ensures Snapshotable(out, t) {
      TargetsAreRequested(Requests(p), out, owned, mode, t);
      assert t in RequestTargets(p);
      assert !Nested(t, q);
    }
  }

  /** The attempt that stops right after the step `k`, from such an output. */
  lemma StopAfter(p: Package, mode: Mode, k: nat, out: Tree, owned: Ledger) returns (a: Attempt)
    requires Separate(p) && Clean(Requests(p)) && MANIFEST in p.metadata
    requires k < |BuildSteps(p, mode, [], [])| && out.Keys <= {BuildSteps(p, mode, [], [])[k].path}
    requires Fold(Requests(p), out, owned, false, mode).conflicts == []
    ensures a == Attempt(out, owned, false, [], [], k + 1, None, a.paths) && Legal(a, p, mode)
  {
    var steps := BuildSteps(p, mode, [], []);
    var paths := Enumerate(Targets(Fold(Requests(p), out, owned, false, mode).items));
    forall s | s in steps ensures s.path in WrittenPaths(p) { BuildPaths(p, mode, s); }
    NearlyEmptyRuns(p, mode, steps[k].path, out, owned, steps[..k + 1]);
    a := Attempt(out, owned, false, [], [], k + 1, None, paths);
  }

  /** Restoring leaves every path outside the snapshot as the run left it. */
  lemma OutsideStays(before: Tree, mode: Mode, steps: seq<Step>, paths: seq<Path>, q: Path)
    requires WellFormed(before) && Runs(before, mode, steps) && q !in paths
    ensures SameAt(RestoreAll(After(before, mode, steps), Saved(before, paths), paths), After(before, mode, steps), q)
  {
    RunKeepsWellFormed(before, mode, steps);
    forall p | p in before ensures p in After(before, mode, steps) { AfterHolds(before, mode, steps, p); }
    RestoreAllAt(before, After(before, mode, steps), paths, Saved(before, paths));
  }

  lemma LastStepHolds(before: Tree, mode: Mode, steps: seq<Step>)
    requires steps != []
    ensures SameFile(After(before, mode, steps), steps[|steps| - 1].path, Content(steps[|steps| - 1]))
  {
    AfterHolds(before, mode, steps, steps[|steps| - 1].path);
  }

  /** A step at a path outside the snapshot is still there after the rollback. */
  lemma StepSurvives(p: Package, mode: Mode, a: Attempt)
    requires Legal(a, p, mode) && a.torn.None? && 0 < a.done
    requires StepsOf(p, mode, a)[a.done - 1].path !in a.paths
    requires !SameFile(a.output, StepsOf(p, mode, a)[a.done - 1].path, Content(StepsOf(p, mode, a)[a.done - 1]))
    ensures !Undone(a, p, mode)
  {
    var steps := StepsOf(p, mode, a)[..a.done];
    LastStepHolds(a.output, mode, steps);
    OutsideStays(a.output, mode, steps, a.paths, steps[a.done - 1].path);
  }

  /** The plan is conflict-free on an output that holds at most `q`, with the content the ledger records. */
  lemma NearlyEmptyPlan(p: Package, mode: Mode, q: Path, out: Tree, owned: Ledger)
    requires Separate(p) && Clean(Requests(p)) && q in WrittenPaths(p)
    requires out.Keys <= {q} && (q in out ==> q in owned && owned[q] == Sha256(out[q].bytes))
    ensures Fold(Requests(p), out, owned, false, mode).conflicts == []
  {
    var rs := Requests(p);
    forall i: nat | i < |rs| ensures Permitted(rs[i], FirstWriter(rs, i), out, owned, false, mode) {
      if Active(rs[i]) {
        assert rs[i].target in RequestTargets(p);
        assert !Nested(rs[i].target, q);
      }
    }
    PlanMeaning(rs, out, owned, false, mode);
  }

  /** For an overlooked write there is an output on which the plan finds nothing to
      write at its path, although the output does not have that content. */
  lemma QuietOutput(rs: seq<Request>, mode: Mode, p: Path, b: Bytes) returns (out: Tree, owned: Ledger)
    requires Clean(rs) && !Foreseen(rs, mode, p, b)
    ensures out.Keys <= {p} && (p in out ==> p in owned && owned[p] == Sha256(out[p].bytes)) && !SameFile(out, p, b)
    ensures forall i: nat | i < |rs| && FirstWriter(rs, i) && rs[i].target == p ::
              !Writes(DraftAction(rs[i], out, owned, mode))
  {
    out, owned := map[], map[];
    if i: nat :| i < |rs| && FirstWriter(rs, i) && rs[i].target == p && !(mode.Referencing? && rs[i].FileRequest?) {
      var content := RequestSha(rs[i]).content;
      out, owned := map[p := File(content, PRIVATE)], map[p := Sha256(content)];
      forall j: nat | j < |rs| && FirstWriter(rs, j) && rs[j].target == p ensures i == j {}
    }
  }

  lemma StopOnQuietOutput(p: Package, mode: Mode, k: nat, q: Path, out: Tree, owned: Ledger) returns (a: Attempt)
    requires Separate(p) && Clean(Requests(p)) && MANIFEST in p.metadata
    requires k < |BuildSteps(p, mode, [], [])| && q == BuildSteps(p, mode, [], [])[k].path
    requires out.Keys <= {q} && Fold(Requests(p), out, owned, false, mode).conflicts == []
    requires q !in Targets(Fold(Requests(p), out, owned, false, mode).items)
    requires !SameFile(out, q, Content(BuildSteps(p, mode, [], [])[k]))
    ensures Legal(a, p, mode) && !Undone(a, p, mode)
  {
    a := StopAfter(p, mode, k, out, owned);
    assert q !in a.paths;
    StepSurvives(p, mode, a);
  }

  /** A build whose plan overlooks a content can be stopped so that rollback does
      not give the output back. */
  lemma OverlookedSurvives(p: Package, mode: Mode, s: Step) returns (a: Attempt)
    requires Separate(p) && Clean(Requests(p)) && MANIFEST in p.metadata
    requires (!mode.Referencing? && s in Syncs(p.sources, p.entries, {})) || s in Renders(p.entries)
    requires !Foreseen(Requests(p), mode, s.path, Content(s))
    ensures Legal(a, p, mode) && !Undone(a, p, mode)
  {
    BuildContains(p, mode, s);
    var k: nat :| k < |BuildSteps(p, mode, [], [])| && BuildSteps(p, mode, [], [])[k] == s;
    BuildPaths(p, mode, s);
    var out, owned := QuietOutput(Requests(p), mode, s.path, Content(s));
    NearlyEmptyPlan(p, mode, s.path, out, owned);
    QuietTarget(Requests(p), out, owned, mode, s.path);
    a := StopOnQuietOutput(p, mode, k, s.path, out, owned);
  }

  /** Rollback is exact for every interrupted build of a package exactly when the
      plan foresees everything the build writes. */
  lemma RollbackIsExactIffForeseen(p: Package, mode: Mode)
    requires Separate(p) && Clean(Requests(p)) && MANIFEST in p.metadata
    ensures AllForeseen(p, mode) <==> forall a | Legal(a, p, mode) :: Undone(a, p, mode)
  {
    if AllForeseen(p, mode) {
      forall a | Legal(a, p, mode) ensures Undone(a, p, mode) {
        RollbackIsExact(a, p, mode);
      }
    } else {
      var s :| ((!mode.Referencing? && s in Syncs(p.sources, p.entries, {})) || s in Renders(p.entries)) &&
               !Foreseen(Requests(p), mode, s.path, Content(s));
      var a := OverlookedSurvives(p, mode, s);
    }
  }

  /** A package with one directory artifact that was catalogued with a digest but
      cannot be fingerprinted, because it contains a symbolic link besides this file. */
  function LinkedDirectory(source: Source): Package {
    Package(map[(Library, ["game", "a.bin"]) := source],
            [Directory("edition", Library, ["game"], [["a.bin"]], Unreadable)],
            [MANIFEST])
  }

  lemma LinkedDirectoryIs(source: Source)
    ensures var p := LinkedDirectory(source);
            && Requests(p) == [MissingRequest(Rom, "edition", ["game"]), MetadataRequest(MANIFEST)]
            && Syncs(p.sources, p.entries, {}) == [Sync("edition", ["game", "a.bin"], source)]
            && Renders(p.entries) == []
  {
    var p := LinkedDirectory(source);
    assert ["game"] + ["a.bin"] == ["game", "a.bin"];
    assert p.entries[1..] == [] && [["a.bin"]][1..] == [] && p.metadata[1..] == [];
    assert ChildSyncs(p.sources, "edition", Library, ["game"], []) == [];
    assert Syncs(p.sources, p.entries[1..], {}) == [];
    assert EntriesRequests(p.sources, p.entries[1..]) == [] && MetadataRequests(p.metadata[1..]) == [];
    assert EntryRequests(p.sources, p.entries[0]) == [MissingRequest(Rom, "edition", ["game"])];
  }

  lemma LinkedDirectoryIsClean(source: Source)
    ensures Clean(Requests(LinkedDirectory(source)))
  {
    LinkedDirectoryIs(source);
  }

  lemma LinkedDirectoryPaths(source: Source, q: Path)
    requires q in RequestTargets(LinkedDirectory(source)) + WrittenPaths(LinkedDirectory(source))
    ensures q == MANIFEST || q == ["game", "a.bin"]
  {
    LinkedDirectoryIs(source);
  }

  lemma LinkedDirectoryIsSeparate(source: Source)
    ensures Separate(LinkedDirectory(source))
  {
    var p := LinkedDirectory(source);
    forall a, b | a in RequestTargets(p) + WrittenPaths(p) && b in RequestTargets(p) + WrittenPaths(p)
      ensures !Nested(a, b) {
      LinkedDirectoryPaths(source, a);
      LinkedDirectoryPaths(source, b);
      assert |"game"| != |MANIFEST[0]| && ["game", "a.bin"][0] == "game";
    }
  }

  /** Copying it reaches a file the plan knows nothing about, and rollback leaves that file behind. */
  lemma LinkedDirectoryIsNotUndone(source: Source, mode: Mode) returns (a: Attempt)
    requires !mode.Referencing?
    ensures var p := LinkedDirectory(source);
            && Separate(p) && Clean(Requests(p)) && MANIFEST in p.metadata
            && Legal(a, p, mode) && !Undone(a, p, mode)
  {
    var p := LinkedDirectory(source);
    LinkedDirectoryIs(source);
    LinkedDirectoryIsClean(source);
    LinkedDirectoryIsSeparate(source);
    a := OverlookedSurvives(p, mode, Syncs(p.sources, p.entries, {})[0]);
  }

  /** A described file and a configuration with the same content at its path. */
  function DescribedConfiguration(source: Source): Package {
    Package(map[(Library, ["a.cfg"]) := source],
            [Artifact("edition", Library, ["a.cfg"], Blank), Template(["a.cfg"], source.bytes)],
            [MANIFEST])
  }

  lemma DescribedConfigurationIs(source: Source)
    ensures var p := DescribedConfiguration(source);
            && Requests(p) ==
               [FileRequest(Rom, "edition", ["a.cfg"], source.bytes, Blank), ConfigRequest(["a.cfg"], source.bytes),
                               MetadataRequest(MANIFEST)]
            && Syncs(p.sources, p.entries, {}) == [Sync("edition", ["a.cfg"], source)]
            && Renders(p.entries) == [Render(["a.cfg"], source.bytes)]
  {
    var p := DescribedConfiguration(source);
    var file, config := p.entries[0], p.entries[1];
    assert p.entries[1..] == [config] && [config][1..] == [] && p.metadata[1..] == [];
    assert EntriesRequests(p.sources, [config]) == EntryRequests(p.sources, config) + EntriesRequests(p.sources, []);
    assert MetadataRequests(p.metadata) == [MetadataRequest(MANIFEST)] + MetadataRequests([]);
    assert Syncs(p.sources, [config], {}) == EntrySyncs(p.sources, config) + Syncs(p.sources, [], {});
    assert Renders([config]) == [Render(["a.cfg"], source.bytes)] + Renders([]);
  }

  /** Two paths of one segment each are not nested. */
  lemma FlatIsSeparate(p: Package, q: Path)
    requires |q| == 1 && RequestTargets(p) <= {q, MANIFEST} && WrittenPaths(p) <= {q, MANIFEST}
    ensures Separate(p)
  {
    assert |MANIFEST| == 1;
  }

  lemma DescribedConfigurationIsSeparate(source: Source)
    ensures Separate(DescribedConfiguration(source))
  {
    DescribedConfigurationIs(source);
    FlatIsSeparate(DescribedConfiguration(source), ["a.cfg"]);
  }

  lemma DescribedConfigurationIsClean(source: Source)
    ensures Clean(Requests(DescribedConfiguration(source)))
  {
    DescribedConfigurationIs(source);
    assert |"a.cfg"| != |MANIFEST[0]|;
  }

  /** The file is the first writer of the path, and a reference package only describes it. */
  lemma DescribedConfigurationIsOverlooked(source: Source)
    ensures !Foreseen(Requests(DescribedConfiguration(source)), Referencing, ["a.cfg"], source.bytes)
  {
    DescribedConfigurationIs(source);
    var rs := Requests(DescribedConfiguration(source));
    assert |"a.cfg"| != |MANIFEST[0]|;
    assert Active(rs[0]) && rs[0].target == rs[1].target;
  }

  /** In a reference package the configuration is written, but the plan only describes
      the file at its path: rollback leaves the configuration behind. */
  lemma DescribedConfigurationIsNotUndone(source: Source) returns (a: Attempt)
    ensures var p := DescribedConfiguration(source);
            && Separate(p) && Clean(Requests(p)) && MANIFEST in p.metadata
            && Legal(a, p, Referencing) && !Undone(a, p, Referencing)
  {
    var p := DescribedConfiguration(source);
    DescribedConfigurationIs(source);
    DescribedConfigurationIsSeparate(source);
    DescribedConfigurationIsClean(source);
    DescribedConfigurationIsOverlooked(source);
    a := OverlookedSurvives(p, Referencing, Renders(p.entries)[0]);
  }

  /** A package of one configuration. */
  function OneConfiguration(body: Bytes): Package {
    Package(map[], [Template(["a.cfg"], body)], [MANIFEST])
  }

  lemma OneConfigurationIs(body: Bytes)
    ensures var p := OneConfiguration(body);
            && Requests(p) == [ConfigRequest(["a.cfg"], body), MetadataRequest(MANIFEST)]
            && Syncs(p.sources, p.entries, {}) == [] && Renders(p.entries) == [Render(["a.cfg"], body)]
  {
    var p := OneConfiguration(body);
    assert p.entries[1..] == [] && p.metadata[1..] == [];
    assert EntriesRequests(p.sources, p.entries) ==
      EntryRequests(p.sources, p.entries[0]) + EntriesRequests(p.sources, []);
    assert MetadataRequests(p.metadata) == [MetadataRequest(MANIFEST)] + MetadataRequests([]);
    assert Syncs(p.sources, p.entries, {}) == EntrySyncs(p.sources, p.entries[0]) + Syncs(p.sources, [], {});
    assert Renders(p.entries) == [Render(["a.cfg"], body)] + Renders([]);
  }

  lemma OneConfigurationIsSeparate(body: Bytes)
    ensures Separate(OneConfiguration(body))
  {
    OneConfigurationIs(body);
    FlatIsSeparate(OneConfiguration(body), ["a.cfg"]);
  }

  lemma OneConfigurationIsClean(body: Bytes)
    ensures Clean(Requests(OneConfiguration(body)))
  {
    OneConfigurationIs(body);
    assert |"a.cfg"| != |MANIFEST[0]|;
  }

  lemma OneConfigurationIsForeseen(body: Bytes, mode: Mode)
    ensures AllForeseen(OneConfiguration(body), mode)
  {
    var p := OneConfiguration(body);
    OneConfigurationIs(body);
    var rs := Requests(p);
    assert FirstWriter(rs, 0) && rs[0].target == ["a.cfg"] && RequestSha(rs[0]) == Sha256(body);
  }

  /** The build stopped right after the configuration, over its own unchanged and owned file. */
  lemma StoppedAfterConfiguration(body: Bytes, bits: nat, mode: Mode) returns (a: Attempt)
    ensures Legal(a, OneConfiguration(body), mode) && a.done == 1 && a.output == map[["a.cfg"] := File(body, bits)]
    ensures ["a.cfg"] !in a.paths
  {
    var p, q := OneConfiguration(body), ["a.cfg"];
    OneConfigurationIs(body);
    OneConfigurationIsSeparate(body);
    OneConfigurationIsClean(body);
    var out, owned := map[q := File(body, bits)], map[q := Sha256(body)];
    assert BuildSteps(p, mode, [], [])[0] == Render(q, body);
    assert q in WrittenPaths(p);
    NearlyEmptyPlan(p, mode, q, out, owned);
    a := StopAfter(p, mode, 0, out, owned);
    QuietTarget(Requests(p), out, owned, mode, q);
  }

  /** Rollback leaves the file with its content, but private. */
  lemma PermissionsAreLost(body: Bytes, bits: nat, mode: Mode) returns (a: Attempt)
    requires bits != PRIVATE
    ensures var p := OneConfiguration(body);
            && AllForeseen(p, mode) && Legal(a, p, mode) && a.output == map[["a.cfg"] := File(body, bits)]
            && var tree := RestoreAll(Interrupted(a, p, mode), Saved(a.output, a.paths), a.paths);
               ["a.cfg"] in tree && tree[["a.cfg"]] == File(body, PRIVATE)
  {
    var p, q := OneConfiguration(body), ["a.cfg"];
    a := StoppedAfterConfiguration(body, bits, mode);
    OneConfigurationIs(body);
    OneConfigurationIsForeseen(body, mode);
    OutsideIsKept(a, p, mode, q);
    RollbackModes(a, p, mode, q);
    var steps := StepsOf(p, mode, a);
    var syncs := if mode.Referencing? then [] else Syncs(p.sources, p.entries, {});
    assert steps[0] in syncs + a.exports + Renders(p.entries) + [Publish(MANIFEST, a.manifest)];
    assert steps[..1] == [steps[0]];
    LastStepHolds(a.output, mode, steps[..1]);
  }
}
