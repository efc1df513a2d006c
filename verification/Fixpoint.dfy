/** The ledger fixpoint. After a successful copy or hard-link build the ledger tells
    the truth about the disk, the same catalog plans without a conflict again, and
    a second build has nothing left to do exactly when the writers of each file
    target end on its content. */
module Fixpoint {
  import opened Wrappers
  import opened Storage
  import opened Planner
  import opened PlanProperties
  import opened Builder
  import opened BuilderProperties
  import opened Ownership
  import opened Rollback

  /** A build that ran to its end. */
  datatype Build = Build(output: Tree, owned: Ledger, hadManifest: bool, exports: seq<Step>, manifest: Bytes)

  function Plan(b: Build, p: Package, mode: Mode): State {
    Fold(Requests(p), b.output, b.owned, b.hadManifest, mode)
  }

  /** Every write but the last one, which publishes the ledger. */
  function ContentSteps(b: Build, p: Package, mode: Mode): seq<Step> {
    (if mode.Referencing? then [] else Syncs(p.sources, p.entries, {})) + b.exports + Renders(p.entries)
  }

  function Before(b: Build, p: Package, mode: Mode): Tree {
    After(b.output, mode, ContentSteps(b, p, mode))
  }

  function Final(b: Build, p: Package, mode: Mode): Tree {
    After(b.output, mode, BuildSteps(p, mode, b.exports, b.manifest))
  }

  /** The manifest the build writes: it hashes the managed paths it finds on disk. */
  function Published(b: Build, p: Package, mode: Mode): Manifest {
    Manifest(mode, FileRecords(ContentSteps(b, p, mode)), Plan(b, p, mode).managed,
             Records(Before(b, p, mode), Plan(b, p, mode).managed))
  }

  /** The files of a directory artifact lie strictly below it. */
  predicate ProperDirectories(p: Package) {
    forall e | e in p.entries && e.Directory? :: |e.path| > 0 && forall c | c in e.children :: |c| > 0
  }

  ghost predicate Succeeded(b: Build, p: Package, mode: Mode) {
    && !mode.Referencing?
    && ProperDirectories(p)
    && Plan(b, p, mode).conflicts == []
    && ExportsMetadata(b.exports, p)
    && Runs(b.output, mode, BuildSteps(p, mode, b.exports, b.manifest))
  }

  lemma FinalIsPublished(b: Build, p: Package, mode: Mode)
    ensures Final(b, p, mode) == Apply(Before(b, p, mode), mode, Publish(MANIFEST, b.manifest))
  {
    var steps := BuildSteps(p, mode, b.exports, b.manifest);
    assert steps == ContentSteps(b, p, mode) + [Publish(MANIFEST, b.manifest)];
    assert steps[..|steps| - 1] == ContentSteps(b, p, mode);
  }

  /*************** the ledger is honest ***************/

  lemma WriterIsNotPassive(r: Request, first: bool, out: Tree, owned: Ledger, hadManifest: bool, mode: Mode)
    requires Active(r) && !r.RefusedRequest? && !CatalogChanged(r) && !mode.Referencing?
    ensures var item := WriterItem(r, first, out, owned, hadManifest, mode);
            item.target == r.target && !Passive(item.action)
  {
  }

  lemma ManagedItem(rs: seq<Request>, i: nat, out: Tree, owned: Ledger, hadManifest: bool, mode: Mode)
    requires i < |rs| && Fold(rs, out, owned, hadManifest, mode).conflicts == []
    requires !Passive(Fold(rs, out, owned, hadManifest, mode).items[i].action)
    ensures Fold(rs, out, owned, hadManifest, mode).items[i].target in Fold(rs, out, owned, hadManifest, mode).managed
  {
    PlanMeaning(rs, out, owned, hadManifest, mode);
    var s := Fold(rs, out, owned, hadManifest, mode);
    assert ManagedMatch(s.managed, s.items);
  }

  lemma ActiveIsManaged(rs: seq<Request>, r: Request, out: Tree, owned: Ledger, hadManifest: bool, mode: Mode)
    requires Fold(rs, out, owned, hadManifest, mode).conflicts == [] && !mode.Referencing?
    requires r in rs && Active(r)
    ensures r.target in Fold(rs, out, owned, hadManifest, mode).managed
  {
    var i: nat :| i < |rs| && rs[i] == r;
    ConflictFreeIsClean(rs, out, owned, hadManifest, mode);
    PlannedItem(rs, i, out, owned, hadManifest, mode);
    WriterIsNotPassive(r, FirstWriter(rs, i), out, owned, hadManifest, mode);
    ManagedItem(rs, i, out, owned, hadManifest, mode);
  }

  /** The request is refused, or asks for this very content. */
  predicate Asks(r: Request, s: Step) {
    r.RefusedRequest? || (r.FileRequest? && r.target == s.path && r.content == Content(s))
  }

  /** A file is never synchronised over the manifest. */
  lemma ManifestIsNotSynced(b: Build, p: Package, mode: Mode, s: Step)
    requires Succeeded(b, p, mode) && s in Syncs(p.sources, p.entries, {})
    ensures s.path != MANIFEST
  {
    ConflictFreeIsClean(Requests(p), b.output, b.owned, b.hadManifest, mode);
    SyncIsRequested(p, s);
    MetadataIsRequested(p, MANIFEST);
    if r :| r in Requests(p) && Asks(r, s) {
      if s.path == MANIFEST { WritersAgree(Requests(p), r, MetadataRequest(MANIFEST)); }
    }
  }

  lemma UnmanagedIsSynced(b: Build, p: Package, mode: Mode, q: Path, s: Step)
    requires Succeeded(b, p, mode) && q !in Plan(b, p, mode).managed
    requires s in ContentSteps(b, p, mode) && s.path == q
    ensures s.Sync?
  {
    var rs := Requests(p);
    StepKinds(p, mode, b.exports, b.manifest, s);
    if s.Export? || s.Publish? {
      MetadataIsRequested(p, q);
      ActiveIsManaged(rs, MetadataRequest(q), b.output, b.owned, b.hadManifest, mode);
    } else if s.Render? {
      RenderIsRequested(p, s);
      ActiveIsManaged(rs, ConfigRequest(q, s.bytes), b.output, b.owned, b.hadManifest, mode);
    }
  }

  lemma LastSyncIsStep(steps: seq<Step>, p: Path) returns (s: Step)
    requires LastSync(steps, p).Some?
    ensures s in steps && s.Sync? && s.path == p && Some(Content(s)) == LastSync(steps, p)
  {
    s := steps[|steps| - 1];
    if !(s.Sync? && s.path == p) {
      s := LastSyncIsStep(steps[..|steps| - 1], p);
    }
  }

  /** What the next build will believe about `q`. */
  lemma LoadedIs(b: Build, p: Package, mode: Mode, q: Path)
    requires Succeeded(b, p, mode)
    ensures var l, disk := Load(Published(b, p, mode)), Before(b, p, mode);
            && (q in Plan(b, p, mode).managed ==> q in l)
            && (q in l && l[q] != Blank ==>
                  || (q in Plan(b, p, mode).managed && q != MANIFEST && q in disk && l[q] == Sha256(disk[q].bytes))
                  || (LastSync(ContentSteps(b, p, mode), q).Some?
                      && !(q in Plan(b, p, mode).managed && q != MANIFEST && q in disk)
                      && l[q] == Sha256(LastSync(ContentSteps(b, p, mode), q).value)))
  {
    var m := Published(b, p, mode);
    LoadedFile(ContentSteps(b, p, mode), q);
    LoadedManaged(OwnFiles(m.files), m.managed, q);
    LoadedRecord(Before(b, p, mode), OwnManaged(OwnFiles(m.files), m.managed), m.managed, q);
  }

  /** Every digest the ledger records is the digest of what is on disk. */
  lemma LedgerIsHonest(b: Build, p: Package, mode: Mode, q: Path)
    requires Succeeded(b, p, mode)
    requires q in Load(Published(b, p, mode)) && Load(Published(b, p, mode))[q] != Blank
    ensures q in Final(b, p, mode) && Load(Published(b, p, mode))[q] == Sha256(Final(b, p, mode)[q].bytes)
  {
    var steps := ContentSteps(b, p, mode);
    LoadedIs(b, p, mode, q);
    FinalIsPublished(b, p, mode);
    if !(q in Plan(b, p, mode).managed && q != MANIFEST && q in Before(b, p, mode)) {
      var s := LastSyncIsStep(steps, q);
      StepKinds(p, mode, b.exports, b.manifest, s);
      ManifestIsNotSynced(b, p, mode, s);
      AfterHolds(b.output, mode, steps, q);
      LastContentIsWritten(steps, q);
      forall t | t in steps && t.path == q ensures t.Sync? {
        UnmanagedIsSynced(b, p, mode, q, t);
      }
      LastSyncIsLast(steps, q);
    }
  }

  /** Replanning the catalog on the built output, with the published ledger, raises no conflict. */
  lemma ReplanHasNoConflict(b: Build, p: Package, mode: Mode)
    requires Succeeded(b, p, mode)
    ensures Fold(Requests(p), Final(b, p, mode), Load(Published(b, p, mode)), true, mode).conflicts == []
  {
    var rs, out, owned := Requests(p), Final(b, p, mode), Load(Published(b, p, mode));
    ConflictFreeIsClean(rs, b.output, b.owned, b.hadManifest, mode);
    forall i: nat | i < |rs| ensures Permitted(rs[i], FirstWriter(rs, i), out, owned, true, mode) {
      if Active(rs[i]) {
        ActiveIsManaged(rs, rs[i], b.output, b.owned, b.hadManifest, mode);
        LoadedIs(b, p, mode, rs[i].target);
        if owned[rs[i].target] != Blank {
          LedgerIsHonest(b, p, mode, rs[i].target);
        }
      }
    }
    PlanMeaning(rs, out, owned, true, mode);
  }

  /*************** the second build is idle ***************/

  /** Each file target ends on the content of every file that is synchronised to it. */
  predicate Settled(steps: seq<Step>) {
    forall s | s in steps && s.Sync? :: LastContent(steps, s.path) == Some(Content(s))
  }

  lemma {:induction false} IdleRun(tree: Tree, mode: Mode, syncs: seq<Step>)
    requires forall s | s in syncs :: Skips(tree, s)
    ensures After(tree, mode, syncs) == tree
            && Counts(tree, mode, syncs).copied == Counts(tree, mode, syncs).linked == 0
  {
    if syncs != [] {
      IdleRun(tree, mode, syncs[..|syncs| - 1]);
    }
  }

  lemma {:induction false} BusyRun(tree: Tree, mode: Mode, syncs: seq<Step>, s: Step)
    requires (forall s | s in syncs :: s.Sync?) && s in syncs && !Skips(tree, s)
    ensures Counts(tree, mode, syncs).copied + Counts(tree, mode, syncs).linked > 0
  {
    var init := syncs[..|syncs| - 1];
    assert syncs == init + [syncs[|syncs| - 1]];
    if t :| t in init && !Skips(tree, t) {
      BusyRun(tree, mode, init, t);
    } else {
      IdleRun(tree, mode, init);
    }
  }

  lemma {:induction false} OthersDoNotCount(tree: Tree, mode: Mode, syncs: seq<Step>, others: seq<Step>)
    requires forall s | s in others :: !s.Sync?
    ensures Counts(tree, mode, syncs + others) == Counts(tree, mode, syncs)
  {
    if others != [] {
      var n := |others| - 1;
      OthersDoNotCount(tree, mode, syncs, others[..n]);
      assert (syncs + others)[..|syncs + others| - 1] == syncs + others[..n];
    } else {
      assert syncs + others == syncs;
    }
  }

  /** Repeating a build copies and links nothing exactly when the first one settled. */
  lemma SecondBuildIsIdle(b: Build, p: Package, mode: Mode, exports: seq<Step>, manifest: Bytes)
    requires Succeeded(b, p, mode) && ExportsMetadata(exports, p)
    ensures var tally := Counts(Final(b, p, mode), mode, BuildSteps(p, mode, exports, manifest));
            tally.copied == tally.linked == 0 <==> Settled(BuildSteps(p, mode, b.exports, b.manifest))
  {
    var tree, syncs := Final(b, p, mode), Syncs(p.sources, p.entries, {});
    var steps := BuildSteps(p, mode, b.exports, b.manifest);
    var others := exports + Renders(p.entries) + [Publish(MANIFEST, manifest)];
    forall s | s in others ensures !s.Sync? {
      if s in Renders(p.entries) { RendersAre(p.entries, s); }
    }
    assert BuildSteps(p, mode, exports, manifest) == syncs + others;
    OthersDoNotCount(tree, mode, syncs, others);
    forall s | s in syncs
      ensures s.Sync? && s in steps && (Skips(tree, s) <==> LastContent(steps, s.path) == Some(Content(s))) {
      SyncsOnlySync(p.sources, p.entries, {}, s);
      AfterHolds(b.output, mode, steps, s.path);
      LastContentIsWritten(steps, s.path);
    }
    forall s | s in steps && s.Sync? ensures s in syncs {
      StepKinds(p, mode, b.exports, b.manifest, s);
    }
    if Settled(steps) {
      IdleRun(tree, mode, syncs);
    } else {
      var s :| s in steps && s.Sync? && LastContent(steps, s.path) != Some(Content(s));
      BusyRun(tree, mode, syncs, s);
    }
  }

  /** The request behind a step, for a catalog without skipped directories. */
  lemma RequestOf(p: Package, mode: Mode, exports: seq<Step>, manifest: Bytes, s: Step) returns (r: Request)
    requires Clean(Requests(p)) && ExportsMetadata(exports, p)
    requires forall e | e in p.entries :: !SkippedByPlan(e)
    requires s in BuildSteps(p, mode, exports, manifest)
    ensures r in Requests(p) && Active(r) && r.target == s.path
    ensures RequestSha(r) == if r.MetadataRequest? then Blank else Sha256(Content(s))
    ensures s.Sync? ==> r.FileRequest?
  {
    StepKinds(p, mode, exports, manifest, s);
    if s.Sync? {
      SyncIsRequested(p, s);
      r :| r in Requests(p) && (r.RefusedRequest? || (r.FileRequest? && r.target == s.path && r.content == Content(s)));
    } else if s.Render? {
      RenderIsRequested(p, s);
      r := ConfigRequest(s.path, s.bytes);
    } else {
      MetadataIsRequested(p, s.path);
      r := MetadataRequest(s.path);
    }
  }

  /** What a request wants on disk is what the last write at its target leaves. */
  lemma ReadableTargetsSettle(b: Build, p: Package, mode: Mode, r: Request, content: Bytes)
    requires Succeeded(b, p, mode) && (forall e | e in p.entries :: !SkippedByPlan(e))
    requires r in Requests(p) && Active(r) && RequestSha(r) == Sha256(content)
    ensures LastContent(BuildSteps(p, mode, b.exports, b.manifest), r.target) in {None, Some(content)}
  {
    var steps := BuildSteps(p, mode, b.exports, b.manifest);
    ConflictFreeIsClean(Requests(p), b.output, b.owned, b.hadManifest, mode);
    LastContentIsWritten(steps, r.target);
    if LastContent(steps, r.target).Some? {
      var s :| s in steps && Wrote(s, r.target, LastContent(steps, r.target).value);
      var r' := RequestOf(p, mode, b.exports, b.manifest, s);
      WritersAgree(Requests(p), r, r');
    }
  }

  lemma ReadableCatalogSettles(b: Build, p: Package, mode: Mode)
    requires Succeeded(b, p, mode) && forall e | e in p.entries :: !SkippedByPlan(e)
    ensures Settled(BuildSteps(p, mode, b.exports, b.manifest))
  {
    var steps := BuildSteps(p, mode, b.exports, b.manifest);
    ConflictFreeIsClean(Requests(p), b.output, b.owned, b.hadManifest, mode);
    forall s | s in steps && s.Sync? ensures LastContent(steps, s.path) == Some(Content(s)) {
      var r := RequestOf(p, mode, b.exports, b.manifest, s);
      ReadableTargetsSettle(b, p, mode, r, Content(s));
      LastContentIsWritten(steps, s.path);
    }
  }

  /*************** replanning ***************/

  function Wanted(r: Request): Bytes
    requires r.FileRequest? || r.ConfigRequest?
  {
    if r.FileRequest? then r.content else r.body
  }

  /** The action of a file or configuration when the same catalog is planned again. */
  lemma ReplanAction(b: Build, p: Package, mode: Mode, i: nat)
    requires Succeeded(b, p, mode) && i < |Requests(p)|
    requires Requests(p)[i].FileRequest? || Requests(p)[i].ConfigRequest?
    ensures var rs, steps := Requests(p), BuildSteps(p, mode, b.exports, b.manifest);
            var again := Fold(rs, Final(b, p, mode), Load(Published(b, p, mode)), true, mode);
            again.items[i].action ==
              if !FirstWriter(rs, i) then Deduplicated
              else if LastContent(steps, rs[i].target) == Some(Wanted(rs[i])) then Unchanged
              else if rs[i].ConfigRequest? then Generate else ModeAction(mode)
  {
    var rs, steps := Requests(p), BuildSteps(p, mode, b.exports, b.manifest);
    var r := rs[i];
    ReplanHasNoConflict(b, p, mode);
    PlannedItem(rs, i, Final(b, p, mode), Load(Published(b, p, mode)), true, mode);
    ConflictFreeIsClean(rs, b.output, b.owned, b.hadManifest, mode);
    ActiveIsManaged(rs, r, b.output, b.owned, b.hadManifest, mode);
    LoadedIs(b, p, mode, r.target);
    RequestIsInSteps(b, p, mode, r);
    LastContentIsWritten(steps, r.target);
    AfterHolds(b.output, mode, steps, r.target);
  }

  lemma RequestIsInSteps(b: Build, p: Package, mode: Mode, r: Request)
    requires !mode.Referencing? && r in Requests(p) && (r.FileRequest? || r.ConfigRequest?)
    ensures exists s | s in BuildSteps(p, mode, b.exports, b.manifest) :: Wrote(s, r.target, Wanted(r))
  {
    RequestIsWritten(p, r);
    var steps := BuildSteps(p, mode, b.exports, b.manifest);
    if r.FileRequest? {
      var s :| s in Syncs(p.sources, p.entries, {}) && Wrote(s, r.target, r.content);
      assert s in steps;
    } else {
      assert Render(r.target, r.body) in steps && Wrote(Render(r.target, r.body), r.target, r.body);
    }
  }

  /** The fixpoint: a catalog without skipped directories, once built, plans again
      without conflict, with every file and configuration unchanged or deduplicated,
      and a second build copies and links nothing. */
  lemma LedgerFixpoint(b: Build, p: Package, mode: Mode, exports: seq<Step>, manifest: Bytes)
    requires Succeeded(b, p, mode) && ExportsMetadata(exports, p)
    requires forall e | e in p.entries :: !SkippedByPlan(e)
    ensures var rs := Requests(p);
            var again := Fold(rs, Final(b, p, mode), Load(Published(b, p, mode)), true, mode);
            && again.conflicts == []
            && (forall i: nat | i < |rs| && (rs[i].FileRequest? || rs[i].ConfigRequest?) ::
                  again.items[i].action in {Unchanged, Deduplicated})
    ensures var tally := Counts(Final(b, p, mode), mode, BuildSteps(p, mode, exports, manifest));
            tally.copied == tally.linked == 0
  {
    var rs := Requests(p);
    var again := Fold(rs, Final(b, p, mode), Load(Published(b, p, mode)), true, mode);
    ReplanHasNoConflict(b, p, mode);
    ReadableCatalogSettles(b, p, mode);
    SecondBuildIsIdle(b, p, mode, exports, manifest);
    forall i: nat | i < |rs| && (rs[i].FileRequest? || rs[i].ConfigRequest?)
      ensures again.items[i].action in {Unchanged, Deduplicated}
    {
      ReplanAction(b, p, mode, i);
      RequestIsInSteps(b, p, mode, rs[i]);
      LastContentIsWritten(BuildSteps(p, mode, b.exports, b.manifest), rs[i].target);
      ReadableTargetsSettle(b, p, mode, rs[i], Wanted(rs[i]));
    }
  }
}
