/** When a second build is idle, told from the package alone: the plan skips a
    directory whose fingerprint cannot be read, the build copies its files, and
    another writer of such a file keeps the two builds busy. */
module SecondBuild {
  import opened Wrappers
  import opened Storage
  import opened Planner
  import opened PlanProperties
  import opened Builder
  import opened BuilderProperties
  import opened EntryProperties
  import opened Rollback
  import opened Fixpoint

  /** No file below a skipped directory is also generated, or written by any entry with
      another content. */
  ghost predicate Undisputed(p: Package) {
    forall e, q, b | e in p.entries && SkippedByPlan(e) && Provides(p.sources, e, q, b) :: UndisputedAt(p, q, b)
  }

  ghost predicate UndisputedAt(p: Package, q: Path, b: Bytes) {
    q !in p.metadata && forall f, c | f in p.entries && Puts(p.sources, f, q, c) :: c == b
  }

  /*************** undisputed packages settle ***************/

  /** The entry behind a synchronised file. */
  lemma SyncOrigin(p: Package, s: Step) returns (e: Entry)
    requires s in Syncs(p.sources, p.entries, {})
    ensures e in p.entries && Provides(p.sources, e, s.path, Content(s))
  {
    SyncsAre(p.sources, p.entries, {}, s.path, Content(s));
    assert Wrote(s, s.path, Content(s));
    e :| e in p.entries && Provides(p.sources, e, s.path, Content(s));
  }

  /** A file that is planned has a request that carries its content. */
  lemma PlannedRequest(p: Package, e: Entry, q: Path, b: Bytes) returns (r: Request)
    requires Clean(Requests(p)) && e in p.entries && !SkippedByPlan(e) && Puts(p.sources, e, q, b)
    ensures r in Requests(p) && Active(r) && r.target == q && RequestSha(r) == Sha256(b)
  {
    if e == Template(q, b) {
      r := ConfigRequest(q, b);
      assert r in EntryRequests(p.sources, e);
    } else {
      ProvidedIsRequested(p.sources, e, q, b);
      r :| r in EntryRequests(p.sources, e)
        && (r.RefusedRequest? || (r.FileRequest? && r.target == q && r.content == b));
    }
    EntriesRequestsAre(p.sources, p.entries, r);
    assert r in Requests(p);
  }

  /** Two entries that write one path agree. */
  lemma EntriesAgree(p: Package, e: Entry, f: Entry, q: Path, b: Bytes, c: Bytes)
    requires Clean(Requests(p)) && Undisputed(p) && e in p.entries && f in p.entries
    requires Provides(p.sources, e, q, b) && Puts(p.sources, f, q, c)
    ensures b == c
  {
    if SkippedByPlan(e) {
      assert UndisputedAt(p, q, b);
    } else if SkippedByPlan(f) {
      assert UndisputedAt(p, q, c) && Puts(p.sources, e, q, b);
    } else {
      var r := PlannedRequest(p, e, q, b);
      var r' := PlannedRequest(p, f, q, c);
      WritersAgree(Requests(p), r, r');
    }
  }

  /** A file is never synchronised over generated metadata. */
  lemma SyncIsNoMetadata(p: Package, e: Entry, q: Path, b: Bytes)
    requires Clean(Requests(p)) && Undisputed(p) && e in p.entries && Provides(p.sources, e, q, b)
    ensures q !in p.metadata
  {
    if SkippedByPlan(e) {
      assert UndisputedAt(p, q, b);
    } else if q in p.metadata {
      var r := PlannedRequest(p, e, q, b);
      MetadataIsRequested(p, q);
      WritersAgree(Requests(p), r, MetadataRequest(q));
    }
  }

  lemma StepsAgree(p: Package, mode: Mode, exports: seq<Step>, manifest: Bytes, s: Step, w: Step)
    requires Clean(Requests(p)) && Undisputed(p) && ExportsMetadata(exports, p)
    requires s in Syncs(p.sources, p.entries, {}) && w in BuildSteps(p, mode, exports, manifest) && w.path == s.path
    ensures Content(w) == Content(s)
  {
    var e := SyncOrigin(p, s);
    SyncIsNoMetadata(p, e, s.path, Content(s));
    StepKinds(p, mode, exports, manifest, w);
    if w.Sync? {
      var f := SyncOrigin(p, w);
      EntriesAgree(p, e, f, s.path, Content(s), Content(w));
    } else if w.Render? {
      RendersAre(p.entries, w);
      EntriesAgree(p, e, Template(w.path, w.bytes), s.path, Content(s), Content(w));
    }
  }

  lemma UndisputedSettles(b: Build, p: Package, mode: Mode)
    requires Succeeded(b, p, mode) && Undisputed(p)
    ensures Settled(BuildSteps(p, mode, b.exports, b.manifest))
  {
    var steps := BuildSteps(p, mode, b.exports, b.manifest);
    ConflictFreeIsClean(Requests(p), b.output, b.owned, b.hadManifest, mode);
    forall s | s in steps && s.Sync? ensures LastContent(steps, s.path) == Some(Content(s)) {
      StepKinds(p, mode, b.exports, b.manifest, s);
      LastContentIsWritten(steps, s.path);
      var w :| w in steps && Wrote(w, s.path, LastContent(steps, s.path).value);
      StepsAgree(p, mode, b.exports, b.manifest, s, w);
    }
  }

  /** What a build ships is what was catalogued: a file with a catalogued digest is in the
      output with its source's bytes, and they have that digest. */
  lemma ShippedIsCatalogued(b: Build, p: Package, mode: Mode, e: Entry)
    requires Succeeded(b, p, mode) && Undisputed(p)
    requires e in p.entries && (e.Artifact? || e.Asset?) && (e.root, e.path) in p.sources
    ensures var source := p.sources[(e.root, e.path)];
            SameFile(Final(b, p, mode), e.path, source.bytes) && e.catalogSha in {Blank, Sha256(source.bytes)}
  {
    var steps, bytes := BuildSteps(p, mode, b.exports, b.manifest), p.sources[(e.root, e.path)].bytes;
    ConflictFreeIff(p, b.output, b.owned, b.hadManifest, mode);
    assert !Unplannable(p.sources, e);
    UndisputedSettles(b, p, mode);
    ProvidedIsSynced(p, e, e.path, bytes);
    var s :| s in Syncs(p.sources, p.entries, {}) && s.Sync? && Wrote(s, e.path, bytes);
    assert s in steps;
    AfterHolds(b.output, mode, steps, e.path);
  }

  /*************** disputed ones need not ***************/

  lemma {:induction false} LastOf(a: seq<Step>, b: seq<Step>, q: Path)
    requires exists s | s in b :: s.path == q
    ensures LastContent(a + b, q) == LastContent(b, q)
  {
    var n := |b| - 1;
    assert (a + b)[|a + b| - 1] == b[n] && (a + b)[..|a + b| - 1] == a + b[..n];
    if b[n].path != q {
      var s :| s in b && s.path == q;
      assert b == b[..n] + [b[n]];
      LastOf(a, b[..n], q);
    }
  }

  /** The files of a package, as one run of the build writes them on an empty disk. */
  function FreshBuild(exports: seq<Step>): Build {
    Build(map[], map[], false, exports, [])
  }

  lemma FreshBuildSucceeds(p: Package, mode: Mode, exports: seq<Step>)
    requires !mode.Referencing? && ProperDirectories(p) && Separate(p) && Clean(Requests(p))
    requires ExportsMetadata(exports, p)
    ensures Succeeded(FreshBuild(exports), p, mode)
  {
    var steps := BuildSteps(p, mode, exports, []);
    forall s | s in steps ensures s.path in RequestTargets(p) + WrittenPaths(p) {
      StepKinds(p, mode, exports, [], s);
      if s.Export? || s.Publish? {
        MetadataIsRequested(p, s.path);
        assert MetadataRequest(s.path).target in RequestTargets(p);
      }
    }
    SeparateRuns(map[], mode, steps, RequestTargets(p) + WrittenPaths(p));
    NearlyEmptyPlan(p, mode, MANIFEST, map[], map[]);
  }

  /** Where a later part of the build writes something else, the file is not settled. */
  lemma Overwritten(syncs: seq<Step>, rest: seq<Step>, q: Path, b: Bytes)
    requires exists s | s in syncs :: s.Sync? && Wrote(s, q, b)
    requires (exists w | w in rest :: w.path == q) && forall w | w in rest && w.path == q :: Content(w) != b
    ensures !Settled(syncs + rest)
  {
    var s :| s in syncs && s.Sync? && Wrote(s, q, b);
    LastOf(syncs, rest, q);
    LastContentIsWritten(rest, q);
    assert s in syncs + rest;
  }

  lemma TwoContents(steps: seq<Step>, q: Path, b: Bytes, c: Bytes)
    requires b != c
    requires (exists s | s in steps :: s.Sync? && Wrote(s, q, b)) && exists s | s in steps :: s.Sync? && Wrote(s, q, c)
    ensures !Settled(steps)
  {
    var s :| s in steps && s.Sync? && Wrote(s, q, b);
    var t :| t in steps && t.Sync? && Wrote(t, q, c);
    assert LastContent(steps, q) != Some(b) || LastContent(steps, q) != Some(c);
  }

  lemma ProvidedIsSynced(p: Package, e: Entry, q: Path, b: Bytes)
    requires e in p.entries && Provides(p.sources, e, q, b)
    ensures exists s | s in Syncs(p.sources, p.entries, {}) :: s.Sync? && Wrote(s, q, b)
  {
    SyncsAre(p.sources, p.entries, {}, q, b);
    var s :| s in Syncs(p.sources, p.entries, {}) && Wrote(s, q, b);
    SyncsOnlySync(p.sources, p.entries, {}, s);
  }

  /** Every configuration at a path has one content. */
  lemma RendersAgree(p: Package, s: Step, w: Step)
    requires Clean(Requests(p)) && s in Renders(p.entries) && w in Renders(p.entries) && s.path == w.path
    ensures Content(s) == Content(w)
  {
    RenderIsRequested(p, s);
    RenderIsRequested(p, w);
    WritersAgree(Requests(p), ConfigRequest(s.path, Content(s)), ConfigRequest(w.path, Content(w)));
  }

  lemma MetadataIsNotRendered(p: Package, w: Step)
    requires Clean(Requests(p)) && w in Renders(p.entries)
    ensures w.path !in p.metadata
  {
    RenderIsRequested(p, w);
    if w.path in p.metadata {
      MetadataIsRequested(p, w.path);
      WritersAgree(Requests(p), ConfigRequest(w.path, Content(w)), MetadataRequest(w.path));
    }
  }

  /** Some bytes other than these. */
  function Other(b: Bytes): (c: Bytes)
    ensures c != b
  {
    b + [0]
  }

  /** A generated file at the path of a skipped file: the exporter may write other bytes. */
  lemma DisputedByMetadata(p: Package, mode: Mode, e: Entry, q: Path, b: Bytes)
    requires !mode.Referencing? && ProperDirectories(p) && Clean(Requests(p)) && MANIFEST in p.metadata
    requires e in p.entries && SkippedByPlan(e) && Provides(p.sources, e, q, b) && q in p.metadata
    ensures ExportsMetadata([Export(q, Other(b))], p) && !Settled(BuildSteps(p, mode, [Export(q, Other(b))], []))
  {
    var exports := [Export(q, Other(b))];
    assert |q| > 1 && |MANIFEST| == 1;
    var syncs, rest := Syncs(p.sources, p.entries, {}), exports + Renders(p.entries) + [Publish(MANIFEST, [])];
    assert BuildSteps(p, mode, exports, []) == syncs + rest;
    ProvidedIsSynced(p, e, q, b);
    forall w | w in rest && w.path == q ensures Content(w) != b {
      if w in Renders(p.entries) { MetadataIsNotRendered(p, w); }
    }
    assert exports[0] in rest;
    Overwritten(syncs, rest, q, b);
  }

  /** An entry that synchronises another content at the path of a skipped file. */
  lemma DisputedBySync(p: Package, mode: Mode, e: Entry, f: Entry, q: Path, b: Bytes, c: Bytes)
    requires !mode.Referencing? && b != c
    requires e in p.entries && Provides(p.sources, e, q, b)
    requires f in p.entries && Provides(p.sources, f, q, c)
    ensures !Settled(BuildSteps(p, mode, [], []))
  {
    ProvidedIsSynced(p, e, q, b);
    ProvidedIsSynced(p, f, q, c);
    TwoContents(BuildSteps(p, mode, [], []), q, b, c);
  }

  /** The path of a skipped file is below its directory, so it is not the manifest. */
  lemma SkippedIsNotManifest(p: Package, e: Entry, q: Path, b: Bytes)
    requires ProperDirectories(p) && e in p.entries && SkippedByPlan(e) && Provides(p.sources, e, q, b)
    ensures q != MANIFEST
  {
    assert |q| > 1 && |MANIFEST| == 1;
  }

  lemma StepsWithoutExports(p: Package, mode: Mode)
    requires !mode.Referencing?
    ensures BuildSteps(p, mode, [], []) ==
              Syncs(p.sources, p.entries, {}) + (Renders(p.entries) + [Publish(MANIFEST, [])])
  {
    assert Syncs(p.sources, p.entries, {}) + [] == Syncs(p.sources, p.entries, {});
  }

  lemma RestRenders(p: Package, q: Path, b: Bytes, w: Step)
    requires Clean(Requests(p)) && q != MANIFEST
    requires w in Renders(p.entries) && w.path == q && Content(w) != b
    ensures var rest := Renders(p.entries) + [Publish(MANIFEST, [])];
            w in rest && forall x | x in rest && x.path == q :: Content(x) != b
  {
    forall x | x in Renders(p.entries) + [Publish(MANIFEST, [])] && x.path == q ensures Content(x) != b {
      RendersAgree(p, w, x);
    }
  }

  /** An entry that renders another content at the path of a skipped file. */
  lemma DisputedByRender(p: Package, mode: Mode, e: Entry, q: Path, b: Bytes, w: Step)
    requires !mode.Referencing? && ProperDirectories(p) && Clean(Requests(p))
    requires e in p.entries && SkippedByPlan(e) && Provides(p.sources, e, q, b)
    requires w in Renders(p.entries) && w.path == q && Content(w) != b
    ensures !Settled(BuildSteps(p, mode, [], []))
  {
    ProvidedIsSynced(p, e, q, b);
    SkippedIsNotManifest(p, e, q, b);
    RestRenders(p, q, b, w);
    Overwritten(Syncs(p.sources, p.entries, {}), Renders(p.entries) + [Publish(MANIFEST, [])], q, b);
    StepsWithoutExports(p, mode);
  }

  /** An entry that writes another content at the path of a skipped file. */
  lemma DisputedByEntry(p: Package, mode: Mode, e: Entry, f: Entry, q: Path, b: Bytes, c: Bytes)
    requires !mode.Referencing? && ProperDirectories(p) && Clean(Requests(p))
    requires e in p.entries && SkippedByPlan(e) && Provides(p.sources, e, q, b)
    requires f in p.entries && Puts(p.sources, f, q, c) && b != c
    ensures !Settled(BuildSteps(p, mode, [], []))
  {
    if Provides(p.sources, f, q, c) {
      DisputedBySync(p, mode, e, f, q, b, c);
    } else {
      RendersAre(p.entries, Render(q, c));
      DisputedByRender(p, mode, e, q, b, Render(q, c));
    }
  }

  /** A disputed package has a build that does not settle. */
  lemma DisputedDoesNotSettle(p: Package, mode: Mode) returns (b: Build)
    requires !mode.Referencing? && ProperDirectories(p) && Separate(p) && Clean(Requests(p)) && MANIFEST in p.metadata
    requires !Undisputed(p)
    ensures Succeeded(b, p, mode) && !Settled(BuildSteps(p, mode, b.exports, b.manifest))
  {
    var e, q, c :| e in p.entries && SkippedByPlan(e) && Provides(p.sources, e, q, c) && !UndisputedAt(p, q, c);
    if q in p.metadata {
      DisputedByMetadata(p, mode, e, q, c);
      b := FreshBuild([Export(q, Other(c))]);
    } else {
      var f, d :| f in p.entries && Puts(p.sources, f, q, d) && d != c;
      DisputedByEntry(p, mode, e, f, q, c, d);
      b := FreshBuild([]);
    }
    FreshBuildSucceeds(p, mode, b.exports);
  }

  /*************** the condition ***************/

  /** The second build has nothing to copy or link. */
  predicate IdleAgain(b: Build, p: Package, mode: Mode, exports: seq<Step>, manifest: Bytes) {
    var tally := Counts(Final(b, p, mode), mode, BuildSteps(p, mode, exports, manifest));
    tally.copied == tally.linked == 0
  }

  /** Idleness is settling. */
  lemma IdleIffSettled(b: Build, p: Package, mode: Mode, exports: seq<Step>, manifest: Bytes)
    requires Succeeded(b, p, mode) && ExportsMetadata(exports, p)
    ensures IdleAgain(b, p, mode, exports, manifest) <==> Settled(BuildSteps(p, mode, b.exports, b.manifest))
  {
    SecondBuildIsIdle(b, p, mode, exports, manifest);
  }

  /** Every successful build of this package leaves the next one nothing to copy or link. */
  ghost predicate AlwaysIdle(p: Package, mode: Mode) {
    forall b, exports, manifest | Succeeded(b, p, mode) && ExportsMetadata(exports, p) ::
        IdleAgain(b, p, mode, exports, manifest)
  }

  lemma UndisputedIsIdle(p: Package, mode: Mode)
    requires Undisputed(p)
    ensures AlwaysIdle(p, mode)
  {
    forall b, exports, manifest | Succeeded(b, p, mode) && ExportsMetadata(exports, p)
      ensures IdleAgain(b, p, mode, exports, manifest) {
      UndisputedSettles(b, p, mode);
      IdleIffSettled(b, p, mode, exports, manifest);
    }
  }

  /** After every successful build of a package the next build is idle, exactly when no
      file below a skipped directory is disputed. */
  lemma SecondBuildsAreIdleIff(p: Package, mode: Mode)
    requires !mode.Referencing? && ProperDirectories(p) && Separate(p) && Clean(Requests(p)) && MANIFEST in p.metadata
    ensures Undisputed(p) <==> AlwaysIdle(p, mode)
  {
    if Undisputed(p) {
      UndisputedIsIdle(p, mode);
    } else {
      var b := DisputedDoesNotSettle(p, mode);
      IdleIffSettled(b, p, mode, b.exports, b.manifest);
    }
  }

  /*************** the input ***************/

  /** A skipped directory and an uploaded file at the path of its file. */
  function UploadedTwice(x: Source, y: Source): Package {
    Package(map[(Library, ["game", "a.bin"]) := x, (ManagedROM, ["game", "a.bin"]) := y],
            [Directory("edition", Library, ["game"], [["a.bin"]], Unreadable),
             Artifact("other", ManagedROM, ["game", "a.bin"], Blank)],
            [MANIFEST])
  }

  lemma UploadedTwiceIs(x: Source, y: Source)
    ensures var p := UploadedTwice(x, y);
            Requests(p) ==
              [MissingRequest(Rom, "edition", ["game"]),
               FileRequest(Rom, "other", ["game", "a.bin"], y.bytes, Blank),
               MetadataRequest(MANIFEST)]
  {
    var p := UploadedTwice(x, y);
    var directory, artifact := p.entries[0], p.entries[1];
    assert EntryRequests(p.sources, directory) == [MissingRequest(Rom, "edition", ["game"])];
    assert EntryRequests(p.sources, artifact) == [FileRequest(Rom, "other", ["game", "a.bin"], y.bytes, Blank)];
    assert p.entries[1..] == [artifact] && [artifact][1..] == [] && p.metadata[1..] == [];
    assert EntriesRequests(p.sources, [artifact]) ==
      EntryRequests(p.sources, artifact) + EntriesRequests(p.sources, []);
    assert MetadataRequests(p.metadata) == [MetadataRequest(MANIFEST)] + MetadataRequests([]);
  }

  lemma UploadedTwiceIsClean(x: Source, y: Source)
    ensures ProperDirectories(UploadedTwice(x, y)) && Clean(Requests(UploadedTwice(x, y)))
  {
    UploadedTwiceIs(x, y);
    assert |["game", "a.bin"]| != |MANIFEST|;
  }

  lemma UploadedTwiceSyncs(x: Source, y: Source, s: Step)
    requires s in Syncs(UploadedTwice(x, y).sources, UploadedTwice(x, y).entries, {})
    ensures s.path == ["game", "a.bin"]
  {
    var e := SyncOrigin(UploadedTwice(x, y), s);
    assert e.Directory? ==> s.path[|e.path|..] == ["a.bin"] && s.path == e.path + s.path[|e.path|..];
  }

  lemma UploadedTwicePaths(x: Source, y: Source, q: Path)
    requires q in RequestTargets(UploadedTwice(x, y)) + WrittenPaths(UploadedTwice(x, y))
    ensures q == MANIFEST || q == ["game", "a.bin"]
  {
    var p := UploadedTwice(x, y);
    UploadedTwiceIs(x, y);
    if s :| s in Syncs(p.sources, p.entries, {}) && s.path == q { UploadedTwiceSyncs(x, y, s); }
    if s :| s in Renders(p.entries) && s.path == q { RendersAre(p.entries, s); }
  }

  lemma UploadedTwiceIsSeparate(x: Source, y: Source)
    ensures Separate(UploadedTwice(x, y))
  {
    var p := UploadedTwice(x, y);
    forall a, b | a in RequestTargets(p) + WrittenPaths(p) && b in RequestTargets(p) + WrittenPaths(p)
      ensures !Nested(a, b) {
      UploadedTwicePaths(x, y, a);
      UploadedTwicePaths(x, y, b);
      assert |"game"| != |MANIFEST[0]| && ["game", "a.bin"][0] == "game";
    }
  }

  /** Its two files differ: it builds, and building it again copies again. */
  lemma UploadedTwiceIsNeverIdle(x: Source, y: Source, mode: Mode) returns (b: Build)
    requires x.bytes != y.bytes && !mode.Referencing?
    ensures var p := UploadedTwice(x, y);
            Succeeded(b, p, mode) && !IdleAgain(b, p, mode, b.exports, b.manifest)
  {
    var p := UploadedTwice(x, y);
    UploadedTwiceIsClean(x, y);
    UploadedTwiceIsSeparate(x, y);
    var directory, artifact := p.entries[0], p.entries[1];
    var q := ["game", "a.bin"];
    assert q[|directory.path|..] == ["a.bin"] && Provides(p.sources, directory, q, x.bytes);
    assert Puts(p.sources, artifact, q, y.bytes) && !UndisputedAt(p, q, x.bytes);
    b := DisputedDoesNotSettle(p, mode);
    IdleIffSettled(b, p, mode, b.exports, b.manifest);
  }
}
