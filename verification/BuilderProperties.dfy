/** Where the builder's writes come from, and what a run leaves on disk. */
module BuilderProperties {
  import opened Storage
  import opened Planner
  import opened Builder
  import opened Wrappers

  /*************** origins ***************/

  /** The files an entry puts into a package, whether planned or not. */
  predicate Provides(sources: Sources, e: Entry, p: Path, b: Bytes) {
    match e
    case Artifact(_, root, path, _) => p == path && (root, p) in sources && sources[(root, p)].bytes == b
    case Asset(_, root, path, _) => p == path && (root, p) in sources && sources[(root, p)].bytes == b
    case Directory(_, root, path, children, _) =>
      path <= p && p[|path|..] in children && (root, p) in sources && sources[(root, p)].bytes == b
    case _ => false
  }

  /** The entry puts this content at `q`. */
  predicate Puts(sources: Sources, e: Entry, q: Path, b: Bytes) {
    Provides(sources, e, q, b) || e == Template(q, b)
  }

  /** The plan leaves the content of this entry out although the build writes it. */
  predicate SkippedByPlan(e: Entry) {
    e.Directory? && e.check.Unreadable?
  }

  predicate Wrote(s: Step, p: Path, b: Bytes) {
    s.path == p && Content(s) == b
  }

  lemma {:induction false} ChildSyncsAre(sources: Sources, edition: string, root: Root, dir: Path, children: seq<Path>,
                                         p: Path, b: Bytes)
    ensures (exists s | s in ChildSyncs(sources, edition, root, dir, children) :: Wrote(s, p, b)) <==>
              (dir <= p && p[|dir|..] in children && (root, p) in sources && sources[(root, p)].bytes == b)
  {
    if children != [] {
      ChildSyncsAre(sources, edition, root, dir, children[1..], p, b);
      var head := FileSync(sources, edition, root, dir + children[0]);
      var rest := ChildSyncs(sources, edition, root, dir, children[1..]);
      assert (dir + children[0])[|dir|..] == children[0];
      assert dir <= p ==> p == dir + p[|dir|..];
      if exists s | s in head + rest :: Wrote(s, p, b) {
        var s :| s in head + rest && Wrote(s, p, b);
        assert s in head || s in rest;
      }
      if dir <= p && p[|dir|..] == children[0] && (root, p) in sources && sources[(root, p)].bytes == b {
        assert head[0] in head + rest && Wrote(head[0], p, b);
      }
    }
  }

  lemma {:induction false} ChildSyncsOnlySync(sources: Sources, edition: string, root: Root, dir: Path,
                                              children: seq<Path>, s: Step)
    requires s in ChildSyncs(sources, edition, root, dir, children)
    ensures s.Sync?
  {
    if s !in FileSync(sources, edition, root, dir + children[0]) {
      ChildSyncsOnlySync(sources, edition, root, dir, children[1..], s);
    }
  }

  lemma {:induction false} SyncsOnlySync(sources: Sources, es: seq<Entry>, synced: set<(Root, Path)>, s: Step)
    requires s in Syncs(sources, es, synced)
    ensures s.Sync?
  {
    var e := es[0];
    if e.Asset? && (e.root, e.path) in synced {
      SyncsOnlySync(sources, es[1..], synced, s);
    } else if s !in EntrySyncs(sources, e) {
      SyncsOnlySync(sources, es[1..], if e.Asset? then synced + {(e.root, e.path)} else synced, s);
    } else if e.Directory? {
      ChildSyncsOnlySync(sources, e.edition, e.root, e.path, e.children, s);
    }
  }

  lemma EntrySyncsAre(sources: Sources, e: Entry, p: Path, b: Bytes)
    ensures (exists s | s in EntrySyncs(sources, e) :: Wrote(s, p, b)) <==> Provides(sources, e, p, b)
  {
    match e {
      case Directory(edition, root, path, children, _) => ChildSyncsAre(sources, edition, root, path, children, p, b);
      case Artifact(edition, root, path, _) =>
        if Provides(sources, e, p, b) { assert Wrote(FileSync(sources, edition, root, path)[0], p, b); }
      case Asset(edition, root, path, _) =>
        if Provides(sources, e, p, b) { assert Wrote(FileSync(sources, edition, root, path)[0], p, b); }
      case _ =>
    }
  }

  /** The build synchronises exactly the files its entries provide. */
  lemma {:induction false} SyncsAre(sources: Sources, es: seq<Entry>, synced: set<(Root, Path)>, p: Path, b: Bytes)
    ensures (exists s | s in Syncs(sources, es, synced) :: Wrote(s, p, b)) ==>
              exists e | e in es :: Provides(sources, e, p, b)
    ensures (exists e | e in es :: Provides(sources, e, p, b) && !(e.Asset? && (e.root, e.path) in synced)) ==>
              exists s | s in Syncs(sources, es, synced) :: Wrote(s, p, b)
  {
    if es != [] {
      var e, rest := es[0], es[1..];
      var head := EntrySyncs(sources, e);
      EntrySyncsAre(sources, e, p, b);
      if e.Asset? && (e.root, e.path) in synced {
        SyncsAre(sources, rest, synced, p, b);
      } else {
        var synced' := if e.Asset? then synced + {(e.root, e.path)} else synced;
        SyncsAre(sources, rest, synced', p, b);
        var tail := Syncs(sources, rest, synced');
        assert Syncs(sources, es, synced) == head + tail;
        if exists s | s in head + tail :: Wrote(s, p, b) {
          var s :| s in head + tail && Wrote(s, p, b);
          assert s in head || s in tail;
        }
        if s :| s in head && Wrote(s, p, b) {
          assert s in head + tail;
        }
        if s :| s in tail && Wrote(s, p, b) {
          assert s in head + tail;
        }
        if f :| f in es && Provides(sources, f, p, b) && !(f.Asset? && (f.root, f.path) in synced) {
          if f in rest && f.Asset? && (f.root, f.path) in synced' {
            assert e.Asset? && e.root == f.root && e.path == f.path;
            assert Provides(sources, e, p, b);
          }
        }
      }
    }
  }

  lemma {:induction false} ChildRequestsAre(sources: Sources, edition: string, root: Root, dir: Path,
                                            children: seq<Path>, r: Request)
    ensures r in ChildRequests(sources, edition, root, dir, children) ==>
              !r.ConfigRequest? && !r.MetadataRequest? &&
              (r.FileRequest? ==> dir <= r.target && r.target[|dir|..] in children && (root, r.target) in sources &&
                                  sources[(root, r.target)].bytes == r.content)
    ensures r == FileOrMissing(sources, Rom, edition, root, r.target, Blank) && dir <= r.target
            && r.target[|dir|..] in children ==>
              r in ChildRequests(sources, edition, root, dir, children)
  {
    if children != [] {
      ChildRequestsAre(sources, edition, root, dir, children[1..], r);
      assert (dir + children[0])[|dir|..] == children[0];
      assert dir <= r.target ==> r.target == dir + r.target[|dir|..];
    }
  }

  /** File requests and files provided are the same thing, except for the entries the plan skips or refuses. */
  lemma EntryRequestsAre(sources: Sources, e: Entry, r: Request)
    ensures r in EntryRequests(sources, e) && r.FileRequest? ==> Provides(sources, e, r.target, r.content)
    ensures r in EntryRequests(sources, e) ==>
              !r.MetadataRequest? && (r.ConfigRequest? ==> e == Template(r.target, r.body))
  {
    if e.Directory? {
      ChildRequestsAre(sources, e.edition, e.root, e.path, e.children, r);
    }
  }

  lemma ProvidedIsRequested(sources: Sources, e: Entry, p: Path, b: Bytes)
    requires Provides(sources, e, p, b) && !SkippedByPlan(e)
    ensures exists r | r in EntryRequests(sources, e) ::
              r.RefusedRequest? || (r.FileRequest? && r.target == p && r.content == b)
  {
    if e.Directory? {
      var r := FileOrMissing(sources, Rom, e.edition, e.root, p, Blank);
      ChildRequestsAre(sources, e.edition, e.root, e.path, e.children, r);
      if e.check.Changed? {
        assert EntryRequests(sources, e)[0].RefusedRequest?;
      } else {
        assert r in EntryRequests(sources, e);
      }
    } else {
      assert EntryRequests(sources, e)[0].FileRequest?;
    }
  }

  lemma {:induction false} EntriesRequestsAre(sources: Sources, es: seq<Entry>, r: Request)
    ensures r in EntriesRequests(sources, es) <==> exists e | e in es :: r in EntryRequests(sources, e)
  {
    if es != [] {
      EntriesRequestsAre(sources, es[1..], r);
    }
  }

  lemma {:induction false} MetadataRequestsAre(paths: seq<Path>, r: Request)
    ensures r in MetadataRequests(paths) <==> r.MetadataRequest? && r.target in paths
  {
    if paths != [] {
      MetadataRequestsAre(paths[1..], r);
    }
  }

  lemma {:induction false} RendersAre(es: seq<Entry>, s: Step)
    ensures s in Renders(es) <==> s.Render? && Template(s.path, s.bytes) in es
  {
    if es != [] {
      RendersAre(es[1..], s);
    }
  }

  /** Every content the build writes is requested with the same content while
      planning, or comes from a directory the plan skipped. */
  lemma SyncIsRequested(p: Package, s: Step)
    requires s in Syncs(p.sources, p.entries, {})
    ensures (exists r | r in Requests(p) ::
               r.RefusedRequest? || (r.FileRequest? && r.target == s.path && r.content == Content(s))) ||
            (exists e | e in p.entries :: SkippedByPlan(e) && Provides(p.sources, e, s.path, Content(s)))
  {
    SyncsAre(p.sources, p.entries, {}, s.path, Content(s));
    assert Wrote(s, s.path, Content(s));
    var e :| e in p.entries && Provides(p.sources, e, s.path, Content(s));
    if !SkippedByPlan(e) {
      ProvidedIsRequested(p.sources, e, s.path, Content(s));
      var r :| r in EntryRequests(p.sources, e)
        && (r.RefusedRequest? || (r.FileRequest? && r.target == s.path && r.content == Content(s)));
      EntriesRequestsAre(p.sources, p.entries, r);
      assert r in Requests(p);
    }
  }

  lemma RenderIsRequested(p: Package, s: Step)
    requires s in Renders(p.entries)
    ensures ConfigRequest(s.path, Content(s)) in Requests(p)
  {
    RendersAre(p.entries, s);
    var e, r := Template(s.path, Content(s)), ConfigRequest(s.path, Content(s));
    EntriesRequestsAre(p.sources, p.entries, r);
    assert r in EntryRequests(p.sources, e);
  }

  lemma MetadataIsRequested(p: Package, path: Path)
    requires path in p.metadata
    ensures MetadataRequest(path) in Requests(p)
  {
    MetadataRequestsAre(p.metadata, MetadataRequest(path));
  }

  /** A requested file is synchronised, a requested configuration rendered. */
  lemma RequestIsWritten(p: Package, r: Request)
    requires r in Requests(p)
    ensures r.FileRequest? ==> exists s | s in Syncs(p.sources, p.entries, {}) :: Wrote(s, r.target, r.content)
    ensures r.ConfigRequest? ==> Render(r.target, r.body) in Renders(p.entries)
    ensures r.MetadataRequest? ==> r.target in p.metadata
  {
    MetadataRequestsAre(p.metadata, r);
    EntriesRequestsAre(p.sources, p.entries, r);
    if r in EntriesRequests(p.sources, p.entries) {
      var e :| e in p.entries && r in EntryRequests(p.sources, e);
      EntryRequestsAre(p.sources, e, r);
      if r.FileRequest? {
        SyncsAre(p.sources, p.entries, {}, r.target, r.content);
      } else if r.ConfigRequest? {
        RendersAre(p.entries, Render(r.target, r.body));
      }
    }
  }

  /*************** runs ***************/

  /** The content the last step at `p` writes. */
  function LastContent(steps: seq<Step>, p: Path): Option<Bytes> {
    if steps == [] then None
    else if steps[|steps| - 1].path == p then Some(Content(steps[|steps| - 1]))
    else LastContent(steps[..|steps| - 1], p)
  }

  lemma {:induction false} LastContentIsWritten(steps: seq<Step>, p: Path)
    ensures LastContent(steps, p).Some? <==> exists s | s in steps :: s.path == p
    ensures LastContent(steps, p).Some? ==> exists s | s in steps :: Wrote(s, p, LastContent(steps, p).value)
  {
    if steps != [] {
      var n := |steps| - 1;
      LastContentIsWritten(steps[..n], p);
      assert steps == steps[..n] + [steps[n]];
      assert steps[n].path == p ==> Wrote(steps[n], p, Content(steps[n]));
    }
  }

  /** After a run each path holds what was last written there, and everything else
      is as before: skipping an identical target changes nothing. */
  lemma {:induction false} AfterHolds(tree: Tree, mode: Mode, steps: seq<Step>, p: Path)
    ensures match LastContent(steps, p)
            case Some(b) => SameFile(After(tree, mode, steps), p, b)
            case None => (p in After(tree, mode, steps) <==> p in tree) &&
                         (p in tree ==> After(tree, mode, steps)[p] == tree[p])
  {
    if steps != [] {
      AfterHolds(tree, mode, steps[..|steps| - 1], p);
    }
  }

  /** Every synchronised file is counted once: as linked only by a hard-link build that can link
      it, as copied only if it cannot. */
  lemma {:induction false} CountsAre(tree: Tree, mode: Mode, steps: seq<Step>)
    ensures var tally := Counts(tree, mode, steps);
            && tally.copied + tally.linked + tally.kept == |Filter(steps, (s: Step) => s.Sync?)|
            && (mode != Hardlinking ==> tally.linked == 0)
            && (mode == Hardlinking && (forall s | s in steps && s.Sync? :: s.source.linkable) ==> tally.copied == 0)
            && ((forall s | s in steps && s.Sync? :: !s.source.linkable) ==> tally.linked == 0)
  {
    if steps != [] {
      var n := |steps| - 1;
      CountsAre(tree, mode, steps[..n]);
      assert steps == steps[..n] + [steps[n]];
    }
  }

  function Filter(steps: seq<Step>, keep: Step -> bool): seq<Step> {
    if steps == [] then []
    else Filter(steps[..|steps| - 1], keep) + if keep(steps[|steps| - 1]) then [steps[|steps| - 1]] else []
  }

  lemma {:induction false} RunKeepsWellFormed(tree: Tree, mode: Mode, steps: seq<Step>)
    requires WellFormed(tree) && Runs(tree, mode, steps)
    ensures WellFormed(After(tree, mode, steps))
  {
    if steps != [] {
      RunKeepsWellFormed(tree, mode, steps[..|steps| - 1]);
    }
  }
}
