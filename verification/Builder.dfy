/** The package builder: the writes a catalog causes, and what each of them does
    to the output tree (internal/bundler/bundler.go). */
module Builder {
  import opened Storage
  import opened Planner

  datatype Root = Library | ManagedROM | ManagedMedia

  /** A regular source file. `linkable` says whether a hard link to it can be made in the output. */
  datatype Source = Source(bytes: Bytes, mode: nat, linkable: bool)

  /** The regular files below the source roots; symbolic links and directories are absent. */
  type Sources = map<(Root, Path), Source>

  /** How a directory artifact compares with the digest in the catalog. `Unreadable`
      is the error of filehash.Directory, raised by any symbolic link inside. */
  datatype DirectoryCheck = NoFingerprint | Unreadable | Changed | Verified

  datatype Entry =
    | Artifact(edition: string, root: Root, path: Path, catalogSha: Digest)
    | Directory(edition: string, root: Root, path: Path, children: seq<Path>, check: DirectoryCheck)
    | Asset(edition: string, root: Root, path: Path, catalogSha: Digest)
    | Template(path: Path, body: Bytes)
    | RefusedLaunch(edition: string)

  /** A catalog as the bundler walks it, with the metadata paths of its frontend. */
  datatype Package = Package(sources: Sources, entries: seq<Entry>, metadata: seq<Path>)

  const MANIFEST: Path := ["package-manifest.json"]
  const LAUNCHES: Path := ["varkiv-launches.json"]

  /*************** what is planned ***************/

  function FileOrMissing(sources: Sources, kind: Kind, edition: string, root: Root, path: Path, sha: Digest): Request {
    if (root, path) in sources
    then FileRequest(kind, edition, path, sources[(root, path)].bytes, sha)
    else MissingRequest(kind, edition, path)
  }

  function ChildRequests(sources: Sources, edition: string, root: Root, dir: Path, children: seq<Path>): seq<Request> {
    if children == [] then []
    else [FileOrMissing(sources, Rom, edition, root, dir + children[0], Blank)] +
         ChildRequests(sources, edition, root, dir, children[1..])
  }

  function EntryRequests(sources: Sources, e: Entry): seq<Request> {
    match e
    case Artifact(edition, root, path, sha) => [FileOrMissing(sources, Rom, edition, root, path, sha)]
    case Asset(edition, root, path, sha) => [FileOrMissing(sources, Media, edition, root, path, sha)]
    case Directory(edition, root, path, children, check) =>
      (match check
       case Unreadable => [MissingRequest(Rom, edition, path)]
       case Changed => [RefusedRequest(Rom, edition, path)]
       case _ => ChildRequests(sources, edition, root, path, children))
    case Template(path, body) => [ConfigRequest(path, body)]
    case RefusedLaunch(edition) => [RefusedRequest(Launch, edition, LAUNCHES)]
  }

  function EntriesRequests(sources: Sources, es: seq<Entry>): seq<Request> {
    if es == [] then [] else EntryRequests(sources, es[0]) + EntriesRequests(sources, es[1..])
  }

  function MetadataRequests(paths: seq<Path>): seq<Request> {
    if paths == [] then [] else [MetadataRequest(paths[0])] + MetadataRequests(paths[1..])
  }

  function Requests(p: Package): seq<Request> {
    EntriesRequests(p.sources, p.entries) + MetadataRequests(p.metadata)
  }

  /*************** what is written ***************/

  datatype Step =
    | Sync(edition: string, path: Path, source: Source)
    | Export(path: Path, bytes: Bytes)
    | Render(path: Path, bytes: Bytes)
    | Publish(path: Path, bytes: Bytes)

  function Content(s: Step): Bytes {
    if s.Sync? then s.source.bytes else s.bytes
  }

  function FileSync(sources: Sources, edition: string, root: Root, path: Path): seq<Step> {
    if (root, path) in sources then [Sync(edition, path, sources[(root, path)])] else []
  }

  function ChildSyncs(sources: Sources, edition: string, root: Root, dir: Path, children: seq<Path>): seq<Step> {
    if children == [] then []
    else FileSync(sources, edition, root, dir + children[0]) + ChildSyncs(sources, edition, root, dir, children[1..])
  }

  /** A directory is walked here whatever its check said while planning. */
  function EntrySyncs(sources: Sources, e: Entry): seq<Step> {
    match e
    case Artifact(edition, root, path, _) => FileSync(sources, edition, root, path)
    case Asset(edition, root, path, _) => FileSync(sources, edition, root, path)
    case Directory(edition, root, path, children, _) => ChildSyncs(sources, edition, root, path, children)
    case _ => []
  }

  /** Every media file is synchronised once. */
  function Syncs(sources: Sources, es: seq<Entry>, synced: set<(Root, Path)>): seq<Step> {
    if es == [] then []
    else
      var e := es[0];
      if e.Asset? then
        if (e.root, e.path) in synced then Syncs(sources, es[1..], synced)
        else EntrySyncs(sources, e) + Syncs(sources, es[1..], synced + {(e.root, e.path)})
      else EntrySyncs(sources, e) + Syncs(sources, es[1..], synced)
  }

  function Renders(es: seq<Entry>): seq<Step> {
    if es == [] then []
    else (if es[0].Template? then [Render(es[0].path, es[0].body)] else []) + Renders(es[1..])
  }

  /** What a frontend exporter writes: some of the planned metadata paths. */
  ghost predicate ExportsMetadata(exports: seq<Step>, p: Package) {
    && MANIFEST in p.metadata
    && forall s | s in exports :: s.Export? && s.path in p.metadata && s.path != MANIFEST
  }

  /** The whole build: files, frontend metadata, configuration, ledger. A reference
      package synchronises no file. */
  function BuildSteps(p: Package, mode: Mode, exports: seq<Step>, manifest: Bytes): seq<Step> {
    (if mode.Referencing? then [] else Syncs(p.sources, p.entries, {})) + exports + Renders(p.entries)
    + [Publish(MANIFEST, manifest)]
  }

  const PRIVATE: nat := 384 // 0o600, the mode of a temporary file that was renamed into place
  const PUBLIC: nat := 420  // 0o644

  /** The file a successful step leaves at its path. */
  function Written(tree: Tree, mode: Mode, s: Step): File {
    match s
    case Sync(_, _, source) =>
      if mode.Hardlinking? && source.linkable then File(source.bytes, source.mode) else File(source.bytes, PRIVATE)
    case Export(path, bytes) => File(bytes, if path in tree then tree[path].mode else PUBLIC)
    case Render(_, bytes) => File(bytes, PRIVATE)
    case Publish(_, bytes) => File(bytes, PRIVATE)
  }

  /** syncOne leaves a target alone that already has the content. */
  predicate Skips(tree: Tree, s: Step) {
    s.Sync? && SameFile(tree, s.path, s.source.bytes)
  }

  predicate Runnable(tree: Tree, s: Step) {
    Skips(tree, s) || Writable(tree, s.path)
  }

  function Apply(tree: Tree, mode: Mode, s: Step): Tree {
    if Skips(tree, s) then tree else tree[s.path := Written(tree, mode, s)]
  }

  /** All of `steps` succeed from `tree`. */
  predicate Runs(tree: Tree, mode: Mode, steps: seq<Step>) {
    steps == [] ||
    (Runs(tree, mode, steps[..|steps| - 1]) && Runnable(After(tree, mode, steps[..|steps| - 1]), steps[|steps| - 1]))
  }

  function After(tree: Tree, mode: Mode, steps: seq<Step>): Tree {
    if steps == [] then tree
    else Apply(After(tree, mode, steps[..|steps| - 1]), mode, steps[|steps| - 1])
  }

  datatype Tally = Tally(copied: nat, linked: nat, kept: nat)

  function Count(t: Tally, tree: Tree, mode: Mode, s: Step): Tally {
    if !s.Sync? then t
    else if Skips(tree, s) then t.(kept := t.kept + 1)
    else if mode.Hardlinking? && s.source.linkable then t.(linked := t.linked + 1)
    else t.(copied := t.copied + 1)
  }

  function Counts(tree: Tree, mode: Mode, steps: seq<Step>): Tally {
    if steps == [] then Tally(0, 0, 0)
    else
      var n := |steps| - 1;
      Count(Counts(tree, mode, steps[..n]), After(tree, mode, steps[..n]), mode, steps[n])
  }
}
