/** Installing a downloaded save over the local one, with every file operation
    free to fail, to stop halfway or to copy wrongly.

    The operations the agent is given (copyFile, installDirectory, rename,
    replaceFile, removeAll) act on a volume; a `Fate` says what each call does this
    time. The volume also remembers every state it went through. */
module SaveInstall {
  import opened Wrappers
  import opened Storage

  /** The bytes of every regular file. */
  type Disk = map<Path, Bytes>

  datatype ListedFile = ListedFile(logical: Path, path: Path, checksum: Digest, size: nat)

  /** What a content hash covers of a file; the hash stands for the set of these rows. */
  datatype FileRow = FileRow(logical: Path, checksum: Digest, size: nat)

  function Rows(files: seq<ListedFile>): seq<FileRow> {
    seq(|files|, i requires 0 <= i < |files| => FileRow(files[i].logical, files[i].checksum, files[i].size))
  }

  function At(disk: Disk, p: Path): Option<Bytes> {
    if p in disk then Some(disk[p]) else None
  }

  /** Nothing exists at `base` or below. */
  predicate Vacant(disk: Disk, base: Path) {
    forall p | p in disk :: !Within(base, p)
  }

  function Parent(p: Path): Path {
    if p == [] then [] else p[..|p| - 1]
  }

  /*************** trees below a path ***************/

  function Prune(disk: Disk, base: Path): Disk {
    map p | p in disk && !Within(base, p) :: disk[p]
  }

  /** The paths below `base`, relative to it. */
  function Below(disk: Disk, base: Path): (rs: set<Path>)
    ensures forall r | r in rs :: base + r in disk
  {
    assert forall p | p in disk && Within(base, p) :: base + p[|base|..] == p;
    set p | p in disk && Within(base, p) :: p[|base|..]
  }

  function Subtree(disk: Disk, base: Path): Disk {
    map r | r in Below(disk, base) :: disk[base + r]
  }

  function Placed(base: Path, tree: Disk): (ps: set<Path>)
    ensures forall p | p in ps :: Within(base, p) && p[|base|..] in tree
  {
    assert forall r: Path | r in tree :: (base + r)[|base|..] == r;
    set r | r in tree :: base + r
  }

  /** `tree` takes the place of everything at `base`. */
  function Graft(disk: Disk, base: Path, tree: Disk): Disk {
    Prune(disk, base) + map p | p in Placed(base, tree) :: tree[p[|base|..]]
  }

  function Move(disk: Disk, source: Path, target: Path): Disk {
    Graft(Prune(disk, source), target, Subtree(disk, source))
  }

  lemma GraftAt(disk: Disk, base: Path, tree: Disk, p: Path)
    ensures At(Graft(disk, base, tree), p) == if Within(base, p) then At(tree, p[|base|..]) else At(disk, p)
  {
    if Within(base, p) {
      assert base + p[|base|..] == p;
    }
  }

  lemma SubtreeAt(disk: Disk, base: Path, r: Path)
    ensures At(Subtree(disk, base), r) == At(disk, base + r)
  {
    if base + r in disk {
      assert (base + r)[|base|..] == r;
    }
  }

  /** What a rename does: the source's tree now stands at the target. */
  ghost predicate Moved(before: Disk, after: Disk, source: Path, target: Path) {
    forall p :: At(after, p) ==
                if Within(target, p) then At(before, source + p[|target|..])
                else if Within(source, p) then None else At(before, p)
  }

  lemma MoveMoves(disk: Disk, source: Path, target: Path)
    ensures Moved(disk, Move(disk, source, target), source, target)
  {
    forall p ensures At(Move(disk, source, target), p) ==
                     if Within(target, p) then At(disk, source + p[|target|..])
                     else if Within(source, p) then None else At(disk, p)
    {
      GraftAt(Prune(disk, source), target, Subtree(disk, source), p);
      if Within(target, p) {
        SubtreeAt(disk, source, p[|target|..]);
      }
    }
  }

  /*************** what a call may do ***************/

  /** Nothing outside `base` changes. */
  ghost predicate Confined(before: Disk, after: Disk, base: Path) {
    forall p | !Within(base, p) :: At(after, p) == At(before, p)
  }

  /** Nothing outside the three paths changes. */
  ghost predicate ConfinedTo(before: Disk, after: Disk, a: Path, b: Path, c: Path) {
    forall p | !Within(a, p) && !Within(b, p) && !Within(c, p) :: At(after, p) == At(before, p)
  }

  /** ... in any of these states. */
  ghost predicate AllConfinedTo(before: Disk, states: seq<Disk>, a: Path, b: Path, c: Path) {
    forall k | 0 <= k < |states| :: ConfinedTo(before, states[k], a, b, c)
  }

  /** At one of these moments nothing is at `base`. */
  ghost predicate SometimesVacant(states: seq<Disk>, base: Path) {
    exists k :: 0 <= k < |states| && Vacant(states[k], base)
  }

  /** `after` at its place holds, byte for byte, what `base` held in `old`. */
  ghost predicate Holds(after: Disk, place: Path, before: Disk, base: Path) {
    forall r: Path :: At(after, place + r) == At(before, base + r)
  }

  predicate Matches(content: Option<Bytes>, f: ListedFile) {
    content.Some? && Sha256(content.value) == f.checksum && |content.value| == f.size
  }

  function Candidate(base: Path, f: ListedFile, singleFile: bool): Path {
    if singleFile then base else base + f.logical
  }

  /** Every listed file is there with its checksum and size. */
  ghost predicate HoldsAll(disk: Disk, base: Path, files: seq<ListedFile>, singleFile: bool) {
    forall i | 0 <= i < |files| :: Matches(At(disk, Candidate(base, files[i], singleFile)), files[i])
  }

  function Listed(files: seq<ListedFile>, singleFile: bool): set<Path> {
    set i | 0 <= i < |files| :: Candidate([], files[i], singleFile)
  }

  ghost predicate OnlyListed(disk: Disk, base: Path, files: seq<ListedFile>, singleFile: bool) {
    forall r: Path | base + r in disk :: r in Listed(files, singleFile)
  }

  /** The tree at `base` is exactly the listed files. */
  ghost predicate HoldsExactly(disk: Disk, base: Path, files: seq<ListedFile>, singleFile: bool) {
    HoldsAll(disk, base, files, singleFile) && OnlyListed(disk, base, files, singleFile)
  }

  /** How a copying operation ends, and what it leaves at its destination. */
  datatype Copying = Copying(ok: bool, left: Disk)

  /** What a copy leaves: when it succeeds, listed paths only. */
  function Left(fate: Copying, files: seq<ListedFile>, singleFile: bool): Disk {
    if fate.ok then map r | r in fate.left && r in Listed(files, singleFile) :: fate.left[r] else fate.left
  }

  /** The copy succeeds and every listed file has its checksum and size. */
  ghost predicate Faithful(fate: Copying, files: seq<ListedFile>, singleFile: bool) {
    fate.ok && HoldsAll(Left(fate, files, singleFile), [], files, singleFile)
  }

  /** What every step does this time. */
  datatype Fate = Fate(
    backupRoot: bool, backupKey: Option<string>, backup: Copying,
    parent: bool, stageKey: Option<string>, stage: Copying,
    install: bool, replace: bool,
    previousKey: Option<string>, setAside: bool, restore: bool,
    previousLeft: set<Path>, stageLeft: set<Path>)

  datatype Outcome = Installed | Failed | Stranded

  const INSTALL_PREFIX := ".varkiv-install-"
  const PREVIOUS_PREFIX := ".varkiv-previous-"

  function BackupPath(root: Path, stream: string, session: string, key: string): Path {
    root + [".varkiv", "backups", stream, session + "-" + key]
  }

  function PreviousPath(target: Path, key: string): Path {
    Parent(target) + [PREVIOUS_PREFIX + key]
  }

  function StagePath(target: Path, key: string): Path {
    Parent(target) + [INSTALL_PREFIX + key]
  }

  lemma MoveConfined(before: Disk, after: Disk, source: Path, target: Path)
    requires Moved(before, after, source, target)
    ensures forall p | !Within(source, p) && !Within(target, p) :: At(after, p) == At(before, p)
  {
  }

  /** A rename carries the whole tree over. */
  lemma MoveHolds(before: Disk, after: Disk, source: Path, target: Path)
    requires Moved(before, after, source, target)
    ensures Holds(after, target, before, source)
  {
    forall r: Path ensures At(after, target + r) == At(before, source + r) {
      assert (target + r)[|target|..] == r;
    }
  }

  lemma MovedAway(before: Disk, after: Disk, source: Path, target: Path)
    requires Moved(before, after, source, target) && !Within(source, target) && !Within(target, source)
    ensures Vacant(after, source)
  {
    forall p | p in after ensures !Within(source, p) {
      assert At(after, p).Some?;
      if Within(source, p) && Within(target, p) { PrefixesCompare(source, target, p); }
    }
  }

  /** ... and leaves other trees alone. */
  lemma MoveSpares(before: Disk, after: Disk, source: Path, target: Path, other: Path)
    requires Moved(before, after, source, target)
    requires !Within(source, other) && !Within(other, source) && !Within(target, other) && !Within(other, target)
    ensures Holds(after, other, before, other)
  {
    forall r: Path ensures At(after, other + r) == At(before, other + r) {
      assert Within(other, other + r);
      if Within(source, other + r) { PrefixesCompare(source, other, other + r); }
      if Within(target, other + r) { PrefixesCompare(target, other, other + r); }
    }
  }

  lemma ConfinedSpares(before: Disk, after: Disk, base: Path, other: Path)
    requires Confined(before, after, base) && !Within(base, other) && !Within(other, base)
    ensures Holds(after, other, before, other)
  {
    forall r: Path ensures At(after, other + r) == At(before, other + r) {
      assert Within(other, other + r);
      if Within(base, other + r) { PrefixesCompare(base, other, other + r); }
    }
  }

  lemma HoldsChain(c: Disk, r: Path, b: Disk, q: Path, a: Disk, p: Path)
    requires Holds(c, r, b, q) && Holds(b, q, a, p)
    ensures Holds(c, r, a, p)
  {
  }

  lemma HoldsExactlyMoves(after: Disk, place: Path, before: Disk, base: Path, files: seq<ListedFile>, singleFile: bool)
    requires Holds(after, place, before, base) && HoldsExactly(before, base, files, singleFile)
    ensures HoldsExactly(after, place, files, singleFile)
  {
    forall i | 0 <= i < |files| ensures Matches(At(after, Candidate(place, files[i], singleFile)), files[i]) {
      var r := if singleFile then [] else files[i].logical;
      assert Candidate(place, files[i], singleFile) == place + r && Candidate(base, files[i], singleFile) == base + r;
    }
    forall r: Path | place + r in after ensures r in Listed(files, singleFile) {
      assert At(after, place + r) == At(before, base + r);
    }
  }

  /** After the old tree was renamed away. */
  lemma SetAside(d0: Disk, d1: Disk, staged: Path, target: Path, previous: Path)
    requires Moved(d0, d1, target, previous)
    requires !Within(staged, target) && !Within(target, staged)
    requires !Within(staged, previous) && !Within(previous, staged)
    requires !Within(target, previous) && !Within(previous, target)
    ensures Vacant(d1, target) && Holds(d1, previous, d0, target) && Holds(d1, staged, d0, staged)
    ensures ConfinedTo(d0, d1, staged, target, previous)
  {
    MoveConfined(d0, d1, target, previous);
    MoveHolds(d0, d1, target, previous);
    MoveSpares(d0, d1, target, previous, staged);
    MovedAway(d0, d1, target, previous);
  }

  /** After the new tree was renamed in and the old one removed, perhaps in part. */
  lemma SwapInstalled(d0: Disk, d1: Disk, d2: Disk, d3: Disk, staged: Path, target: Path, previous: Path)
    requires !Within(target, previous) && !Within(previous, target)
    requires Holds(d1, staged, d0, staged) && ConfinedTo(d0, d1, staged, target, previous)
    requires Moved(d1, d2, staged, target) && Confined(d2, d3, previous)
    ensures Holds(d3, target, d0, staged)
    ensures ConfinedTo(d0, d2, staged, target, previous) && ConfinedTo(d0, d3, staged, target, previous)
  {
    MoveConfined(d1, d2, staged, target);
    MoveHolds(d1, d2, staged, target);
    HoldsChain(d2, target, d1, staged, d0, staged);
    ConfinedSpares(d2, d3, previous, target);
    HoldsChain(d3, target, d2, target, d0, staged);
  }

  /** After the old tree was renamed back. */
  lemma SwapRestored(d0: Disk, d1: Disk, d2: Disk, staged: Path, target: Path, previous: Path)
    requires Holds(d1, previous, d0, target) && ConfinedTo(d0, d1, staged, target, previous)
    requires Moved(d1, d2, previous, target)
    ensures Holds(d2, target, d0, target) && ConfinedTo(d0, d2, staged, target, previous)
  {
    MoveConfined(d1, d2, previous, target);
    MoveHolds(d1, d2, previous, target);
    HoldsChain(d2, target, d1, previous, d0, target);
  }

  /** No listed file of the backup lies below `base`. */
  ghost predicate Clear(base: Path, backup: Path, files: seq<ListedFile>) {
    forall i | 0 <= i < |files| :: !Within(base, backup + files[i].logical)
  }

  lemma VacantIsClear(disk: Disk, base: Path, backup: Path, files: seq<ListedFile>)
    requires HoldsAll(disk, backup, files, false) && Vacant(disk, base)
    ensures Clear(base, backup, files)
  {
    forall i | 0 <= i < |files| ensures !Within(base, backup + files[i].logical) {
      assert Candidate(backup, files[i], false) == backup + files[i].logical;
      assert At(disk, backup + files[i].logical).Some?;
    }
  }

  lemma ApartIsClear(base: Path, backup: Path, files: seq<ListedFile>)
    requires !Within(base, backup) && !Within(backup, base)
    ensures Clear(base, backup, files)
  {
    forall i | 0 <= i < |files| ensures !Within(base, backup + files[i].logical) {
      assert Within(backup, backup + files[i].logical);
      if Within(base, backup + files[i].logical) { PrefixesCompare(base, backup, backup + files[i].logical); }
    }
  }

  /** Changes clear of the backup keep it verified. */
  lemma BackupSurvives(before: Disk, after: Disk, a: Path, b: Path, c: Path, backup: Path, files: seq<ListedFile>)
    requires HoldsAll(before, backup, files, false) && ConfinedTo(before, after, a, b, c)
    requires Clear(a, backup, files) && Clear(b, backup, files) && Clear(c, backup, files)
    ensures HoldsAll(after, backup, files, false)
  {
    forall i | 0 <= i < |files| ensures Matches(At(after, Candidate(backup, files[i], false)), files[i]) {
      assert Candidate(backup, files[i], false) == backup + files[i].logical;
    }
  }

  /** Everything `before` held below `base` is still at `place`. */
  ghost predicate Preserves(after: Disk, place: Path, before: Disk, base: Path) {
    forall r: Path | base + r in before :: At(after, place + r) == At(before, base + r)
  }

  lemma PreservesChain(c: Disk, r: Path, b: Disk, q: Path, a: Disk, p: Path)
    requires Preserves(c, r, b, q) && Preserves(b, q, a, p)
    ensures Preserves(c, r, a, p)
  {
    forall x: Path | p + x in a ensures At(c, r + x) == At(a, p + x) {
      assert At(b, q + x).Some?;
    }
  }

  lemma HoldsPreserves(b: Disk, q: Path, a: Disk, p: Path)
    requires Holds(b, q, a, p)
    ensures Preserves(b, q, a, p)
  {
  }

  /** The two temporary names never meet. */
  lemma TemporaryNamesDiffer(a: string, b: string)
    ensures INSTALL_PREFIX + a != PREVIOUS_PREFIX + b
  {
    assert (INSTALL_PREFIX + a)[8] == 'i' && (PREVIOUS_PREFIX + b)[8] == 'p';
  }

  lemma SiblingsApart(target: Path, a: string, b: string)
    ensures !Within(StagePath(target, a), PreviousPath(target, b))
            && !Within(PreviousPath(target, b), StagePath(target, a))
    ensures !Within(StagePath(target, a) + ["payload"], PreviousPath(target, b))
            && !Within(PreviousPath(target, b), StagePath(target, a) + ["payload"])
  {
    TemporaryNamesDiffer(a, b);
    var n := |Parent(target)|;
    assert StagePath(target, a)[n] == INSTALL_PREFIX + a && PreviousPath(target, b)[n] == PREVIOUS_PREFIX + b;
    assert (StagePath(target, a) + ["payload"])[n] == INSTALL_PREFIX + a;
  }

  /** A fresh staging directory beside a target is apart from it. */
  lemma StageApart(target: Path, stageRoot: Path, key: string)
    requires stageRoot == StagePath(target, key) && target != [] && target != stageRoot
    ensures !Within(stageRoot, target) && !Within(target, stageRoot)
    ensures !Within(stageRoot + ["payload"], target) && !Within(target, stageRoot + ["payload"])
  {
    assert |target| == |stageRoot|;
    assert (stageRoot + ["payload"])[..|target|] == stageRoot;
  }

  /** ... and so is one a rename into the target worked for. */
  lemma InstalledApart(target: Path, stageRoot: Path, key: string)
    requires stageRoot == StagePath(target, key)
    requires !Within(stageRoot + ["payload"], target) && !Within(target, stageRoot + ["payload"])
    ensures target != [] && target != stageRoot
  {
    assert (stageRoot + ["payload"])[..|stageRoot|] == stageRoot;
    assert Within(stageRoot, stageRoot + ["payload"]);
  }

  /** The staged copy is apart from an existing target and from the recovery directory. */
  lemma PayloadApart(d1: Disk, target: Path, stageRoot: Path, fate: Fate)
    requires fate.stageKey.Some? && stageRoot == StagePath(target, fate.stageKey.value) && Vacant(d1, stageRoot)
    ensures var staged := stageRoot + ["payload"];
      && (!Vacant(d1, target) ==> target == [] || (!Within(staged, target) && !Within(target, staged)))
      && (fate.previousKey.Some? ==> !Within(staged, PreviousPath(target, fate.previousKey.value))
                                     && !Within(PreviousPath(target, fate.previousKey.value), staged))
  {
    if target != [] && target != stageRoot {
      StageApart(target, stageRoot, fate.stageKey.value);
    }
    if fate.previousKey.Some? {
      SiblingsApart(target, fate.stageKey.value, fate.previousKey.value);
    }
  }

  /** Every state between staging and clean-up differs only where it may. */
  lemma StagedRun(d1: Disk, d2: Disk, d3: Disk, inner: seq<Disk>, d4: Disk, stageRoot: Path, target: Path, went: Path,
                  place: Path)
    requires Confined(d1, d2, stageRoot + ["payload"]) && Confined(d3, d4, stageRoot)
    requires AllConfinedTo(d2, inner, stageRoot + ["payload"], target, went)
    requires ConfinedTo(d2, d3, stageRoot + ["payload"], target, went)
    requires went == place || (went == stageRoot + ["payload"] && place == stageRoot)
    ensures AllConfinedTo(d1, [d2] + inner + [d4], stageRoot, target, place)
    ensures Confined(d1, d2, stageRoot)
    ensures SometimesVacant(inner, target) ==> SometimesVacant([d2] + inner + [d4], target)
  {
    if SometimesVacant(inner, target) {
      var k :| 0 <= k < |inner| && Vacant(inner[k], target);
      assert ([d2] + inner + [d4])[k + 1] == inner[k];
    }
    assert forall p: Path | Within(stageRoot + ["payload"], p) :: Within(stageRoot, p) by {
      forall p: Path | Within(stageRoot + ["payload"], p) ensures Within(stageRoot, p) {
        assert p[..|stageRoot|] == (stageRoot + ["payload"])[..|stageRoot|] == stageRoot;
      }
    }
  }

  /** A failed install still holds every old file. */
  lemma FailedPreserves(d1: Disk, d2: Disk, d3: Disk, d4: Disk, stageRoot: Path, target: Path, key: string)
    requires stageRoot == StagePath(target, key)
    requires Vacant(d1, stageRoot) && Confined(d1, d2, stageRoot) && Confined(d3, d4, stageRoot)
    requires Holds(d3, target, d2, target)
    ensures Preserves(d4, target, d1, target)
    ensures target != [] && target != stageRoot ==> Holds(d4, target, d1, target)
  {
    forall r: Path | target + r in d1 ensures At(d4, target + r) == At(d1, target + r) {
      assert At(d3, target + r) == At(d2, target + r);
    }
    if target != [] && target != stageRoot {
      StageApart(target, stageRoot, key);
      ConfinedSpares(d1, d2, stageRoot, target);
      ConfinedSpares(d3, d4, stageRoot, target);
      HoldsChain(d3, target, d2, target, d1, target);
      HoldsChain(d4, target, d3, target, d1, target);
    }
  }

  lemma StaysVacant(d3: Disk, d4: Disk, stageRoot: Path, target: Path)
    requires Confined(d3, d4, stageRoot) && Vacant(d3, target)
    requires !Within(stageRoot, target) && !Within(target, stageRoot)
    ensures Vacant(d4, target)
  {
    ConfinedSpares(d3, d4, stageRoot, target);
    forall p: Path | Within(target, p) ensures p !in d4 {
      assert target + p[|target|..] == p;
      assert At(d4, target + p[|target|..]) == At(d3, target + p[|target|..]);
    }
  }

  /** A stranded install holds the old tree in the recovery directory. */
  lemma StrandedHolds(d1: Disk, d2: Disk, d3: Disk, d4: Disk, stageRoot: Path, target: Path, place: Path, fate: Fate)
    requires fate.stageKey.Some? && stageRoot == StagePath(target, fate.stageKey.value)
    requires fate.previousKey.Some? && place == PreviousPath(target, fate.previousKey.value)
    requires target != [] && target != stageRoot
    requires Confined(d1, d2, stageRoot) && Confined(d3, d4, stageRoot)
    requires Holds(d3, place, d2, target) && Vacant(d3, target)
    ensures Holds(d4, place, d1, target) && Vacant(d4, target)
  {
    StageApart(target, stageRoot, fate.stageKey.value);
    SiblingsApart(target, fate.stageKey.value, fate.previousKey.value);
    ConfinedSpares(d1, d2, stageRoot, target);
    ConfinedSpares(d3, d4, stageRoot, place);
    HoldsChain(d3, place, d2, target, d1, target);
    HoldsChain(d4, place, d3, place, d1, target);
    StaysVacant(d3, d4, stageRoot, target);
  }

  /** An installed save is exactly the staged one. */
  lemma InstalledHolds(d2: Disk, d3: Disk, d4: Disk, stageRoot: Path, target: Path, files: seq<ListedFile>,
                       singleFile: bool, key: string)
    requires stageRoot == StagePath(target, key)
    requires !Within(stageRoot + ["payload"], target) && !Within(target, stageRoot + ["payload"])
    requires HoldsExactly(d2, stageRoot + ["payload"], files, singleFile)
    requires Holds(d3, target, d2, stageRoot + ["payload"]) && Confined(d3, d4, stageRoot)
    ensures HoldsExactly(d4, target, files, singleFile)
  {
    InstalledApart(target, stageRoot, key);
    StageApart(target, stageRoot, key);
    ConfinedSpares(d3, d4, stageRoot, target);
    HoldsChain(d4, target, d3, target, d2, stageRoot + ["payload"]);
    HoldsExactlyMoves(d4, target, d2, stageRoot + ["payload"], files, singleFile);
  }

  /** What the three endings mean once the staging directory is gone. */
  lemma Concluded(r: Outcome, aside: bool, d1: Disk, d2: Disk, d3: Disk, d4: Disk, stageRoot: Path, target: Path,
                  place: Path,
                  files: seq<ListedFile>, singleFile: bool, fate: Fate)
    requires fate.stageKey.Some? && stageRoot == StagePath(target, fate.stageKey.value) && Vacant(d1, stageRoot)
    requires Confined(d1, d2, stageRoot) && Confined(d3, d4, stageRoot)
    requires aside ==>
               fate.previousKey.Some? && place == PreviousPath(target, fate.previousKey.value) && target != []
                 && !Vacant(d1, target)
    requires r.Failed? ==> Holds(d3, target, d2, target)
    requires r.Stranded? ==> aside && Holds(d3, place, d2, target) && Vacant(d3, target)
    requires r.Installed? ==>
               HoldsExactly(d2, stageRoot + ["payload"], files, singleFile)
                 && Holds(d3, target, d2, stageRoot + ["payload"])
    requires r.Installed? ==> !Within(stageRoot + ["payload"], target) && !Within(target, stageRoot + ["payload"])
    ensures r.Installed? ==> HoldsExactly(d4, target, files, singleFile)
    ensures r.Failed? ==> Preserves(d4, target, d1, target)
    ensures r.Failed? && target != [] && target != stageRoot ==> Holds(d4, target, d1, target)
    ensures r.Stranded? ==> Holds(d4, place, d1, target) && Vacant(d4, target)
  {
    match r
    case Failed => FailedPreserves(d1, d2, d3, d4, stageRoot, target, fate.stageKey.value);
    case Stranded => StrandedHolds(d1, d2, d3, d4, stageRoot, target, place, fate);
    case Installed => InstalledHolds(d2, d3, d4, stageRoot, target, files, singleFile, fate.stageKey.value);
  }

  /** Staging does not empty the recovery directory's name. */
  lemma WasVacant(d1: Disk, d2: Disk, stageRoot: Path, target: Path, place: Path, fate: Fate)
    requires fate.stageKey.Some? && stageRoot == StagePath(target, fate.stageKey.value)
    requires fate.previousKey.Some? && place == PreviousPath(target, fate.previousKey.value)
    requires Confined(d1, d2, stageRoot) && Vacant(d2, place)
    ensures Vacant(d1, place)
  {
    SiblingsApart(target, fate.stageKey.value, fate.previousKey.value);
    ConfinedSpares(d1, d2, stageRoot, place);
    forall p: Path | Within(place, p) ensures p !in d1 {
      assert place + p[|place|..] == p;
      assert At(d2, place + p[|place|..]) == At(d1, place + p[|place|..]);
    }
  }

  /** A verified copy of the old save is at `backup` in every one of these states. */
  ghost predicate KeptThroughout(states: seq<Disk>, backup: Path, files: seq<ListedFile>) {
    forall k | 0 <= k < |states| :: HoldsAll(states[k], backup, files, false)
  }

  /** A backup outside the target is never touched again. */
  lemma BackupIsKept(d1: Disk, states: seq<Disk>, stageRoot: Path, target: Path, place: Path, backup: Path,
                     files: seq<ListedFile>)
    requires HoldsAll(d1, backup, files, false) && AllConfinedTo(d1, states, stageRoot, target, place)
    requires Vacant(d1, stageRoot) && Vacant(d1, place)
    requires !Within(target, backup) && !Within(backup, target)
    ensures KeptThroughout([d1] + states, backup, files)
  {
    VacantIsClear(d1, stageRoot, backup, files);
    VacantIsClear(d1, place, backup, files);
    ApartIsClear(target, backup, files);
    forall k | 0 <= k < |states| ensures HoldsAll(states[k], backup, files, false) {
      BackupSurvives(d1, states[k], stageRoot, target, place, backup, files);
    }
  }

  /** A backup inside the target leaves its place together with the old tree. */
  lemma BackupMovesAway(d1: Disk, states: seq<Disk>, target: Path, backup: Path, files: seq<ListedFile>)
    requires SometimesVacant(states, target) && Within(target, backup) && files != []
    ensures !KeptThroughout([d1] + states, backup, files)
  {
    var k :| 0 <= k < |states| && Vacant(states[k], target);
    assert Candidate(backup, files[0], false) == backup + files[0].logical;
    assert Within(target, backup + files[0].logical) by {
      assert (backup + files[0].logical)[..|target|] == backup[..|target|] == target;
    }
    assert !HoldsAll(states[k], backup, files, false);
    assert ([d1] + states)[k + 1] == states[k];
  }

  /** Writing the backup beside the target leaves the target as it was. */
  lemma BackupSpares(d0: Disk, d1: Disk, backup: Path, target: Path)
    requires Confined(d0, d1, backup) && (Vacant(d0, backup) || d1 == d0) && !Vacant(d0, target)
    ensures Preserves(d1, target, d0, target) && !Vacant(d1, target)
    ensures Vacant(d0, backup) ==> !Within(backup, target)
    ensures !Within(target, backup) ==> Holds(d1, target, d0, target)
  {
    var p :| p in d0 && Within(target, p);
    if Vacant(d0, backup) {
      assert At(d1, p) == At(d0, p);
      if !Within(target, backup) {
        ConfinedSpares(d0, d1, backup, target);
      }
    }
  }

  /** What a failed or stranded install keeps, counted from before the backup. */
  lemma KeepsOld(d0: Disk, d1: Disk, d4: Disk, target: Path, place: Path)
    requires Preserves(d1, target, d0, target)
    ensures Preserves(d4, place, d1, target) ==> Preserves(d4, place, d0, target)
    ensures Holds(d4, place, d1, target) ==> Preserves(d4, place, d0, target)
    ensures Holds(d4, place, d1, target) && Holds(d1, target, d0, target) ==> Holds(d4, place, d0, target)
  {
    if Holds(d4, place, d1, target) {
      HoldsPreserves(d4, place, d1, target);
    }
    if Preserves(d4, place, d1, target) {
      PreservesChain(d4, place, d1, target, d0, target);
    }
    if Holds(d4, place, d1, target) && Holds(d1, target, d0, target) {
      HoldsChain(d4, place, d1, target, d0, target);
    }
  }

  /** The promises about the old data and its backup, once everything has run. */
  lemma Concludes(r: Outcome, aside: bool, d0: Disk, d1: Disk, d4: Disk, states: seq<Disk>, stageRoot: Path,
                  target: Path, place: Path,
                  backup: Path, current: seq<ListedFile>, targetExists: bool)
    requires Preserves(d1, target, d0, target) && (!Within(target, backup) ==> Holds(d1, target, d0, target))
    requires targetExists ==> HoldsAll(d1, backup, current, false) && !Within(backup, target)
    requires AllConfinedTo(d1, states, stageRoot, target, place) && Vacant(d1, stageRoot) && Vacant(d1, place)
    requires r.Failed? ==> Preserves(d4, target, d1, target)
    requires r.Stranded? ==> Holds(d4, place, d1, target)
    requires aside ==> SometimesVacant(states, target)
    ensures r.Failed? ==> Preserves(d4, target, d0, target)
    ensures !Within(target, backup) && Holds(d4, target, d1, target) ==> Holds(d4, target, d0, target)
    ensures r.Stranded? ==> Preserves(d4, place, d0, target)
    ensures r.Stranded? && !Within(target, backup) ==> Holds(d4, place, d0, target)
    ensures targetExists && !Within(target, backup) ==> KeptThroughout([d1] + states, backup, current)
    ensures targetExists && aside && current != [] && Within(target, backup) ==>
              !KeptThroughout([d1] + states, backup, current)
  {
    KeepsOld(d0, d1, d4, target, target);
    KeepsOld(d0, d1, d4, target, place);
    if targetExists && !Within(target, backup) {
      BackupIsKept(d1, states, stageRoot, target, place, backup, current);
    }
    if targetExists && aside && current != [] && Within(target, backup) {
      BackupMovesAway(d1, states, target, backup, current);
    }
  }

  lemma SourceIsOld(before: Disk, target: Path, source: Path, created: set<Path>)
    requires !Within(target, source) && forall p | p in created :: Within(target, p)
    ensures source !in created
  {
  }

  /** A file can be created here. */
  predicate Free(disk: Disk, p: Path) {
    p !in disk && forall q | q in disk :: !(q < p) && !(p < q)
  }

  /** All files can be copied below a vacant target: their sources exist, no parent of
      the target is a file, and no two of them get in each other's way. */
  ghost predicate Installable(disk: Disk, target: Path, files: seq<ListedFile>, works: seq<bool>)
    requires |works| == |files|
  {
    && (forall i | 0 <= i < |files| :: works[i] && files[i].path in disk && forall q | q in disk :: !(q < target))
    && (forall i, j | 0 <= i < j < |files| :: Apart(files[i].logical, files[j].logical))
  }

  lemma InstallableNext(disk: Disk, target: Path, files: seq<ListedFile>, works: seq<bool>, n: nat)
    requires |works| == |files| && n < |files| && Installable(disk, target, files[..n], works[..n])
    ensures Installable(disk, target, files[..n + 1], works[..n + 1]) <==>
              && works[n] && files[n].path in disk && (forall q | q in disk :: !(q < target))
              && forall j | 0 <= j < n :: Apart(files[j].logical, files[n].logical)
    ensures !Installable(disk, target, files[..n + 1], works[..n + 1]) ==> !Installable(disk, target, files, works)
  {
    var (more, okay) := (files[..n + 1], works[..n + 1]);
    assert more[n] == files[n] && okay[n] == works[n];
    assert forall i | 0 <= i < n :: more[i] == files[..n][i] == files[i] && okay[i] == works[..n][i] == works[i];
  }

  lemma SameSuffixes(target: Path, a: Path, b: Path)
    ensures (target + a < target + b <==> a < b) && (target + a == target + b <==> a == b)
  {
    assert (target + a)[|target|..] == a && (target + b)[|target|..] == b;
    if target + a < target + b {
      assert (target + b)[..|target + a|][|target|..] == b[..|a|];
    }
  }

  /** Between the files created so far, a place is free exactly when nothing listed before gets in its way. */
  lemma PlaceIsFree(before: Disk, disk: Disk, target: Path, files: seq<ListedFile>, n: nat, created: set<Path>)
    requires Vacant(before, target) && n < |files| && disk.Keys == before.Keys + created
    requires created == set j | 0 <= j < n :: target + files[j].logical
    ensures Free(disk, target + files[n].logical) <==>
              (forall q | q in before :: !(q < target)) && forall j | 0 <= j < n ::
                  Apart(files[j].logical, files[n].logical)
  {
    var place := target + files[n].logical;
    forall q | q in before ensures q != place && !(place < q) && (q < place <==> q < target) {
      assert Within(target, place);
      Inside(target, files[n].logical, q);
      if q < place { assert q == place[..|q|]; }
      if q < target { assert q == target[..|q|] == place[..|q|]; }
    }
    forall j | 0 <= j < n ensures target + files[j].logical in created
      && (Apart(files[j].logical, files[n].logical) <==>
            target + files[j].logical != place && !(target + files[j].logical < place)
              && !(place < target + files[j].logical))
    {
      SameSuffixes(target, files[j].logical, files[n].logical);
      SameSuffixes(target, files[n].logical, files[j].logical);
    }
  }

  lemma CreatedIsListed(before: Disk, after: Disk, target: Path, files: seq<ListedFile>, created: set<Path>)
    requires Vacant(before, target) && after.Keys == before.Keys + created
    requires created == set j | 0 <= j < |files| :: target + files[j].logical
    requires forall p | p in before :: after[p] == before[p]
    ensures OnlyListed(after, target, files, false) && Confined(before, after, target)
  {
    forall r: Path | target + r in after ensures r in Listed(files, false) {
      assert Within(target, target + r);
      var j :| 0 <= j < |files| && target + files[j].logical == target + r;
      assert (target + files[j].logical)[|target|..] == files[j].logical && (target + r)[|target|..] == r;
      assert Candidate([], files[j], false) == r;
    }
  }

  /** Verification reads back exactly what the copy left. */
  lemma CopiedHolds(before: Disk, target: Path, fate: Copying, files: seq<ListedFile>, singleFile: bool)
    requires fate.ok
    ensures HoldsAll(Graft(before, target, Left(fate, files, singleFile)), target, files, singleFile) <==>
              Faithful(fate, files, singleFile)
  {
    var left := Left(fate, files, singleFile);
    forall i | 0 <= i < |files|
      ensures At(Graft(before, target, left), Candidate(target, files[i], singleFile)) ==
              At(left, Candidate([], files[i], singleFile))
    {
      var r := if singleFile then [] else files[i].logical;
      assert Candidate(target, files[i], singleFile) == target + r && Candidate([], files[i], singleFile) == r;
      GraftAt(before, target, left, target + r);
      assert (target + r)[|target|..] == r;
    }
  }

  /*************** which ending ***************/

  predicate Apart(a: Path, b: Path) {
    !Within(a, b) && !Within(b, a)
  }

  /** `base` is no directory. */
  predicate NothingBelow(disk: Disk, base: Path) {
    forall p | p in disk :: !(base < p)
  }

  lemma Inside(base: Path, tail: Path, p: Path)
    ensures Within(base + tail, p) ==> Within(base, p)
  {
    if Within(base + tail, p) {
      assert p[..|base|] == (base + tail)[..|base|] == base;
    }
  }

  lemma PayloadVacant(disk: Disk, stageRoot: Path)
    requires Vacant(disk, stageRoot)
    ensures Vacant(disk, stageRoot + ["payload"])
  {
    forall p | p in disk ensures !Within(stageRoot + ["payload"], p) { Inside(stageRoot, ["payload"], p); }
  }

  /** How the double rename ends. */
  predicate CanSetAside(disk: Disk, target: Path, previous: Path, fate: Fate) {
    fate.setAside && Vacant(disk, previous) && Apart(target, previous)
  }

  ghost function SwapEnding(disk: Disk, target: Path, previous: Path, fate: Fate): Outcome {
    if !CanSetAside(disk, target, previous, fate) then Failed
    else if fate.install then Installed
    else if fate.restore then Failed else Stranded
  }

  /** How the replacement of the target by the staged copy ends. */
  ghost function ReplaceEnding(disk: Disk, staged: Path, target: Path, targetExists: bool, singleFile: bool,
                               fate: Fate): Outcome
  {
    if !targetExists then
      if fate.install && Vacant(disk, target) && Apart(staged, target) then Installed else Failed
    else if singleFile then
      if fate.replace && NothingBelow(disk, target) && Apart(staged, target) then Installed else Failed
    else if fate.previousKey.None? then Failed
    else SwapEnding(disk, target, PreviousPath(target, fate.previousKey.value), fate)
  }

  ghost function StagedEnding(disk: Disk, stageRoot: Path, downloaded: seq<ListedFile>, target: Path,
                              targetExists: bool, singleFile: bool,
                        fate: Fate): Outcome
  {
    if !Faithful(fate.stage, downloaded, singleFile) then Failed
    else
      ReplaceEnding(Graft(disk, stageRoot + ["payload"], Left(fate.stage, downloaded, singleFile)),
                    stageRoot + ["payload"], target, targetExists, singleFile, fate)
  }

  /** The disk once the backup was taken. */
  function BackedUp(disk: Disk, backup: Path, current: seq<ListedFile>, targetExists: bool, fate: Fate): Disk {
    if targetExists then Graft(disk, backup, Left(fate.backup, current, false)) else disk
  }

  /** The backup of an existing save is taken and verified. */
  ghost predicate BackupWorks(disk: Disk, backup: Path, current: seq<ListedFile>, fate: Fate) {
    fate.backupRoot && fate.backupKey.Some? && Vacant(disk, backup) && Faithful(fate.backup, current, false)
  }

  predicate StageOpens(disk: Disk, target: Path, fate: Fate) {
    fate.parent && fate.stageKey.Some? && Vacant(disk, StagePath(target, fate.stageKey.value))
  }

  ghost function OpenEnding(disk: Disk, downloaded: seq<ListedFile>, target: Path, targetExists: bool,
                            singleFile: bool, fate: Fate): Outcome
  {
    if !StageOpens(disk, target, fate) then Failed
    else StagedEnding(disk, StagePath(target, fate.stageKey.value), downloaded, target, targetExists, singleFile, fate)
  }

  /** How an install ends: what happens is decided by the disk and the fates alone. */
  ghost function Ending(disk: Disk, backup: Path, current: seq<ListedFile>, downloaded: seq<ListedFile>,
                        target: Path, targetExists: bool, singleFile: bool, fate: Fate): Outcome
  {
    var d1 := BackedUp(disk, backup, current, targetExists, fate);
    if singleFile && |downloaded| != 1 then Failed
    else if targetExists && !BackupWorks(disk, backup, current, fate) then Failed
    else OpenEnding(d1, downloaded, target, targetExists, singleFile, fate)
  }

  /** Everything the last step needs, once the download is staged and verified. */
  predicate Replaceable(disk: Disk, target: Path, targetExists: bool, singleFile: bool, fate: Fate) {
    if !targetExists then fate.install
    else if singleFile then fate.replace && NothingBelow(disk, target)
    else
      fate.setAside && fate.install && fate.previousKey.Some?
      && Vacant(disk, PreviousPath(target, fate.previousKey.value))
  }

  lemma StagedElsewhere(disk: Disk, stageRoot: Path, tree: Disk, p: Path)
    requires !Within(stageRoot, p)
    ensures At(Graft(disk, stageRoot + ["payload"], tree), p) == At(disk, p)
  {
    Inside(stageRoot, ["payload"], p);
    GraftAt(disk, stageRoot + ["payload"], tree, p);
  }

  /** Staging leaves a path apart from it exactly as vacant as it was. */
  lemma StagedVacant(disk: Disk, stageRoot: Path, tree: Disk, base: Path)
    requires Apart(stageRoot, base)
    ensures Vacant(Graft(disk, stageRoot + ["payload"], tree), base) <==> Vacant(disk, base)
    ensures NothingBelow(Graft(disk, stageRoot + ["payload"], tree), base) <==> NothingBelow(disk, base)
  {
    var after := Graft(disk, stageRoot + ["payload"], tree);
    forall p | Within(base, p) ensures At(after, p) == At(disk, p) {
      if Within(stageRoot, p) { PrefixesCompare(stageRoot, base, p); }
      StagedElsewhere(disk, stageRoot, tree, p);
    }
    forall p | base < p ensures p in after <==> p in disk {
      assert Within(base, p) && At(after, p) == At(disk, p);
    }
  }

  /** With the target apart from the staging directory, the last step depends on the
      disk from before staging. */
  lemma ReplacesIff(d1: Disk, target: Path, downloaded: seq<ListedFile>, targetExists: bool, singleFile: bool,
                    fate: Fate)
    requires targetExists <==> !Vacant(d1, target)
    requires fate.stageKey.Some? && Vacant(d1, StagePath(target, fate.stageKey.value))
    requires target != [] && target != StagePath(target, fate.stageKey.value)
    ensures var staged := StagePath(target, fate.stageKey.value) + ["payload"];
            var d2 := Graft(d1, staged, Left(fate.stage, downloaded, singleFile));
            ReplaceEnding(d2, staged, target, targetExists, singleFile, fate).Installed? <==>
              Replaceable(d1, target, targetExists, singleFile, fate)
  {
    var stageRoot := StagePath(target, fate.stageKey.value);
    var tree := Left(fate.stage, downloaded, singleFile);
    StageApart(target, stageRoot, fate.stageKey.value);
    StagedVacant(d1, stageRoot, tree, target);
    if fate.previousKey.Some? {
      var previous := PreviousPath(target, fate.previousKey.value);
      SiblingsApart(target, fate.stageKey.value, fate.previousKey.value);
      StagedVacant(d1, stageRoot, tree, previous);
      SameParentApart(target, previous);
    }
  }

  lemma SameParentApart(a: Path, b: Path)
    requires |a| == |b|
    ensures a != b ==> Apart(a, b)
  {
  }

  /** An install succeeds exactly when the target has a parent, every step the case
      needs works, every copy is faithful, and the places that must be new are. */
  lemma InstallsIff(disk: Disk, backup: Path, current: seq<ListedFile>, downloaded: seq<ListedFile>,
                    target: Path, targetExists: bool, singleFile: bool, fate: Fate)
    requires targetExists <==> !Vacant(disk, target)
    ensures Ending(disk, backup, current, downloaded, target, targetExists, singleFile, fate).Installed? <==>
              var d1 := BackedUp(disk, backup, current, targetExists, fate);
              && target != [] && (singleFile ==> |downloaded| == 1)
              && (targetExists ==> BackupWorks(disk, backup, current, fate))
              && StageOpens(d1, target, fate) && target != StagePath(target, fate.stageKey.value)
              && Faithful(fate.stage, downloaded, singleFile) && Replaceable(d1, target, targetExists, singleFile, fate)
  {
    var d1 := BackedUp(disk, backup, current, targetExists, fate);
    if targetExists && BackupWorks(disk, backup, current, fate) {
      StillThere(disk, backup, Left(fate.backup, current, false), target);
    }
    if (targetExists ==> BackupWorks(disk, backup, current, fate)) && StageOpens(d1, target, fate) {
      if target != [] && target != StagePath(target, fate.stageKey.value) {
        ReplacesIff(d1, target, downloaded, targetExists, singleFile, fate);
      } else {
        NoRoom(target, fate);
      }
    }
  }

  /** A backup in a place that was vacant does not empty the target. */
  lemma StillThere(disk: Disk, backup: Path, tree: Disk, target: Path)
    requires Vacant(disk, backup) && !Vacant(disk, target)
    ensures !Vacant(Graft(disk, backup, tree), target)
  {
    var p :| p in disk && Within(target, p);
    GraftAt(disk, backup, tree, p);
  }

  /** Nothing is apart from the root, and a staged file is not apart from its own directory. */
  lemma NoRoom(target: Path, fate: Fate)
    requires fate.stageKey.Some? && (target == [] || target == StagePath(target, fate.stageKey.value))
    ensures !Apart(StagePath(target, fate.stageKey.value) + ["payload"], target)
    ensures target == [] && fate.previousKey.Some? ==> !Apart(target, PreviousPath(target, fate.previousKey.value))
  {
    if target != [] {
      assert (StagePath(target, fate.stageKey.value) + ["payload"])[..|target|] == target;
    }
  }

  /*************** the volume ***************/

  class Volume {
    var disk: Disk
    /** Every state after the one the volume was opened with. */
    ghost var history: seq<Disk>

    constructor (initial: Disk)
      ensures disk == initial && history == []
    {
      disk, history := initial, [];
    }

    method Become(next: Disk)
      modifies this
      ensures disk == next && history == old(history) + [next]
    {
      disk, history := next, history + [next];
    }

    /** copyFile and installDirectory: refuse to overwrite, and on success create
        no path that is not listed; the bytes may be wrong. */
    method Copy(target: Path, files: seq<ListedFile>, singleFile: bool, fate: Copying) returns (ok: bool)
      modifies this
      ensures history == old(history) + [disk]
      ensures Confined(old(disk), disk, target)
      ensures ok <==> fate.ok && Vacant(old(disk), target)
      ensures disk == if Vacant(old(disk), target) then Graft(old(disk), target, Left(fate, files, singleFile))
              else old(disk)
      ensures ok ==> OnlyListed(disk, target, files, singleFile)
    {
      if !Vacant(disk, target) {
        Become(disk);
        return false;
      }
      ghost var before := disk;
      var left := Left(fate, files, singleFile);
      Become(Graft(disk, target, left));
      forall p ensures At(disk, p) == if Within(target, p) then At(left, p[|target|..]) else At(before, p) {
        GraftAt(before, target, left, p);
      }
      forall r: Path | target + r in disk && fate.ok ensures r in Listed(files, singleFile) {
        assert (target + r)[|target|..] == r;
        assert At(disk, target + r) == At(left, r);
      }
      return fate.ok;
    }

    /** rename: all or nothing. */
    method Rename(source: Path, target: Path, works: bool) returns (ok: bool)
      modifies this
      ensures history == old(history) + [disk]
      ensures if ok then Moved(old(disk), disk, source, target) else disk == old(disk)
      ensures ok <==> works && Vacant(old(disk), target) && !Within(source, target) && !Within(target, source)
    {
      ok := works && Vacant(disk, target) && !Within(source, target) && !Within(target, source);
      MoveMoves(disk, source, target);
      Become(if ok then Move(disk, source, target) else disk);
    }

    /** replaceFile: a rename that may take the place of a file, not of a directory. */
    method ReplaceFile(source: Path, target: Path, works: bool) returns (ok: bool)
      modifies this
      ensures history == old(history) + [disk]
      ensures if ok then Moved(old(disk), disk, source, target) else disk == old(disk)
      ensures ok <==>
                works && (forall p | p in old(disk) :: !(target < p)) && !Within(source, target)
                  && !Within(target, source)
    {
      ok := works && (forall p | p in disk :: !(target < p)) && !Within(source, target) && !Within(target, source);
      MoveMoves(disk, source, target);
      Become(if ok then Move(disk, source, target) else disk);
    }

    /** removeAll, which may stop halfway. */
    method RemoveAll(base: Path, left: set<Path>)
      modifies this
      ensures history == old(history) + [disk]
      ensures Confined(old(disk), disk, base)
    {
      Become(map p | p in disk && (!Within(base, p) || p in left) :: disk[p]);
    }

    /** verifyInstalledSave: each file by itself, then the set of what was found
        against the set of what was listed. */
    method Verify(base: Path, files: seq<ListedFile>, singleFile: bool) returns (ok: bool)
      ensures ok <==> HoldsAll(disk, base, files, singleFile)
    {
      var verified: seq<FileRow> := [];
      for i := 0 to |files|
        invariant HoldsAll(disk, base, files[..i], singleFile)
        invariant verified == Rows(files)[..i]
      {
        var content := At(disk, Candidate(base, files[i], singleFile));
        if content.None? { return false; }
        var checksum, size := Sha256(content.value), |content.value|;
        if checksum != files[i].checksum || size != files[i].size { return false; }
        verified := verified + [FileRow(files[i].logical, checksum, size)];
      }
      assert files[..|files|] == files && Rows(files)[..|files|] == Rows(files);
      return multiset(verified) == multiset(Rows(files));
    }

    /** Directory replacement: set the old tree aside, install, put back on failure. */
    method Swap(staged: Path, target: Path, previous: Path, fate: Fate)
      returns (r: Outcome, ghost aside: bool, ghost states: seq<Disk>)
      requires Within(target, previous) || (!Within(staged, target) && !Within(target, staged))
      requires !Within(staged, previous) && !Within(previous, staged)
      modifies this
      ensures history == old(history) + states
      ensures AllConfinedTo(old(disk), states, staged, target, previous)
              && ConfinedTo(old(disk), disk, staged, target, previous)
      ensures r.Installed? ==> aside && Holds(disk, target, old(disk), staged)
      ensures r.Failed? ==> Holds(disk, target, old(disk), target)
      ensures r.Stranded? ==> Holds(disk, previous, old(disk), target) && Vacant(disk, target)
      ensures aside ==> !Within(target, previous)
      ensures aside ==> Vacant(old(disk), previous) && SometimesVacant(states, target)
      ensures !aside ==> r.Failed? && disk == old(disk) && states == [old(disk)]
      ensures r == SwapEnding(old(disk), target, previous, fate)
      ensures r.Installed? ==> !Within(staged, target) && !Within(target, staged)
    {
      ghost var d0 := disk;
      var moved := Rename(target, previous, fate.setAside);
      if !moved { return Failed, false, [d0]; }
      ghost var d1 := disk;
      SetAside(d0, d1, staged, target, previous);
      var installed := Rename(staged, target, fate.install);
      ghost var d2 := disk;
      if installed {
        RemoveAll(previous, fate.previousLeft);
        SwapInstalled(d0, d1, d2, disk, staged, target, previous);
        states := [d1, d2, disk];
        assert Vacant(states[0], target);
        return Installed, true, states;
      }
      var restored := Rename(previous, target, fate.restore);
      if restored {
        SwapRestored(d0, d1, disk, staged, target, previous);
        states := [d1, d1, disk];
        assert Vacant(states[0], target);
        return Failed, true, states;
      }
      states := [d1, d1, d1];
      assert Vacant(states[0], target);
      return Stranded, true, states;
    }

    /** A copy and its verification. */
    method CopyVerified(target: Path, files: seq<ListedFile>, singleFile: bool, fate: Copying) returns (ok: bool)
      modifies this
      ensures history == old(history) + [disk]
      ensures Confined(old(disk), disk, target)
      ensures ok <==> Vacant(old(disk), target) && Faithful(fate, files, singleFile)
      ensures disk == if Vacant(old(disk), target) then Graft(old(disk), target, Left(fate, files, singleFile))
              else old(disk)
      ensures ok ==> HoldsExactly(disk, target, files, singleFile)
    {
      ok := Copy(target, files, singleFile, fate);
      if ok {
        CopiedHolds(old(disk), target, fate, files, singleFile);
        ok := Verify(target, files, singleFile);
      }
    }

    /** The last part of the install, once the staged copy is verified. `place` is
        where the old tree went, or the staged path if it went nowhere. */
    method Replace(staged: Path, target: Path, targetExists: bool, singleFile: bool, fate: Fate)
      returns (r: Outcome, ghost aside: bool, ghost place: Path, ghost states: seq<Disk>)
      requires targetExists ==> target == [] || (!Within(staged, target) && !Within(target, staged))
      requires fate.previousKey.Some? ==> !Within(staged, PreviousPath(target, fate.previousKey.value))
      requires fate.previousKey.Some? ==> !Within(PreviousPath(target, fate.previousKey.value), staged)
      modifies this
      ensures history == old(history) + states
      ensures AllConfinedTo(old(disk), states, staged, target, place)
              && ConfinedTo(old(disk), disk, staged, target, place)
      ensures !aside ==> place == staged
      ensures aside ==>
                Vacant(old(disk), place) && fate.previousKey.Some?
                  && place == PreviousPath(target, fate.previousKey.value)
      ensures r.Installed? ==>
                Holds(disk, target, old(disk), staged) && !Within(staged, target) && !Within(target, staged)
      ensures r.Failed? ==> Holds(disk, target, old(disk), target)
      ensures r.Stranded? ==> aside && Holds(disk, place, old(disk), target) && Vacant(disk, target)
      ensures aside ==> SometimesVacant(states, target)
      ensures aside ==> targetExists && !singleFile && target != []
      ensures r.Installed? && targetExists && !singleFile ==> aside
      ensures r == ReplaceEnding(old(disk), staged, target, targetExists, singleFile, fate)
    {
      aside, place := false, staged;
      ghost var before := disk;
      if !targetExists || singleFile {
        var ok: bool;
        if targetExists {
          ok := ReplaceFile(staged, target, fate.replace);
        } else {
          ok := Rename(staged, target, fate.install);
        }
        states := [disk];
        if ok {
          MoveConfined(before, disk, staged, target);
          MoveHolds(before, disk, staged, target);
          return Installed, aside, place, states;
        }
        return Failed, aside, place, states;
      }
      if fate.previousKey.None? { return Failed, aside, place, []; }
      var previous := PreviousPath(target, fate.previousKey.value);
      r, aside, states := Swap(staged, target, previous, fate);
      place := if aside then previous else staged;
    }

    /** Stages the download and, once verified, puts it in place. */
    method StageAndPlace(stageRoot: Path, downloaded: seq<ListedFile>, target: Path, targetExists: bool,
                         singleFile: bool, fate: Fate)
      returns (r: Outcome, ghost aside: bool, ghost place: Path, ghost d2: Disk, ghost inner: seq<Disk>)
      requires fate.stageKey.Some? && stageRoot == StagePath(target, fate.stageKey.value) && Vacant(disk, stageRoot)
      requires targetExists <==> !Vacant(disk, target)
      modifies this
      ensures history == old(history) + ([d2] + inner)
      ensures Confined(old(disk), d2, stageRoot + ["payload"])
      ensures var went := if aside then place else stageRoot + ["payload"];
        AllConfinedTo(d2, inner, stageRoot + ["payload"], target, went)
          && ConfinedTo(d2, disk, stageRoot + ["payload"], target, went)
      ensures !aside ==> place == stageRoot
      ensures aside ==>
                fate.previousKey.Some? && place == PreviousPath(target, fate.previousKey.value) && target != []
                  && Vacant(d2, place)
      ensures aside ==> targetExists && !singleFile && SometimesVacant(inner, target)
      ensures r.Installed? && targetExists && !singleFile ==> aside
      ensures r.Failed? ==> Holds(disk, target, d2, target)
      ensures r.Stranded? ==> aside && Holds(disk, place, d2, target) && Vacant(disk, target)
      ensures r.Installed? ==>
                HoldsExactly(d2, stageRoot + ["payload"], downloaded, singleFile)
                  && Holds(disk, target, d2, stageRoot + ["payload"])
      ensures r.Installed? ==> !Within(stageRoot + ["payload"], target) && !Within(target, stageRoot + ["payload"])
      ensures r == StagedEnding(old(disk), stageRoot, downloaded, target, targetExists, singleFile, fate)
    {
      PayloadApart(disk, target, stageRoot, fate);
      aside, place, r, inner := false, stageRoot, Failed, [];
      PayloadVacant(disk, stageRoot);
      var verified := CopyVerified(stageRoot + ["payload"], downloaded, singleFile, fate.stage);
      d2 := disk;
      if !verified { return; }
      ghost var went;
      r, aside, went, inner := Replace(stageRoot + ["payload"], target, targetExists, singleFile, fate);
      place := if aside then went else stageRoot;
    }

    /** From the fresh staging directory to its removal. */
    method StageAndReplace(stageRoot: Path, downloaded: seq<ListedFile>, target: Path, targetExists: bool,
                           singleFile: bool, fate: Fate)
      returns (r: Outcome, ghost aside: bool, ghost place: Path, ghost states: seq<Disk>)
      requires fate.stageKey.Some? && stageRoot == StagePath(target, fate.stageKey.value) && Vacant(disk, stageRoot)
      requires targetExists <==> !Vacant(disk, target)
      modifies this
      ensures history == old(history) + states
      ensures states != [] && states[|states| - 1] == disk
      ensures AllConfinedTo(old(disk), states, stageRoot, target, place)
      ensures !aside ==> place == stageRoot
      ensures aside ==>
                fate.previousKey.Some? && place == PreviousPath(target, fate.previousKey.value)
                  && Vacant(old(disk), place)
      ensures r.Installed? ==> HoldsExactly(disk, target, downloaded, singleFile)
      ensures r.Failed? ==> Preserves(disk, target, old(disk), target)
      ensures r.Failed? && target != [] && target != stageRoot ==> Holds(disk, target, old(disk), target)
      ensures r.Stranded? ==> aside && Holds(disk, place, old(disk), target) && Vacant(disk, target)
      ensures aside ==> targetExists && !singleFile && SometimesVacant(states, target)
      ensures r.Installed? && targetExists && !singleFile ==> aside
      ensures r == StagedEnding(old(disk), stageRoot, downloaded, target, targetExists, singleFile, fate)
    {
      ghost var d1 := disk;
      ghost var d2, inner;
      r, aside, place, d2, inner := StageAndPlace(stageRoot, downloaded, target, targetExists, singleFile, fate);
      ghost var d3 := disk;
      RemoveAll(stageRoot, fate.stageLeft);
      states := [d2] + inner + [disk];
      StagedRun(d1, d2, d3, inner, disk, stageRoot, target, if aside then place else stageRoot + ["payload"], place);
      Concluded(r, aside, d1, d2, d3, disk, stageRoot, target, place, downloaded, singleFile, fate);
      if aside { WasVacant(d1, d2, stageRoot, target, place, fate); }
    }

    /** The recoverable copy of the old save. */
    method BackUp(backup: Path, current: seq<ListedFile>, target: Path, fate: Copying) returns (ok: bool)
      requires !Vacant(disk, target)
      modifies this
      ensures history == old(history) + [disk]
      ensures Preserves(disk, target, old(disk), target) && !Vacant(disk, target)
      ensures !Within(target, backup) ==> Holds(disk, target, old(disk), target)
      ensures ok ==> HoldsAll(disk, backup, current, false) && !Within(backup, target)
      ensures ok <==> Vacant(old(disk), backup) && Faithful(fate, current, false)
      ensures ok ==> disk == Graft(old(disk), backup, Left(fate, current, false))
    {
      ok := CopyVerified(backup, current, false, fate);
      BackupSpares(old(disk), disk, backup, target);
    }

    /** installDownloadedSave. `since` lists every state from the backup check on. */
    method InstallDownloadedSave(root: Path, stream: string, session: string, current: seq<ListedFile>,
                                 downloaded: seq<ListedFile>,
                                 target: Path, targetExists: bool, singleFile: bool, fate: Fate)
      returns (r: Outcome, ghost backup: Path, ghost earlier: seq<Disk>, ghost since: seq<Disk>, ghost place: Path)
      requires targetExists <==> !Vacant(disk, target)
      modifies this
      ensures fate.backupKey.Some? ==> backup == BackupPath(root, stream, session, fate.backupKey.value)
      ensures history == old(history) + earlier + since
      ensures r.Installed? ==> HoldsExactly(disk, target, downloaded, singleFile)
      ensures r.Failed? ==> Preserves(disk, target, old(disk), target)
      ensures r.Failed? && !Within(target, backup) && target != [] && fate.stageKey.Some?
              && target != StagePath(target, fate.stageKey.value) ==>
                Holds(disk, target, old(disk), target)
      ensures r.Stranded? ==> fate.previousKey.Some? && place == PreviousPath(target, fate.previousKey.value)
      ensures r.Stranded? ==> Preserves(disk, place, old(disk), target) && Vacant(disk, target)
      ensures r.Stranded? && !Within(target, backup) ==> Holds(disk, place, old(disk), target)
      ensures targetExists && !r.Failed? ==> since != []
      ensures !Within(target, backup) ==> KeptThroughout(since, backup, current)
      ensures r.Installed? && targetExists && !singleFile && current != [] && Within(target, backup) ==>
                !KeptThroughout(since, backup, current)
      ensures r == Ending(old(disk), backup, current, downloaded, target, targetExists, singleFile, fate)
    {
      r, backup, earlier, since, place := Failed, root, [], [], target;
      if fate.backupKey.Some? {
        backup := BackupPath(root, stream, session, fate.backupKey.value);
      }
      if singleFile && |downloaded| != 1 { return; }
      ghost var d0 := disk;
      if !targetExists {
        r, place, earlier := InstallOverBackup(d0, backup, current, downloaded, target, targetExists, singleFile, fate);
        return;
      }
      if !fate.backupRoot || fate.backupKey.None? { return; }
      r, earlier, since, place :=
        InstallOverExisting(BackupPath(root, stream, session, fate.backupKey.value), current, downloaded, target,
                            singleFile, fate);
    }

    /** The backup of an existing save, and the install once it is verified. */
    method InstallOverExisting(backup: Path, current: seq<ListedFile>, downloaded: seq<ListedFile>, target: Path,
                               singleFile: bool, fate: Fate)
      returns (r: Outcome, ghost earlier: seq<Disk>, ghost since: seq<Disk>, ghost place: Path)
      requires !Vacant(disk, target) && fate.backupRoot && fate.backupKey.Some?
      requires singleFile ==> |downloaded| == 1
      modifies this
      ensures history == old(history) + earlier + since
      ensures r.Installed? ==> HoldsExactly(disk, target, downloaded, singleFile)
      ensures r.Failed? ==> Preserves(disk, target, old(disk), target)
      ensures r.Failed? && !Within(target, backup) && target != [] && fate.stageKey.Some?
              && target != StagePath(target, fate.stageKey.value) ==>
                Holds(disk, target, old(disk), target)
      ensures r.Stranded? ==> fate.previousKey.Some? && place == PreviousPath(target, fate.previousKey.value)
      ensures r.Stranded? ==> Preserves(disk, place, old(disk), target) && Vacant(disk, target)
      ensures r.Stranded? && !Within(target, backup) ==> Holds(disk, place, old(disk), target)
      ensures !r.Failed? ==> since != []
      ensures !Within(target, backup) ==> KeptThroughout(since, backup, current)
      ensures r.Installed? && !singleFile && current != [] && Within(target, backup) ==>
                !KeptThroughout(since, backup, current)
      ensures r == Ending(old(disk), backup, current, downloaded, target, true, singleFile, fate)
    {
      r, earlier, since, place := Failed, [], [], target;
      ghost var d0 := disk;
      var ok := BackUp(backup, current, target, fate.backup);
      if !ok { earlier := [disk]; return; }
      ghost var d1, states := disk, [];
      r, place, states := InstallOverBackup(d0, backup, current, downloaded, target, true, singleFile, fate);
      since := [d1] + states;
    }

    /** The install once the backup is verified, or none is needed; `d0` is the disk before the backup. */
    method InstallOverBackup(ghost d0: Disk, ghost backup: Path, ghost current: seq<ListedFile>,
                             downloaded: seq<ListedFile>,
                             target: Path, targetExists: bool, singleFile: bool, fate: Fate)
      returns (r: Outcome, ghost place: Path, ghost states: seq<Disk>)
      requires targetExists <==> !Vacant(disk, target)
      requires Preserves(disk, target, d0, target) && (!Within(target, backup) ==> Holds(disk, target, d0, target))
      requires targetExists ==> HoldsAll(disk, backup, current, false) && !Within(backup, target)
      modifies this
      ensures history == old(history) + states
      ensures states == [] ==> r.Failed? && disk == old(disk)
      ensures r.Installed? ==> HoldsExactly(disk, target, downloaded, singleFile)
      ensures r.Failed? ==> Preserves(disk, target, d0, target)
      ensures r.Failed? && !Within(target, backup) && target != [] && fate.stageKey.Some?
              && target != StagePath(target, fate.stageKey.value) ==>
                Holds(disk, target, d0, target)
      ensures r.Stranded? ==> fate.previousKey.Some? && place == PreviousPath(target, fate.previousKey.value)
      ensures r.Stranded? ==> Preserves(disk, place, d0, target) && Vacant(disk, target)
      ensures r.Stranded? && !Within(target, backup) ==> Holds(disk, place, d0, target)
      ensures targetExists && !Within(target, backup) ==> KeptThroughout([old(disk)] + states, backup, current)
      ensures r.Installed? && targetExists && !singleFile && current != [] && Within(target, backup) ==>
                !KeptThroughout([old(disk)] + states, backup, current)
      ensures r == OpenEnding(old(disk), downloaded, target, targetExists, singleFile, fate)
    {
      r, place, states := Failed, target, [];
      if !fate.parent || fate.stageKey.None? || !Vacant(disk, StagePath(target, fate.stageKey.value)) { return; }
      ghost var d1 := disk;
      ghost var aside;
      r, aside, place, states :=
        StageAndReplace(StagePath(target, fate.stageKey.value), downloaded, target, targetExists, singleFile, fate);
      Concludes(r, aside, d0, d1, disk, states, StagePath(target, fate.stageKey.value), target, place, backup, current,
                targetExists);
    }

    /** copyExclusive: never overwrites; leaves nothing behind when it fails. */
    method CopyExclusive(source: Path, target: Path, works: bool) returns (ok: bool)
      modifies this
      ensures history == old(history) + [disk]
      ensures ok <==> works && source in old(disk) && Free(old(disk), target)
      ensures ok ==> disk == old(disk)[target := old(disk)[source]]
      ensures !ok ==> disk == old(disk)
    {
      ok := works && source in disk && Free(disk, target);
      Become(if ok then disk[target := disk[source]] else disk);
    }

    /** installDirectoryExclusive: the default installDirectory keeps what Copy
        promises, copies faithfully, and takes its files back when one fails. */
    method InstallDirectoryExclusive(target: Path, files: seq<ListedFile>, works: seq<bool>) returns (ok: bool)
      requires |works| == |files|
      requires forall i | 0 <= i < |files| :: !Within(target, files[i].path)
      modifies this
      ensures Confined(old(disk), disk, target)
      ensures !ok ==> disk == old(disk)
      ensures ok <==> Vacant(old(disk), target) && Installable(old(disk), target, files, works)
      ensures ok ==> OnlyListed(disk, target, files, false)
      ensures ok ==> forall i | 0 <= i < |files| ::
                       files[i].path in old(disk) && At(disk, target + files[i].logical) == At(old(disk), files[i].path)
    {
      ghost var before := disk;
      if !Vacant(disk, target) { return false; }
      var created: set<Path> := {};
      for i := 0 to |files|
        invariant created == set j | 0 <= j < i :: target + files[j].logical
        invariant created !! before.Keys && disk.Keys == before.Keys + created
        invariant forall p | p in before :: disk[p] == before[p]
        invariant Installable(before, target, files[..i], works[..i])
        invariant forall j | 0 <= j < i ::
                    files[j].path in before && At(disk, target + files[j].logical) == At(before, files[j].path)
      {
        SourceIsOld(before, target, files[i].path, created);
        PlaceIsFree(before, disk, target, files, i, created);
        InstallableNext(before, target, files, works, i);
        var copied := CopyExclusive(files[i].path, target + files[i].logical, works[i]);
        if !copied {
          Become(map p | p in disk && p !in created :: disk[p]);
          assert disk == before;
          return false;
        }
        created := created + {target + files[i].logical};
      }
      assert files[..|files|] == files && works[..|works|] == works;
      CreatedIsListed(before, disk, target, files, created);
      return true;
    }
  }

  /*************** a backup that is lost ***************/

  /** The agent's own directory as a save directory: it is inside the allowed root and
      not the root itself, and the backups are below it. */
  function AgentDirectory(root: Path): Path {
    root + [".varkiv"]
  }

  function OneFile(content: Bytes): seq<ListedFile> {
    [ListedFile(["save"], ["download"], Sha256(content), |content|)]
  }

  /** Every operation works, every copy is faithful. */
  function Flawless(before: Bytes, next: Bytes): Fate {
    Fate(true, Some("k"), Copying(true, map[["save"] := before]), true, Some("k"), Copying(true, map[["save"] := next]),
         true, true, Some("k"), true, true, {}, {})
  }

  lemma FlawlessIsFaithful(content: Bytes)
    ensures Faithful(Copying(true, map[["save"] := content]), OneFile(content), false)
  {
    var files := OneFile(content);
    assert Candidate([], files[0], false) == ["save"];
    assert ["save"] in Listed(files, false);
  }

  lemma AgentDirectoryIs(root: Path, key: string)
    ensures Parent(AgentDirectory(root)) == root
    ensures StagePath(AgentDirectory(root), key)[|root|] != ".varkiv"
            && PreviousPath(AgentDirectory(root), key)[|root|] != ".varkiv"
    ensures forall p: Path :: Within(AgentDirectory(root), BackupPath(root, "stream", "session", key) + p)
  {
    assert AgentDirectory(root)[..|root|] == root;
    assert |INSTALL_PREFIX + key| != |".varkiv"| && |PREVIOUS_PREFIX + key| != |".varkiv"|;
    var backup := BackupPath(root, "stream", "session", key);
    assert backup[..|root| + 1] == AgentDirectory(root);
    forall p: Path ensures Within(AgentDirectory(root), backup + p) {
      assert (backup + p)[..|root| + 1] == backup[..|root| + 1];
    }
  }

  /** A path whose segment after the root differs is vacant when everything lies in the agent's directory. */
  lemma OutsideIsVacant(disk: Disk, root: Path, base: Path)
    requires forall p | p in disk :: Within(AgentDirectory(root), p)
    requires |base| > |root| && base[|root|] != ".varkiv"
    ensures Vacant(disk, base)
  {
    forall p | p in disk ensures !Within(base, p) {
      assert p[|root|] == p[..|root| + 1][|root|] == AgentDirectory(root)[|root|] == ".varkiv";
    }
  }

  function AgentDisk(root: Path, content: Bytes): Disk {
    map[AgentDirectory(root) + ["save"] := content]
  }

  lemma AgentDiskIs(root: Path, content: Bytes, key: string)
    ensures !Vacant(AgentDisk(root, content), AgentDirectory(root))
    ensures Vacant(AgentDisk(root, content), BackupPath(root, "stream", "session", key))
  {
    assert Within(AgentDirectory(root), AgentDirectory(root) + ["save"]);
    assert |BackupPath(root, "stream", "session", key)| > |AgentDirectory(root) + ["save"]|;
  }

  /** With the backup, everything is still in the agent's directory. */
  lemma BackupStaysInside(root: Path, content: Bytes, key: string, tree: Disk)
    ensures forall p | p in Graft(AgentDisk(root, content), BackupPath(root, "stream", "session", key), tree) ::
              Within(AgentDirectory(root), p)
  {
    var backup := BackupPath(root, "stream", "session", key);
    AgentDirectoryIs(root, key);
    forall p | p in Graft(AgentDisk(root, content), backup, tree) ensures Within(AgentDirectory(root), p) {
      GraftAt(AgentDisk(root, content), backup, tree, p);
      if Within(backup, p) { assert p == backup + p[|backup|..]; }
    }
  }

  lemma FlawlessInstalls(root: Path, before: Bytes, next: Bytes)
    ensures Ending(AgentDisk(root, before), BackupPath(root, "stream", "session", "k"), OneFile(before), OneFile(next),
                   AgentDirectory(root), true, false, Flawless(before, next)) == Installed
  {
    var target, fate := AgentDirectory(root), Flawless(before, next);
    var d1 := BackedUp(AgentDisk(root, before), BackupPath(root, "stream", "session", "k"), OneFile(before), true,
                       fate);
    AgentDirectoryIs(root, "k");
    AgentDiskIs(root, before, "k");
    FlawlessIsFaithful(before);
    FlawlessIsFaithful(next);
    BackupStaysInside(root, before, "k", Left(fate.backup, OneFile(before), false));
    OutsideIsVacant(d1, root, StagePath(target, "k"));
    OutsideIsVacant(d1, root, PreviousPath(target, "k"));
    InstallsIff(AgentDisk(root, before), BackupPath(root, "stream", "session", "k"), OneFile(before), OneFile(next),
                target, true, false, fate);
  }

  /** The installed tree has no room for the backup. */
  lemma BackupIsNotListed(root: Path, key: string, disk: Disk, next: Bytes)
    requires OnlyListed(disk, AgentDirectory(root), OneFile(next), false)
    ensures BackupPath(root, "stream", "session", key) + ["save"] !in disk
  {
    var file := BackupPath(root, "stream", "session", key) + ["save"];
    AgentDirectoryIs(root, key);
    var rest := file[|AgentDirectory(root)|..];
    assert AgentDirectory(root) + rest == file;
    assert |rest| > |["save"]| && Candidate([], OneFile(next)[0], false) == ["save"];
    assert Listed(OneFile(next), false) == {["save"]};
  }

  /** An install in which everything works, and after which the verified backup is gone. */
  method BackupIsLost(root: Path, before: Bytes, next: Bytes)
    returns (r: Outcome, volume: Volume, ghost backup: Path, ghost since: seq<Disk>)
    ensures r == Installed && backup == BackupPath(root, "stream", "session", "k")
    ensures since != [] && !KeptThroughout(since, backup, OneFile(before))
    ensures backup + ["save"] !in volume.disk
  {
    volume := new Volume(AgentDisk(root, before));
    FlawlessInstalls(root, before, next);
    AgentDiskIs(root, before, "k");
    ghost var earlier, place;
    r, backup, earlier, since, place :=
      volume.InstallDownloadedSave(root, "stream", "session", OneFile(before), OneFile(next), AgentDirectory(root),
                                   true, false,
                                   Flawless(before, next));
    assert Within(AgentDirectory(root), backup) by {
      AgentDirectoryIs(root, "k");
      assert backup + [] == backup;
    }
    BackupIsNotListed(root, "k", volume.disk, next);
  }
}
