/** Snapshot before a build, restore after a failed one (internal/bundler/recovery.go). */
module Recovery {
  import opened Storage
  import opened Planner
  import opened PlanProperties

  datatype Entry = Entry(path: Path, existed: bool, sha: Digest, size: nat, mode: nat)

  /** What a disk holds below a root, by relative path. */
  function Below(disk: Tree, root: Path): Tree {
    map q | q in (set p | p in disk && Within(root, p) :: p[|root|..]) && root + q in disk :: disk[root + q]
  }

  /** ... is exactly this tree, when both hold the same file at every relative path. */
  lemma BelowIs(disk: Tree, root: Path, tree: Tree)
    requires forall q: Path :: (q in tree <==> root + q in disk) && (q in tree ==> tree[q] == disk[root + q])
    ensures Below(disk, root) == tree
  {
    forall q ensures q in Below(disk, root) <==> q in tree { BelowHas(disk, root, q); }
  }

  lemma BelowHas(disk: Tree, root: Path, q: Path)
    ensures q in Below(disk, root) <==> root + q in disk
  {
    if root + q in disk {
      assert Within(root, root + q) && (root + q)[|root|..] == q;
    }
  }

  lemma OtherRoot(root: Path, other: Path, p: Path, q: Path)
    requires !Within(root, other) && !Within(other, root)
    ensures root + p != other + q
  {
    assert Within(root, root + p) && Within(other, other + q);
    if root + p == other + q { PrefixesCompare(root, other, root + p); }
  }

  lemma SameRoot(root: Path, p: Path, q: Path)
    ensures root + p == root + q <==> p == q
  {
    assert (root + p)[|root|..] == p && (root + q)[|root|..] == q;
  }

  /** The disks differ at most in the file at `x`. */
  ghost predicate DiffersAt(before: Tree, after: Tree, x: Path) {
    forall y | y != x :: (y in after <==> y in before) && (y in after ==> after[y] == before[y])
  }

  lemma HereFollows(before: Tree, after: Tree, root: Path, p: Path)
    requires DiffersAt(before, after, root + p)
    ensures Below(after, root) ==
              if root + p in after then Below(before, root)[p := after[root + p]] else Below(before, root) - {p}
  {
    var tree := Below(before, root);
    var tree' := if root + p in after then tree[p := after[root + p]] else tree - {p};
    forall q: Path ensures (q in tree' <==> root + q in after) && (q in tree' ==> tree'[q] == after[root + q]) {
      BelowHas(before, root, q);
      SameRoot(root, q, p);
    }
    BelowIs(after, root, tree');
  }

  lemma ElsewhereIsKept(before: Tree, after: Tree, root: Path, other: Path, p: Path)
    requires DiffersAt(before, after, root + p) && !Within(root, other) && !Within(other, root)
    ensures Below(after, other) == Below(before, other)
  {
    var tree := Below(before, other);
    forall q: Path ensures (q in tree <==> other + q in after) && (q in tree ==> tree[q] == after[other + q]) {
      BelowHas(before, other, q);
      OtherRoot(root, other, p, q);
    }
    BelowIs(after, other, tree);
  }

  /** Why two trees model one disk: when neither root contains the other, as
      `Snapshot.Prepare` checks, writing or removing a file below one root changes
      that file of its tree and nothing of the other tree. */
  lemma TreesAreApart(before: Tree, after: Tree, root: Path, other: Path, p: Path)
    requires DiffersAt(before, after, root + p) && !Within(root, other) && !Within(other, root)
    ensures root + p in after ==> Below(after, root) == Below(before, root)[p := after[root + p]]
    ensures root + p !in after ==> Below(after, root) == Below(before, root) - {p}
    ensures Below(after, other) == Below(before, other)
  {
    HereFollows(before, after, root, p);
    ElsewhereIsKept(before, after, root, other, p);
  }

  /** The output tree and the recovery tree of one disk (see `TreesAreApart`). */
  class Disk {
    var output: Tree
    var recovery: Tree

    constructor (output: Tree, recovery: Tree)
      ensures this.output == output && this.recovery == recovery
    {
      this.output, this.recovery := output, recovery;
    }
  }

  function Targets(items: seq<Item>): set<Path> {
    set i | i in items && Writes(i.action) :: i.target
  }

  /** A snapshot can be taken: the target is absent or a regular file, below real directories. */
  predicate Snapshotable(tree: Tree, p: Path) {
    !Reserved(p) && Writable(tree, p)
  }

  function Saved(tree: Tree, paths: seq<Path>): map<Path, File> {
    map p | p in paths && p in tree :: tree[p]
  }

  /** The rollback of one target when its own file operations succeed: put the
      saved file back, or remove a file that was not there before. A parent that is
      no directory, or a directory in the target's place, is left alone. */
  function RestoreOne(tree: Tree, saved: map<Path, File>, p: Path): Tree {
    if !(forall q | q in tree :: !(q < p)) then tree
    else if p in saved then
      if IsDirectory(tree, p) then tree else tree[p := saved[p]]
    else tree - {p}
  }

  function RestoreAll(tree: Tree, saved: map<Path, File>, paths: seq<Path>): Tree {
    if paths == [] then tree
    else RestoreOne(RestoreAll(tree, saved, paths[..|paths| - 1]), saved, paths[|paths| - 1])
  }

  function BackupPath(root: Path, p: Path): Path {
    root + ["files"] + p
  }

  predicate NoDuplicates(paths: seq<Path>) {
    forall i, j | 0 <= i < j < |paths| :: paths[i] != paths[j]
  }

  /** Every target can be inspected and is absent or a regular file below real directories. */
  ghost predicate Inspectable(tree: Tree, targets: set<Path>, readable: Path -> bool) {
    forall p | p in targets :: readable(p) && Snapshotable(tree, p)
  }

  /** A snapshot of these targets can be taken: the roots are apart, every target can be
      inspected, and what is there can be copied to a new directory. */
  ghost predicate Preparable(output: Tree, recovery: Tree, out: Path, base: Path, name: string, targets: set<Path>,
                             readable: Path -> bool, copies: Path -> bool)
  {
    && !Within(out, base) && !Within(base, out)
    && Inspectable(output, targets, readable)
    && forall p | p in targets && p in output :: copies(p) && forall q | q in recovery :: !(base + [name] <= q)
  }

  /** What undoing one target does: everything works, its file operations fail, or only
      restoring the permission bits fails. */
  datatype UndoFate = Undoes | Fails | LosesMode

  /** A file among the parents, or a directory in the target's place. */
  predicate Obstructed(tree: Tree, e: Entry) {
    (exists q | q in tree :: q < e.path) || (IsDirectory(tree, e.path) && (e.existed || e.path !in tree))
  }

  predicate Faulted(tree: Tree, e: Entry, fate: UndoFate) {
    fate.Fails? || (fate.LosesMode? && e.existed && !Obstructed(tree, e))
  }

  class Snapshot {
    var root: Path
    var entries: seq<Entry>

    /** Entry by entry: what the tree held at the snapshotted paths. */
    ghost predicate Describes(tree: Tree, paths: seq<Path>)
      reads this
    {
      && |entries| == |paths|
      && forall i | 0 <= i < |paths| ::
           && entries[i].path == paths[i]
           && (entries[i].existed <==> paths[i] in tree)
           && (paths[i] in tree ==>
                 && entries[i].sha == Sha256(tree[paths[i]].bytes)
                 && entries[i].size == |tree[paths[i]].bytes|
                 && entries[i].mode == tree[paths[i]].mode)
    }

    /** The first `n` existing entries are copied below the snapshot root. */
    ghost predicate Backed(tree: Tree, recovery: Tree, n: nat)
      reads this
    {
      forall i | 0 <= i < n && i < |entries| && entries[i].existed ::
        entries[i].path in tree && SameFile(recovery, BackupPath(root, entries[i].path), tree[entries[i].path].bytes)
    }

    constructor ()
      ensures root == [] && entries == []
    {
      root, entries := [], [];
    }

    /** Records what the output holds at every target, each target once, in any order. */
    method Inspect(disk: Disk, items: seq<Item>, readable: Path -> bool) returns (ok: bool, ghost paths: seq<Path>)
      modifies this
      ensures ok <==> Inspectable(disk.output, Targets(items), readable)
      ensures ok <==> forall p | p in Targets(items) ::
                          && readable(p) && (p != [] ==> p[0] != ".varkiv-recovery" && p[0] != ".varkiv-backups")
                          && forall q | q in disk.output :: !(q < p) && !(p < q)
      ensures Describes(disk.output, paths)
      ensures NoDuplicates(paths) && forall p | p in paths :: Snapshotable(disk.output, p)
      ensures ok ==> (set p | p in paths) == Targets(items)
    {
      paths, entries := [], [];
      var pending := Targets(items);
      while pending != {}
        invariant (set p | p in paths) + pending == Targets(items) && (set p | p in paths) !! pending
        invariant NoDuplicates(paths) && forall p | p in paths :: readable(p) && Snapshotable(disk.output, p)
        invariant Describes(disk.output, paths)
        decreases pending
      {
        var p :| p in pending;
        if !readable(p) || !Snapshotable(disk.output, p) { return false, paths; }
        pending := pending - {p};
        paths := paths + [p];
        if p in disk.output {
          var f := disk.output[p];
          entries := entries + [Entry(p, true, Sha256(f.bytes), |f.bytes|, f.mode)];
        } else {
          entries := entries + [Entry(p, false, Blank, 0, 0)];
        }
      }
      ok := true;
    }

    /** Copies every existing target below the snapshot root, which holds nothing yet. */
    method CopyAll(disk: Disk, ghost paths: seq<Path>, copies: Path -> bool) returns (ok: bool)
      requires NoDuplicates(paths) && Describes(disk.output, paths)
      modifies disk`recovery
      ensures ok <==> forall p | p in paths && p in disk.output :: copies(p)
      ensures ok ==> Backed(disk.output, disk.recovery, |paths|)
      ensures forall q | q in old(disk.recovery) && !(root <= q) ::
                q in disk.recovery && disk.recovery[q] == old(disk.recovery[q])
    {
      for i := 0 to |entries|
        invariant Backed(disk.output, disk.recovery, i)
        invariant forall j | 0 <= j < i && paths[j] in disk.output :: copies(paths[j])
        invariant forall q | q in old(disk.recovery) && !(root <= q) ::
                    q in disk.recovery && disk.recovery[q] == old(disk.recovery[q])
      {
        if entries[i].existed {
          if !copies(entries[i].path) {
            assert paths[i] in paths && !copies(paths[i]);
            disk.recovery := map q | q in disk.recovery && !(root <= q) :: disk.recovery[q];
            return false;
          }
          var target := BackupPath(root, entries[i].path);
          forall j | 0 <= j < i ensures BackupPath(root, entries[j].path) != target {
            assert BackupPath(root, entries[j].path)[|root| + 1..] == paths[j];
            assert target[|root| + 1..] == paths[i];
          }
          disk.recovery := disk.recovery[target := File(disk.output[entries[i].path].bytes, 384)];
        }
      }
      ok := true;
    }

    /** prepareBuildRecovery; the snapshot directory `base + [name]` must be new.
        Nothing in the output changes. */
    method Prepare(disk: Disk, out: Path, base: Path, name: string, items: seq<Item>, readable: Path -> bool,
                   copies: Path -> bool)
      returns (ok: bool, ghost paths: seq<Path>)
      modifies this, disk`recovery
      ensures ok <==> Preparable(disk.output, old(disk.recovery), out, base, name, Targets(items), readable, copies)
      ensures ok ==> NoDuplicates(paths) && (set p | p in paths) == Targets(items)
      ensures ok ==> forall p | p in paths :: Snapshotable(disk.output, p)
      ensures ok ==> Describes(disk.output, paths) && Backed(disk.output, disk.recovery, |paths|)
      ensures forall q | q in old(disk.recovery) && !(base + [name] <= q) ::
                q in disk.recovery && disk.recovery[q] == old(disk.recovery[q])
    {
      if Within(out, base) || Within(base, out) { return false, []; }
      ok, paths := Inspect(disk, items, readable);
      if !ok { return; }
      assert forall p :: p in paths <==> p in Targets(items) by {
        assert forall p :: p in paths <==> p in (set q | q in paths);
      }
      assert forall i | 0 <= i < |paths| :: entries[i].existed <==> paths[i] in disk.output;
      if forall e | e in entries :: !e.existed {
        assert forall p | p in paths :: p !in disk.output;
        return;
      }
      if exists q | q in disk.recovery :: base + [name] <= q { return false, paths; }
      root := base + [name];
      ok := CopyAll(disk, paths, copies);
    }

    /** The rollback of one entry. A failure is counted and skipped over; without one the
        effect is that of `RestoreOne`. */
    method RestoreEntry(disk: Disk, e: Entry, fate: UndoFate, ghost saved: map<Path, File>) returns (errors: nat)
      requires e.existed <==> e.path in saved
      requires e.existed ==> saved[e.path].mode == e.mode &&
                             SameFile(disk.recovery, BackupPath(root, e.path), saved[e.path].bytes)
      modifies disk`output
      ensures errors == if Faulted(old(disk.output), e, fate) || Obstructed(old(disk.output), e) then 1 else 0
      ensures !Faulted(old(disk.output), e, fate) ==> disk.output == RestoreOne(old(disk.output), saved, e.path)
      ensures fate.Undoes? && (forall q | q in old(disk.output) :: !(q < e.path) && !(e.path < q)) ==>
                && errors == 0 && (e.path in disk.output <==> e.existed)
                && (e.existed ==> disk.output[e.path] == File(saved[e.path].bytes, e.mode))
      ensures fate.Fails? ==> errors == 1 && disk.output == old(disk.output)
      ensures forall p | p != e.path ::
                (p in disk.output <==> p in old(disk.output))
                  && (p in disk.output ==> disk.output[p] == old(disk.output[p]))
    {
      if fate.Fails? { return 1; }
      if exists q | q in disk.output :: q < e.path { return 1; }
      if e.existed {
        if IsDirectory(disk.output, e.path) { return 1; }
        var copy := disk.recovery[BackupPath(root, e.path)];
        disk.output := disk.output[e.path := File(copy.bytes, 384)];
        if fate.LosesMode? { return 1; }
        disk.output := disk.output[e.path := File(copy.bytes, e.mode)];
        return 0;
      }
      errors := if IsDirectory(disk.output, e.path) && e.path !in disk.output then 1 else 0;
      disk.output := disk.output - {e.path};
    }

    /** restore. Without a failing file operation the output becomes `RestoreAll` of what it was. */
    method Restore(disk: Disk, fates: Path -> UndoFate, ghost before: Tree, ghost paths: seq<Path>)
      returns (errors: nat, ghost faulted: bool)
      requires NoDuplicates(paths) && Describes(before, paths) && Backed(before, disk.recovery, |paths|)
      modifies disk`output
      ensures faulted ==> errors > 0
      ensures (forall p | p in paths :: fates(p).Undoes?) ==> !faulted
      ensures !faulted ==> disk.output == RestoreAll(old(disk.output), Saved(before, paths), paths)
      ensures forall p | p !in paths ::
                (p in disk.output <==> p in old(disk.output))
                  && (p in disk.output ==> disk.output[p] == old(disk.output[p]))
    {
      errors, faulted := 0, false;
      for i := 0 to |entries|
        invariant faulted ==> errors > 0
        invariant (forall p | p in paths :: fates(p).Undoes?) ==> !faulted
        invariant !faulted ==> disk.output == RestoreAll(old(disk.output), Saved(before, paths), paths[..i])
        invariant forall p | p !in paths ::
                    (p in disk.output <==> p in old(disk.output))
                      && (p in disk.output ==> disk.output[p] == old(disk.output[p]))
      {
        assert paths[..i + 1][..i] == paths[..i] && paths[..i + 1][i] == entries[i].path;
        ghost var fault := Faulted(disk.output, entries[i], fates(entries[i].path));
        assert entries[i].path in paths;
        var more := RestoreEntry(disk, entries[i], fates(entries[i].path), Saved(before, paths));
        errors, faulted := errors + more, faulted || fault;
      }
      assert paths[..|paths|] == paths;
    }
  }
}
