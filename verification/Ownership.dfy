/** The ownership ledger a build publishes and the next plan reads back. */
module Ownership {
  import opened Wrappers
  import opened Storage
  import opened Planner
  import opened PlanProperties
  import opened Builder
  import opened BuilderProperties

  datatype FileRecord = FileRecord(edition: string, target: Path, size: nat, sha: Digest)

  datatype ManagedRecord = ManagedRecord(path: Path, size: nat, sha: Digest)

  datatype Manifest = Manifest(mode: Mode, files: seq<FileRecord>, managed: seq<Path>, records: seq<ManagedRecord>)

  /** One record for every file that was synchronised, in order. */
  function FileRecords(steps: seq<Step>): seq<FileRecord> {
    if steps == [] then []
    else
      var s := steps[|steps| - 1];
      FileRecords(steps[..|steps| - 1]) +
      (if s.Sync? then [FileRecord(s.edition, s.path, |s.source.bytes|, Sha256(s.source.bytes))] else [])
  }

  /** One record for every managed path that can be hashed, except the manifest itself. */
  function Records(tree: Tree, managed: seq<Path>): seq<ManagedRecord> {
    if managed == [] then []
    else
      var p := managed[|managed| - 1];
      Records(tree, managed[..|managed| - 1]) +
      (if p != MANIFEST && p in tree then [ManagedRecord(p, |tree[p].bytes|, Sha256(tree[p].bytes))] else [])
  }

  function OwnFiles(files: seq<FileRecord>): Ledger {
    if files == [] then map[]
    else OwnFiles(files[..|files| - 1])[files[|files| - 1].target := files[|files| - 1].sha]
  }

  function OwnManaged(owned: Ledger, managed: seq<Path>): Ledger {
    if managed == [] then owned
    else
      var before := OwnManaged(owned, managed[..|managed| - 1]);
      var p := managed[|managed| - 1];
      if p in before then before else before[p := Blank]
  }

  function OwnRecords(owned: Ledger, records: seq<ManagedRecord>): Ledger {
    if records == [] then owned
    else OwnRecords(owned, records[..|records| - 1])[records[|records| - 1].path := records[|records| - 1].sha]
  }

  function Load(m: Manifest): Ledger {
    OwnRecords(OwnManaged(if m.mode.Referencing? then map[] else OwnFiles(m.files), m.managed), m.records)
  }

  /** Position of the last record of a path, of the last file at a path. */
  predicate LastRecord(records: seq<ManagedRecord>, q: Path, i: nat) {
    i < |records| && records[i].path == q && forall j | i < j < |records| :: records[j].path != q
  }

  predicate LastFile(files: seq<FileRecord>, q: Path, i: nat) {
    i < |files| && files[i].target == q && forall j | i < j < |files| :: files[j].target != q
  }

  lemma {:induction false} OwnFilesMean(files: seq<FileRecord>, q: Path)
    ensures q in OwnFiles(files) <==> exists i: nat :: LastFile(files, q, i)
    ensures forall i: nat | LastFile(files, q, i) :: OwnFiles(files)[q] == files[i].sha
  {
    if files != [] {
      var n := |files| - 1;
      OwnFilesMean(files[..n], q);
      if files[n].target == q {
        assert LastFile(files, q, n);
      } else {
        assert forall i: nat :: LastFile(files, q, i) <==> LastFile(files[..n], q, i);
      }
    }
  }

  lemma {:induction false} OwnManagedMeans(owned: Ledger, managed: seq<Path>, q: Path)
    ensures q in OwnManaged(owned, managed) <==> q in owned || q in managed
    ensures q in owned ==> OwnManaged(owned, managed)[q] == owned[q]
    ensures q in managed && q !in owned ==> OwnManaged(owned, managed)[q] == Blank
  {
    if managed != [] {
      var n := |managed| - 1;
      OwnManagedMeans(owned, managed[..n], q);
      assert managed == managed[..n] + [managed[n]];
    }
  }

  lemma {:induction false} OwnRecordsMean(owned: Ledger, records: seq<ManagedRecord>, q: Path)
    ensures q in OwnRecords(owned, records) <==> q in owned || exists i: nat :: LastRecord(records, q, i)
    ensures forall i: nat | LastRecord(records, q, i) :: OwnRecords(owned, records)[q] == records[i].sha
    ensures q in owned && (forall i | 0 <= i < |records| :: records[i].path != q) ==>
              OwnRecords(owned, records)[q] == owned[q]
  {
    if records != [] {
      var n := |records| - 1;
      OwnRecordsMean(owned, records[..n], q);
      if records[n].path == q {
        assert LastRecord(records, q, n);
      } else {
        assert forall i: nat :: LastRecord(records, q, i) <==> LastRecord(records[..n], q, i);
      }
    }
  }

  /** Who owns a path: a managed record with its digest, else a file with its own unless the manifest
      only references files, else a managed path without one. */
  lemma LoadMeans(m: Manifest, q: Path)
    ensures forall i: nat | LastRecord(m.records, q, i) :: q in Load(m) && Load(m)[q] == m.records[i].sha
    ensures (forall i | 0 <= i < |m.records| :: m.records[i].path != q) ==>
              && (forall i: nat | LastFile(m.files, q, i) && m.mode != Referencing ::
                    q in Load(m) && Load(m)[q] == m.files[i].sha)
              && (m.mode == Referencing || (forall i | 0 <= i < |m.files| :: m.files[i].target != q) ==>
                    if q in m.managed then q in Load(m) && Load(m)[q] == Blank else q !in Load(m))
  {
    var files: Ledger := if m.mode.Referencing? then map[] else OwnFiles(m.files);
    OwnFilesMean(m.files, q);
    OwnManagedMeans(files, m.managed, q);
    OwnRecordsMean(OwnManaged(files, m.managed), m.records, q);
  }

  /** What is found where the manifest should be. */
  datatype ManifestFile = Absent | Invalid | Present(manifest: Manifest)

  /** loadManagedTargets: without a manifest nothing is owned, an invalid one is refused. */
  method LoadManagedTargets(file: ManifestFile) returns (r: Option<(Ledger, bool)>)
    ensures r == match file
                 case Absent => Some((map[], false))
                 case Invalid => None
                 case Present(m) => Some((Load(m), true))
  {
    if file.Absent? { return Some((map[], false)); }
    if file.Invalid? { return None; }
    var owned := LoadLedger(file.manifest);
    return Some((owned, true));
  }

  method LoadLedger(m: Manifest) returns (owned: Ledger)
    ensures owned == Load(m)
  {
    owned := map[];
    if !m.mode.Referencing? {
      for i := 0 to |m.files|
        invariant owned == OwnFiles(m.files[..i])
      {
        assert m.files[..i + 1][..i] == m.files[..i];
        owned := owned[m.files[i].target := m.files[i].sha];
      }
      assert m.files[..|m.files|] == m.files;
    }
    ghost var files := owned;
    for i := 0 to |m.managed|
      invariant owned == OwnManaged(files, m.managed[..i])
    {
      assert m.managed[..i + 1][..i] == m.managed[..i];
      if m.managed[i] !in owned {
        owned := owned[m.managed[i] := Blank];
      }
    }
    assert m.managed[..|m.managed|] == m.managed;
    ghost var managed := owned;
    for i := 0 to |m.records|
      invariant owned == OwnRecords(managed, m.records[..i])
    {
      assert m.records[..i + 1][..i] == m.records[..i];
      owned := owned[m.records[i].path := m.records[i].sha];
    }
    assert m.records[..|m.records|] == m.records;
  }

  /** What the last record says about a path wins over what is only managed, and
      that over what a file record says. */
  lemma {:induction false} LoadedRecord(tree: Tree, owned: Ledger, managed: seq<Path>, p: Path)
    ensures var l := OwnRecords(owned, Records(tree, managed));
            if p in managed && p != MANIFEST && p in tree then p in l && l[p] == Sha256(tree[p].bytes)
            else (p in l <==> p in owned) && (p in l ==> l[p] == owned[p])
  {
    if managed != [] {
      var n := |managed| - 1;
      LoadedRecord(tree, owned, managed[..n], p);
      var before := Records(tree, managed[..n]);
      var all := Records(tree, managed);
      if |all| > |before| {
        assert all[..|before|] == before;
      } else {
        assert all == before;
      }
      assert managed == managed[..n] + [managed[n]];
    }
  }

  lemma {:induction false} LoadedManaged(owned: Ledger, managed: seq<Path>, p: Path)
    ensures var l := OwnManaged(owned, managed);
            && (p in l <==> p in owned || p in managed)
            && (p in l ==> l[p] == if p in owned then owned[p] else Blank)
  {
    if managed != [] {
      LoadedManaged(owned, managed[..|managed| - 1], p);
      assert managed == managed[..|managed| - 1] + [managed[|managed| - 1]];
    }
  }

  /** The content of the last synchronisation of a path. */
  function LastSync(steps: seq<Step>, p: Path): Option<Bytes> {
    if steps == [] then None
    else
      var s := steps[|steps| - 1];
      if s.Sync? && s.path == p then Some(s.source.bytes) else LastSync(steps[..|steps| - 1], p)
  }

  lemma OwnFilesNext(files: seq<FileRecord>, r: FileRecord)
    ensures OwnFiles(files + [r]) == OwnFiles(files)[r.target := r.sha]
  {
    assert (files + [r])[..|files|] == files;
  }

  lemma {:induction false} LoadedFile(steps: seq<Step>, p: Path)
    ensures var l := OwnFiles(FileRecords(steps));
            && (p in l <==> LastSync(steps, p).Some?)
            && (p in l ==> l[p] == Sha256(LastSync(steps, p).value))
  {
    if steps != [] {
      var n := |steps| - 1;
      LoadedFile(steps[..n], p);
      var before, s := FileRecords(steps[..n]), steps[n];
      if s.Sync? {
        OwnFilesNext(before, FileRecord(s.edition, s.path, |s.source.bytes|, Sha256(s.source.bytes)));
      } else {
        assert FileRecords(steps) == before;
      }
    }
  }

  /** When only files are written at a path, its last write is its last synchronisation. */
  lemma {:induction false} LastSyncIsLast(steps: seq<Step>, p: Path)
    requires forall s | s in steps && s.path == p :: s.Sync?
    ensures LastSync(steps, p) == LastContent(steps, p)
  {
    if steps != [] {
      assert steps == steps[..|steps| - 1] + [steps[|steps| - 1]];
      LastSyncIsLast(steps[..|steps| - 1], p);
    }
  }
}
