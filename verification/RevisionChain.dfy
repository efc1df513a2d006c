/** Adding save revisions (internal/catalog/save_store.go). */
module RevisionChain {
  import opened Encodings
  import opened Text
  import opened Wrappers

  newtype int64 = x: int | -0x8000_0000_0000_0000 <= x < 0x8000_0000_0000_0000

  const MAX_BYTES: int64 := 240 * 1024 * 1024
  const MAX_FILES := 4096

  datatype NewFile = NewFile(logicalPath: string, checksum: string, size: int64, blobPath: string)

  /** portablepath's cleaning of a logical path, which may refuse it. */
  type Cleaner = string -> Option<string>

  /*************** the files of one revision ***************/

  /** addSaveRevisionSize: every intermediate value fits in 64 bits. */
  function AddSize(total: int64, size: int64): (r: Option<int64>)
    ensures r.Some? <==> 0 <= total && 0 <= size && total as int + size as int <= MAX_BYTES as int
    ensures r.Some? ==> r.value as int == total as int + size as int
  {
    if total < 0 || size < 0 || total > MAX_BYTES || size > MAX_BYTES - total then None else Some(total + size)
  }

  function Sum(files: seq<NewFile>): int {
    if files == [] then 0 else Sum(files[..|files| - 1]) + files[|files| - 1].size as int
  }

  predicate FileAcceptable(f: NewFile, clean: Cleaner) {
    clean(f.logicalPath).Some? && !Blank(f.checksum) && !Blank(f.blobPath) && f.size >= 0
  }

  /** What one revision may consist of. */
  ghost predicate Acceptable(files: seq<NewFile>, clean: Cleaner) {
    && (forall i | 0 <= i < |files| :: FileAcceptable(files[i], clean))
    && PathsDistinct(files, clean)
    && Sum(files) <= MAX_BYTES as int
  }

  /** The files as they are stored, with cleaned paths. */
  ghost predicate Cleaned(files: seq<NewFile>, clean: Cleaner, stored: seq<NewFile>) {
    |stored| == |files| && forall i | 0 <= i < |files| :: clean(files[i].logicalPath) == Some(stored[i].logicalPath)
                                                          && stored[i] ==
                                                             files[i].(logicalPath := stored[i].logicalPath)
  }

  lemma {:induction false} SumGrows(files: seq<NewFile>, clean: Cleaner, n: nat)
    requires n <= |files| && forall i | 0 <= i < |files| :: FileAcceptable(files[i], clean)
    ensures 0 <= Sum(files[..n]) <= Sum(files)
    decreases |files|
  {
    if n == |files| {
      assert files[..n] == files;
      if files != [] { SumGrows(files[..n - 1], clean, 0); }
    } else {
      SumGrows(files[..|files| - 1], clean, n);
      assert files[..|files| - 1][..n] == files[..n];
    }
  }

  ghost predicate PathsDistinct(files: seq<NewFile>, clean: Cleaner) {
    forall i, j | 0 <= i < j < |files| :: clean(files[i].logicalPath) != clean(files[j].logicalPath)
  }

  lemma PathsDistinctNext(files: seq<NewFile>, f: NewFile, clean: Cleaner)
    requires PathsDistinct(files, clean)
    ensures PathsDistinct(files + [f], clean) <==>
              forall i | 0 <= i < |files| :: clean(files[i].logicalPath) != clean(f.logicalPath)
  {
    var more := files + [f];
    assert more[|files|] == f && forall i | 0 <= i < |files| :: more[i] == files[i];
  }

  lemma FilesAcceptableNext(files: seq<NewFile>, f: NewFile, clean: Cleaner)
    requires forall i | 0 <= i < |files| :: FileAcceptable(files[i], clean)
    ensures (forall i | 0 <= i < |files + [f]| :: FileAcceptable((files + [f])[i], clean)) <==> FileAcceptable(f, clean)
  {
    assert (files + [f])[|files|] == f;
  }

  lemma AcceptableNext(files: seq<NewFile>, n: nat, clean: Cleaner)
    requires n < |files| && Acceptable(files[..n], clean)
    ensures Acceptable(files[..n + 1], clean) <==>
              && FileAcceptable(files[n], clean)
              && (forall i | 0 <= i < n :: clean(files[i].logicalPath) != clean(files[n].logicalPath))
              && Sum(files[..n]) + files[n].size as int <= MAX_BYTES as int
    ensures Sum(files[..n + 1]) == Sum(files[..n]) + files[n].size as int
  {
    var before := files[..n];
    assert files[..n + 1] == before + [files[n]] && (before + [files[n]])[..n] == before;
    assert forall i | 0 <= i < n :: before[i] == files[i];
    PathsDistinctNext(before, files[n], clean);
    FilesAcceptableNext(before, files[n], clean);
  }

  lemma PrefixAcceptable(files: seq<NewFile>, n: nat, clean: Cleaner)
    requires n <= |files|
    ensures Acceptable(files, clean) ==> Acceptable(files[..n], clean)
  {
    if Acceptable(files, clean) { SumGrows(files, clean, n); }
  }

  function Paths(stored: seq<NewFile>): set<string> {
    set f | f in stored :: f.logicalPath
  }

  lemma PathsNext(stored: seq<NewFile>, f: NewFile)
    ensures Paths(stored + [f]) == Paths(stored) + {f.logicalPath}
  {
    assert forall g :: g in stored + [f] <==> g in stored || g == f;
  }

  lemma SeenMeans(files: seq<NewFile>, clean: Cleaner, stored: seq<NewFile>, path: string)
    requires Cleaned(files, clean, stored)
    ensures path in Paths(stored) <==> exists i :: 0 <= i < |files| && clean(files[i].logicalPath) == Some(path)
  {
    if i :| 0 <= i < |files| && clean(files[i].logicalPath) == Some(path) {
      assert stored[i] in stored && stored[i].logicalPath == path;
    }
    if path in Paths(stored) {
      var f :| f in stored && f.logicalPath == path;
      var i :| 0 <= i < |stored| && stored[i] == f;
      assert clean(files[i].logicalPath) == Some(path);
    }
  }

  /** One round of the validation loop. */
  method CheckFile(f: NewFile, clean: Cleaner, seen: set<string>, total: int64) returns (r: Option<(NewFile, int64)>)
    requires total >= 0
    ensures r.Some? <==>
              FileAcceptable(f, clean) && clean(f.logicalPath).value !in seen
                && total as int + f.size as int <= MAX_BYTES as int
    ensures r.Some? ==>
              r.value.0 == f.(logicalPath := clean(f.logicalPath).value)
                && r.value.1 as int == total as int + f.size as int
  {
    var path := clean(f.logicalPath);
    if path.None? || path.value in seen { return None; }
    if Blank(f.checksum) || Blank(f.blobPath) || f.size < 0 { return None; }
    var next := AddSize(total, f.size);
    if next.None? { return None; }
    return Some((f.(logicalPath := path.value), next.value));
  }

  lemma CleanedNext(files: seq<NewFile>, n: nat, clean: Cleaner, stored: seq<NewFile>, f: NewFile)
    requires n < |files| && Cleaned(files[..n], clean, stored) && clean(files[n].logicalPath).Some?
    requires f == files[n].(logicalPath := clean(files[n].logicalPath).value)
    ensures Cleaned(files[..n + 1], clean, stored + [f])
  {
  }

  /** The loop after `n` files. */
  ghost predicate Progress(files: seq<NewFile>, n: nat, clean: Cleaner, stored: seq<NewFile>, seen: set<string>,
                           total: int64)
    requires n <= |files|
  {
    && Acceptable(files[..n], clean) && Cleaned(files[..n], clean, stored)
    && seen == Paths(stored) && 0 <= total && total as int == Sum(files[..n])
  }

  /** A file that passes takes the loop on, one that does not makes the whole list unacceptable. */
  lemma Proceed(files: seq<NewFile>, n: nat, clean: Cleaner, stored: seq<NewFile>, seen: set<string>, total: int64,
                path: string)
    requires n < |files| && Progress(files, n, clean, stored, seen, total) && clean(files[n].logicalPath) == Some(path)
    ensures Acceptable(files[..n + 1], clean) <==>
              FileAcceptable(files[n], clean) && path !in seen
                && total as int + files[n].size as int <= MAX_BYTES as int
    ensures Acceptable(files[..n + 1], clean) ==>
              Progress(files, n + 1, clean, stored + [files[n].(logicalPath := path)], seen + {path},
                       total + files[n].size)
  {
    AcceptableNext(files, n, clean);
    SeenMeans(files[..n], clean, stored, path);
    CleanedNext(files, n, clean, stored, files[n].(logicalPath := path));
    PathsNext(stored, files[n].(logicalPath := path));
  }

  lemma Unacceptable(files: seq<NewFile>, n: nat, clean: Cleaner)
    requires n < |files| && !(Acceptable(files[..n + 1], clean) && FileAcceptable(files[n], clean))
    ensures !Acceptable(files, clean)
  {
    PrefixAcceptable(files, n + 1, clean);
  }

  /** The validation loop: cleans paths in place and keeps a running total that never
      leaves its range. */
  method CheckFiles(files: seq<NewFile>, clean: Cleaner) returns (r: Option<(seq<NewFile>, int64)>)
    ensures r.Some? <==> Acceptable(files, clean)
    ensures r.Some? ==> Cleaned(files, clean, r.value.0) && r.value.1 as int == Sum(files)
  {
    var stored: seq<NewFile>, seen: set<string>, total: int64 := [], {}, 0;
    for i := 0 to |files|
      invariant Progress(files, i, clean, stored, seen, total)
    {
      var checked := CheckFile(files[i], clean, seen, total);
      if clean(files[i].logicalPath).Some? {
        Proceed(files, i, clean, stored, seen, total, clean(files[i].logicalPath).value);
      }
      if checked.None? {
        Unacceptable(files, i, clean);
        return None;
      }
      stored, seen, total := stored + [checked.value.0], seen + {checked.value.0.logicalPath}, checked.value.1;
    }
    assert files[..|files|] == files;
    return Some((stored, total));
  }

  /*************** the table ***************/

  datatype Status = Current | Superseded | Conflict | Quarantined

  /** `total` and `files` as checked; `parent` is NULL or a revision id. */
  datatype Revision = Revision(id: string, stream: string, device: string, parent: Option<string>, contentHash: string,
                               total: int, files: seq<NewFile>, status: Status)

  type Table = seq<Revision>

  /** UPDATE … SET status='superseded' WHERE stream_id=? AND status='current' */
  function Supersede(rows: Table, stream: string): Table {
    seq(|rows|, i requires 0 <= i < |rows| =>
      if rows[i].stream == stream && rows[i].status.Current? then rows[i].(status := Superseded) else rows[i])
  }

  predicate HasId(rows: Table, id: string) {
    exists i :: 0 <= i < |rows| && rows[i].id == id
  }

  /** The insert meets the primary key and the parent's foreign key; a row may be its own parent. */
  predicate Insertable(rows: Table, r: Revision) {
    !HasId(rows, r.id) && (r.parent.Some? ==> r.parent.value == r.id || HasId(rows, r.parent.value))
  }

  function Inserted(rows: Table, r: Revision): Table {
    (if r.status.Current? then Supersede(rows, r.stream) else rows) + [r]
  }

  /*************** what every insert keeps ***************/

  /** `statuses` lists the status each row was inserted with. A row inserted as
      current is superseded once its stream gets a later one. */
  predicate StatusRight(rows: Table, statuses: seq<Status>, i: nat)
    requires i < |rows| == |statuses|
  {
    rows[i].status ==
    if statuses[i].Current? && exists j :: i < j < |rows| && rows[j].stream == rows[i].stream && statuses[j].Current?
    then Superseded else statuses[i]
  }

  ghost predicate StatusesRight(rows: Table, statuses: seq<Status>) {
    |rows| == |statuses| && forall i | 0 <= i < |rows| :: StatusRight(rows, statuses, i)
  }

  ghost predicate IdsUnique(rows: Table) {
    forall i, j | 0 <= i < j < |rows| :: rows[i].id != rows[j].id
  }

  /** A parent is an earlier row or the row itself. */
  ghost predicate ParentsEarlier(rows: Table) {
    forall i | 0 <= i < |rows| && rows[i].parent.Some? :: exists j :: 0 <= j <= i && rows[j].id == rows[i].parent.value
  }

  /** The stored size is the exact sum of the stored files, within the limit. */
  ghost predicate SizesRight(rows: Table) {
    forall i | 0 <= i < |rows| :: rows[i].total == Sum(rows[i].files) <= MAX_BYTES as int && PathsDiffer(rows[i].files)
                                  && 1 <= |rows[i].files| <= MAX_FILES
  }

  predicate PathsDiffer(files: seq<NewFile>) {
    forall i, j | 0 <= i < j < |files| :: files[i].logicalPath != files[j].logicalPath
  }

  lemma InsertStatus(rows: Table, statuses: seq<Status>, r: Revision, i: nat)
    requires StatusesRight(rows, statuses) && i < |rows|
    ensures StatusRight(Inserted(rows, r), statuses + [r.status], i)
  {
    assert StatusRight(rows, statuses, i);
    var (after, all) := (Inserted(rows, r), statuses + [r.status]);
    if j :| i < j < |rows| && rows[j].stream == rows[i].stream && statuses[j].Current? {
      assert after[j].stream == after[i].stream && all[j].Current?;
    }
    if r.status.Current? && r.stream == rows[i].stream {
      assert after[|rows|].stream == after[i].stream && all[|rows|].Current?;
    }
  }

  lemma InsertStatuses(rows: Table, statuses: seq<Status>, r: Revision)
    requires StatusesRight(rows, statuses)
    ensures StatusesRight(Inserted(rows, r), statuses + [r.status])
  {
    forall i | 0 <= i < |rows| ensures StatusRight(Inserted(rows, r), statuses + [r.status], i) {
      InsertStatus(rows, statuses, r, i);
    }
  }

  lemma InsertParents(rows: Table, r: Revision)
    requires ParentsEarlier(rows) && IdsUnique(rows) && Insertable(rows, r)
    ensures ParentsEarlier(Inserted(rows, r)) && IdsUnique(Inserted(rows, r))
  {
    var after := Inserted(rows, r);
    assert forall k | 0 <= k < |rows| :: after[k].id == rows[k].id && after[k].parent == rows[k].parent;
    forall i | 0 <= i < |after| && after[i].parent.Some?
      ensures exists j :: 0 <= j <= i && after[j].id == after[i].parent.value {
      if i < |rows| {
        var j :| 0 <= j <= i && rows[j].id == rows[i].parent.value;
        assert after[j].id == after[i].parent.value;
      } else if r.parent.value == r.id {
        assert after[i].id == after[i].parent.value;
      } else {
        var j :| 0 <= j < |rows| && rows[j].id == r.parent.value;
        assert after[j].id == after[i].parent.value;
      }
    }
  }

  lemma InsertSizes(rows: Table, r: Revision)
    requires SizesRight(rows) && r.total == Sum(r.files) <= MAX_BYTES as int && PathsDiffer(r.files)
    requires 1 <= |r.files| <= MAX_FILES
    ensures SizesRight(Inserted(rows, r))
  {
    var after := Inserted(rows, r);
    forall i | 0 <= i < |after|
      ensures after[i].total == Sum(after[i].files) <= MAX_BYTES as int && PathsDiffer(after[i].files)
                                        && 1 <= |after[i].files| <= MAX_FILES
    {
      if i < |rows| { assert after[i].files == rows[i].files && after[i].total == rows[i].total; }
    }
  }

  /*************** at most one current revision ***************/

  predicate IsCurrent(rows: Table, stream: string, i: nat) {
    i < |rows| && rows[i].stream == stream && rows[i].status.Current?
  }

  /** A stream's current revision is the last one inserted as current ... */
  lemma CurrentIsLast(rows: Table, statuses: seq<Status>, stream: string, i: nat)
    requires StatusesRight(rows, statuses)
    ensures IsCurrent(rows, stream, i) <==>
              && i < |rows| && rows[i].stream == stream && statuses[i].Current?
              && forall j | i < j < |rows| && rows[j].stream == stream :: !statuses[j].Current?
  {
    if i < |rows| {
      assert StatusRight(rows, statuses, i);
    }
  }

  /** ... and the only one. */
  lemma CurrentIsUnique(rows: Table, statuses: seq<Status>, stream: string, i: nat, k: nat)
    requires StatusesRight(rows, statuses) && IsCurrent(rows, stream, i) && IsCurrent(rows, stream, k)
    ensures i == k
  {
    CurrentIsLast(rows, statuses, stream, i);
    CurrentIsLast(rows, statuses, stream, k);
  }

  /*************** the parent relation ***************/

  /** A walk from a row to its parent, to its parent's parent, and so on. */
  ghost predicate Walk(rows: Table, path: seq<int>) {
    && (forall k | 0 <= k < |path| :: 0 <= path[k] < |rows|)
    && (forall k | 0 <= k < |path| - 1 :: rows[path[k]].parent == Some(rows[path[k + 1]].id))
  }

  ghost predicate Acyclic(rows: Table) {
    forall path: seq<int> | Walk(rows, path) && |path| >= 2 :: path[0] != path[|path| - 1]
  }

  lemma ParentIndex(rows: Table, i: nat, j: nat)
    requires ParentsEarlier(rows) && IdsUnique(rows) && i < |rows| && j < |rows| && rows[i].parent == Some(rows[j].id)
    ensures j <= i
  {
    var k :| 0 <= k <= i && rows[k].id == rows[i].parent.value;
  }

  lemma WalkTail(rows: Table, path: seq<int>)
    requires Walk(rows, path) && |path| >= 2
    ensures Walk(rows, path[1..]) && rows[path[0]].parent == Some(rows[path[1]].id)
  {
  }

  lemma {:induction false} WalkGoesBack(rows: Table, path: seq<int>)
    requires ParentsEarlier(rows) && IdsUnique(rows) && Walk(rows, path) && |path| >= 2
    requires forall i | 0 <= i < |rows| :: rows[i].parent != Some(rows[i].id)
    ensures path[|path| - 1] < path[0]
    decreases |path|
  {
    WalkTail(rows, path);
    ParentIndex(rows, path[0], path[1]);
    if |path| > 2 {
      WalkGoesBack(rows, path[1..]);
    }
  }

  /** No revision is its own ancestor exactly when none was inserted as its own parent. */
  lemma AcyclicIffNoSelfParent(rows: Table)
    requires ParentsEarlier(rows) && IdsUnique(rows)
    ensures Acyclic(rows) <==> forall i | 0 <= i < |rows| :: rows[i].parent != Some(rows[i].id)
  {
    if forall i | 0 <= i < |rows| :: rows[i].parent != Some(rows[i].id) {
      forall path: seq<int> | Walk(rows, path) && |path| >= 2 ensures path[0] != path[|path| - 1] {
        WalkGoesBack(rows, path);
      }
    } else {
      var i :| 0 <= i < |rows| && rows[i].parent == Some(rows[i].id);
      assert Walk(rows, [i, i]);
    }
  }

  /*************** the store ***************/

  /** The id is taken, or the parent is neither a revision nor the new one. */
  predicate InUse(rows: Table, id: string, parent: Option<string>) {
    HasId(rows, id) || (parent.Some? && parent.value != id && !HasId(rows, parent.value))
  }

  datatype NewRevision = NewRevision(id: string, device: string, parent: string, base: string, contentHash: string,
                                     status: string,
                                     conflict: bool, files: seq<NewFile>, single: NewFile)

  datatype Error = Invalid | NoStream | Refused

  function ParseStatus(s: string): Option<Status> {
    if s == "current" then Some(Current)
    else if s == "superseded" then Some(Superseded)
    else if s == "conflict" then Some(Conflict)
    else if s == "quarantined" then Some(Quarantined)
    else None
  }

  /** The status a revision is inserted with. */
  function StatusFor(input: NewRevision): Option<Status> {
    ParseStatus(if input.status != "" then input.status else if input.conflict then "conflict" else "current")
  }

  /** A revision without a file list has the one file described in its own fields. */
  function FilesFor(input: NewRevision): seq<NewFile> {
    if input.files == [] then [input.single] else input.files
  }

  function ParentFor(input: NewRevision): Option<string> {
    var parent := if input.parent == "" then input.base else input.parent;
    if parent == "" then None else Some(parent)
  }

  predicate HasName(status: Status, s: string) {
    match status
    case Current => s == "current"
    case Superseded => s == "superseded"
    case Conflict => s == "conflict"
    case Quarantined => s == "quarantined"
  }

  /** What the input says becomes the row: an explicit parent goes before the base, an
      explicit status before the conflict flag, a list of files before a single one. */
  ghost predicate FromInput(input: NewRevision, clean: Cleaner, stream: Option<string>, newId: string, r: Revision) {
    && stream == Some(r.stream) && r.device == input.device
    && r.id == (if input.id == "" then newId else input.id)
    && (input.parent != "" ==> r.parent == Some(input.parent))
    && (input.parent == "" && input.base != "" ==> r.parent == Some(input.base))
    && (input.parent == "" && input.base == "" ==> r.parent == None)
    && (input.status != "" ==> HasName(r.status, input.status))
    && (input.status == "" ==> r.status == if input.conflict then Conflict else Current)
    && (input.files != [] ==> Cleaned(input.files, clean, r.files))
    && (input.files == [] ==> Cleaned([input.single], clean, r.files))
    && (input.contentHash != "" ==> r.contentHash == input.contentHash)
    && (input.contentHash == "" ==> exists hashed :: Lists(hashed, r.files) && r.contentHash == Preimage(hashed))
  }

  /** The same files as they are hashed. */
  ghost predicate Lists(hashed: seq<SaveFile>, files: seq<NewFile>) {
    |hashed| == |files| && forall i | 0 <= i < |files| ::
      && hashed[i].path == files[i].logicalPath && hashed[i].checksum == files[i].checksum
      && hashed[i].size == files[i].size as int
  }

  /** Files with cleaned paths of their own, checksums and blobs that are there, and sizes that
      sum up to at most 240 MiB. */
  ghost predicate FilesFit(files: seq<NewFile>, clean: Cleaner) {
    && (forall i | 0 <= i < |files| ::
          && clean(files[i].logicalPath).Some? && files[i].size >= 0
          && TrimSpace(files[i].checksum) != "" && TrimSpace(files[i].blobPath) != "")
    && (forall i, j | 0 <= i < j < |files| :: clean(files[i].logicalPath) != clean(files[j].logicalPath))
    && Sum(files) <= 251658240
  }

  lemma FilesFitIff(files: seq<NewFile>, clean: Cleaner)
    ensures FilesFit(files, clean) <==> Acceptable(files, clean)
  {
    assert MAX_BYTES as int == 251658240;
    if FilesFit(files, clean) {
      assert forall i | 0 <= i < |files| :: FileAcceptable(files[i], clean);
    }
    if Acceptable(files, clean) {
      forall i | 0 <= i < |files|
        ensures && clean(files[i].logicalPath).Some? && files[i].size >= 0
                && TrimSpace(files[i].checksum) != "" && TrimSpace(files[i].blobPath) != ""
      {
        assert FileAcceptable(files[i], clean);
      }
    }
  }

  /** What may become a revision: a device, a known status, and at most 4096 files that fit. */
  ghost predicate Submittable(input: NewRevision, clean: Cleaner) {
    var files := if input.files == [] then [input.single] else input.files;
    && input.device != "" && |files| <= 4096 && FilesFit(files, clean)
    && input.status in {"", "current", "superseded", "conflict", "quarantined"}
  }

  lemma SubmittableIff(input: NewRevision, clean: Cleaner)
    ensures Submittable(input, clean) <==>
              && input.device != "" && |FilesFor(input)| <= MAX_FILES && Acceptable(FilesFor(input), clean)
              && StatusFor(input).Some?
  {
    FilesFitIff(FilesFor(input), clean);
    StatusKnown(input);
  }

  lemma StatusKnown(input: NewRevision)
    ensures StatusFor(input).Some? <==> input.status in {"", "current", "superseded", "conflict", "quarantined"}
    ensures StatusFor(input).Some? && input.status != "" ==> HasName(StatusFor(input).value, input.status)
    ensures input.status == "" ==> StatusFor(input) == Some(if input.conflict then Conflict else Current)
  {
    assert |"current"| == 7 && |"superseded"| == 10 && |"conflict"| == 8 && |"quarantined"| == 11;
  }

  function SaveFiles(files: seq<NewFile>): seq<SaveFile>
    requires forall i | 0 <= i < |files| :: files[i].size >= 0
  {
    seq(|files|, i requires 0 <= i < |files| => SaveFile(files[i].logicalPath, files[i].checksum, files[i].size as int))
  }

  lemma CleanedIsRight(files: seq<NewFile>, clean: Cleaner, stored: seq<NewFile>)
    requires Acceptable(files, clean) && Cleaned(files, clean, stored)
    ensures PathsDiffer(stored) && Sum(stored) == Sum(files) && forall i | 0 <= i < |stored| :: stored[i].size >= 0
  {
    forall i, j | 0 <= i < j < |stored| ensures stored[i].logicalPath != stored[j].logicalPath {
      assert clean(files[i].logicalPath) != clean(files[j].logicalPath);
    }
    SameSum(files, stored);
    forall i | 0 <= i < |stored| ensures stored[i].size >= 0 { assert FileAcceptable(files[i], clean); }
  }

  lemma {:induction false} SameSum(a: seq<NewFile>, b: seq<NewFile>)
    requires |a| == |b| && forall i | 0 <= i < |a| :: a[i].size == b[i].size
    ensures Sum(a) == Sum(b)
  {
    if a != [] { SameSum(a[..|a| - 1], b[..|b| - 1]); }
  }

  /** The checks, and the row that is to be inserted. */
  method MakeRevision(input: NewRevision, clean: Cleaner, stream: Option<string>, newId: string)
    returns (r: Result<Revision, Error>)
    ensures r.Ok? <==> stream.Some? && Submittable(input, clean)
    ensures r == Err(Invalid) <==> !Submittable(input, clean)
    ensures r.Ok? ==> FromInput(input, clean, stream, newId, r.value) && ParentFor(input) == r.value.parent
    ensures r.Ok? ==>
              && r.value.total == Sum(r.value.files) <= MAX_BYTES as int && PathsDiffer(r.value.files)
              && 1 <= |r.value.files| <= MAX_FILES
  {
    SubmittableIff(input, clean);
    StatusKnown(input);
    if input.device == "" || |FilesFor(input)| > MAX_FILES { return Err(Invalid); }
    var checked := CheckFiles(FilesFor(input), clean);
    if checked.None? { return Err(Invalid); }
    var (files, total) := checked.value;
    CleanedIsRight(FilesFor(input), clean, files);
    assert Lists(SaveFiles(files), files);
    var contentHash := if input.contentHash == "" then Preimage(SaveFiles(files)) else input.contentHash;
    var status := StatusFor(input);
    if status.None? { return Err(Invalid); }
    if stream.None? { return Err(NoStream); }
    return Ok(Revision(if input.id == "" then newId else input.id, stream.value, input.device, ParentFor(input),
                       contentHash, total as int, files, status.value));
  }

  class Store {
    var revisions: Table
    /** The status every revision was inserted with. */
    ghost var statuses: seq<Status>

    ghost predicate Valid()
      reads this
    {
      StatusesRight(revisions, statuses) && IdsUnique(revisions) && ParentsEarlier(revisions) && SizesRight(revisions)
    }

    constructor ()
      ensures Valid() && revisions == []
    {
      revisions, statuses := [], [];
    }

    /** AddSaveRevision; `stream` is what ensureLegacyStreamTx resolves. */
    method AddSaveRevision(input: NewRevision, clean: Cleaner, stream: Option<string>, newId: string, commits: bool)
      returns (r: Result<Revision, Error>)
      requires Valid()
      modifies this
      ensures Valid()
      ensures r.Err? ==> revisions == old(revisions) && statuses == old(statuses)
      ensures r.Ok? ==>
                && revisions == Inserted(old(revisions), r.value) && statuses == old(statuses) + [r.value.status]
                && Insertable(old(revisions), r.value) && FromInput(input, clean, stream, newId, r.value)
      ensures r.Ok? <==>
                commits && stream.Some? && Submittable(input, clean)
                  && !InUse(old(revisions), if input.id == "" then newId else input.id, ParentFor(input))
      ensures r == Err(Invalid) <==> !Submittable(input, clean)
    {
      var made := MakeRevision(input, clean, stream, newId);
      if made.Err? { return made; }
      var row := made.value;
      if !Insertable(revisions, row) || !commits { return Err(Refused); }
      InsertStatuses(revisions, statuses, row);
      InsertParents(revisions, row);
      InsertSizes(revisions, row);
      var rows := revisions;
      if row.status.Current? { rows := Supersede(rows, row.stream); }
      revisions, statuses := rows + [row], statuses + [row.status];
      return Ok(row);
    }

    /** CurrentStreamRevision. */
    method CurrentStreamRevision(stream: string) returns (r: Option<Revision>)
      ensures r.None? ==> forall i: nat :: !IsCurrent(revisions, stream, i)
      ensures r.Some? ==> exists i: nat :: IsCurrent(revisions, stream, i) && r.value == revisions[i]
    {
      for i := 0 to |revisions|
        invariant forall j: nat | j < i :: !IsCurrent(revisions, stream, j)
      {
        if IsCurrent(revisions, stream, i) { return Some(revisions[i]); }
      }
      return None;
    }
  }

  /** A stream that ever got a current revision still has one. */
  lemma {:induction false} NoneCurrent(rows: Table, statuses: seq<Status>, stream: string, n: nat)
    requires StatusesRight(rows, statuses) && n <= |rows|
    requires forall j | 0 <= j < |rows| :: !IsCurrent(rows, stream, j)
    ensures forall i | |rows| - n <= i < |rows| :: !(rows[i].stream == stream && statuses[i].Current?)
  {
    if n > 0 {
      NoneCurrent(rows, statuses, stream, n - 1);
      CurrentIsLast(rows, statuses, stream, |rows| - n);
    }
  }

  lemma HasCurrentIff(rows: Table, statuses: seq<Status>, stream: string)
    requires StatusesRight(rows, statuses)
    ensures (exists i: nat :: IsCurrent(rows, stream, i)) <==>
              exists i :: 0 <= i < |rows| && rows[i].stream == stream && statuses[i].Current?
  {
    if i: nat :| IsCurrent(rows, stream, i) {
      CurrentIsLast(rows, statuses, stream, i);
    } else {
      NoneCurrent(rows, statuses, stream, |rows|);
    }
  }
}
