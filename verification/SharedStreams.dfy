/** Collapsing the bindings of one save stream into one local set
    (internal/deviceagent/sync.go). A hash stands for the value it was computed
    from, so equal identities mean equal sorted paths and files. */
module SharedStreams {
  import opened Encodings
  import opened Sorting
  import opened Text
  import opened Wrappers

  const MAX_SYNC_BYTES := 240 * 1024 * 1024
  const MAX_SYNC_FILES := 4096

  /*************** one binding ***************/

  datatype LocalSet = LocalSet(renderedPaths: seq<string>, files: seq<LocalFile>)

  function TotalSize(files: seq<LocalFile>): nat {
    if files == [] then 0 else TotalSize(files[..|files| - 1]) + files[|files| - 1].size
  }

  predicate DistinctLogical(files: seq<LocalFile>) {
    forall i, j | 0 <= i < j < |files| :: files[i].logicalPath != files[j].logicalPath
  }

  /** A set the sync can carry. */
  predicate Fits(files: seq<LocalFile>) {
    DistinctLogical(files) && TotalSize(files) <= MAX_SYNC_BYTES && |files| <= MAX_SYNC_FILES
  }

  lemma {:induction false} SizeGrows(files: seq<LocalFile>, n: nat)
    requires n <= |files|
    ensures TotalSize(files[..n]) <= TotalSize(files)
    decreases |files| - n
  {
    if n < |files| {
      SizeGrows(files, n + 1);
      assert files[..n + 1][..n] == files[..n] && files[..n + 1][n] == files[n];
    } else {
      assert files[..n] == files;
    }
  }

  lemma PrefixFits(files: seq<LocalFile>, n: nat)
    requires n <= |files| && Fits(files)
    ensures Fits(files[..n])
  {
    SizeGrows(files, n);
  }

  /** addLocalFile, for a file that was read and whose logical path is portable. */
  method AddLocalFile(files: seq<LocalFile>, total: nat, f: LocalFile) returns (r: Option<(seq<LocalFile>, nat)>)
    requires Fits(files) && total == TotalSize(files)
    ensures r.Some? <==> Fits(files + [f])
    ensures r.Some? ==> r.value == (files + [f], total + f.size)
    ensures r.Some? <==> (forall g | g in files :: g.logicalPath != f.logicalPath)
                         && total + f.size <= 251658240 && |files| < 4096
  {
    assert (files + [f])[..|files|] == files && (files + [f])[|files|] == f;
    for i := 0 to |files|
      invariant forall j | 0 <= j < i :: files[j].logicalPath != f.logicalPath
    {
      if files[i].logicalPath == f.logicalPath {
        assert (files + [f])[i].logicalPath == (files + [f])[|files|].logicalPath;
        return None;
      }
    }
    if total + f.size > MAX_SYNC_BYTES || |files| >= MAX_SYNC_FILES { return None; }
    return Some((files + [f], total + f.size));
  }

  /** enumerateBinding over the regular files it finds, in walking order. */
  method Enumerate(rendered: seq<string>, found: seq<LocalFile>) returns (r: Option<LocalSet>)
    ensures r == if Fits(found) then Some(LocalSet(rendered, found)) else None
  {
    var files: seq<LocalFile>, total := [], 0;
    for i := 0 to |found|
      invariant files == found[..i] && Fits(files) && total == TotalSize(files)
    {
      var next := AddLocalFile(files, total, found[i]);
      assert found[..i] + [found[i]] == found[..i + 1];
      if next.None? {
        if Fits(found) { PrefixFits(found, i + 1); }
        return None;
      }
      files, total := next.value.0, next.value.1;
    }
    assert found[..|found|] == found;
    return Some(LocalSet(rendered, files));
  }

  /*************** the identity of a set ***************/

  datatype FileIdentity = FileIdentity(logicalPath: string, path: string, checksum: string, size: nat, mode: int)

  datatype Identity = Identity(paths: seq<string>, files: seq<FileIdentity>)

  function IdentityOf(f: LocalFile): FileIdentity {
    FileIdentity(f.logicalPath, f.path, f.checksum, f.size, f.mode)
  }

  function FileOrder(f: FileIdentity): seq<Atom> {
    [Text(f.logicalPath), Text(f.path)]
  }

  function FileIdentities(files: seq<LocalFile>): seq<FileIdentity> {
    seq(|files|, i requires 0 <= i < |files| => IdentityOf(files[i]))
  }

  /** localSetBindingIdentity. */
  function BindingIdentity(s: LocalSet): Identity {
    Identity(Sort(Le, s.renderedPaths), Sort(By(FileOrder), FileIdentities(s.files)))
  }

  /** Two sets have one identity exactly when they name the same paths and hold the
      same files, whatever the order; modification times do not count. */
  lemma IdentityMeans(a: LocalSet, b: LocalSet)
    requires DistinctLogical(a.files)
    ensures BindingIdentity(a) == BindingIdentity(b) <==>
              multiset(a.renderedPaths) == multiset(b.renderedPaths)
                && multiset(FileIdentities(a.files)) == multiset(FileIdentities(b.files))
  {
    LeIsComparison();
    LeIsDecisive(a.renderedPaths);
    SortCanonical(Le, a.renderedPaths, b.renderedPaths);
    ByIsComparison(FileOrder);
    var files := FileIdentities(a.files);
    forall i, j | 0 <= i < |files| && 0 <= j < |files| && By(FileOrder)(files[i], files[j])
      && By(FileOrder)(files[j], files[i])
      ensures files[i] == files[j]
    {
      ListLeTotal(FileOrder(files[i]), FileOrder(files[j]));
      assert FileOrder(files[i])[0] == FileOrder(files[j])[0];
    }
    SortCanonical(By(FileOrder), files, FileIdentities(b.files));
  }

  /*************** all bindings ***************/

  datatype Binding = Binding(id: string, stream: string)

  datatype Error = NoStream | Unreadable(binding: string) | Inconsistent

  /** What enumerating a binding gives at this moment. */
  type Reader = Binding -> Option<LocalSet>

  function StreamOf(b: Binding): string {
    TrimSpace(b.stream)
  }

  predicate Readable(b: Binding, read: Reader) {
    StreamOf(b) != "" && read(b).Some?
  }

  /** Every binding has a stream and can be read, and bindings of one stream agree. */
  ghost predicate Collectable(bindings: seq<Binding>, read: Reader) {
    && (forall i | 0 <= i < |bindings| :: Readable(bindings[i], read))
    && (forall i, j | 0 <= i < |bindings| && 0 <= j < |bindings| && StreamOf(bindings[i]) == StreamOf(bindings[j]) ::
          BindingIdentity(read(bindings[i]).value) == BindingIdentity(read(bindings[j]).value))
  }

  /** Each stream has the set of the first binding that names it. */
  ghost predicate Collected(bindings: seq<Binding>, read: Reader, sets: map<string, LocalSet>) {
    && (forall i | 0 <= i < |bindings| :: StreamOf(bindings[i]) in sets)
    && (forall s | s in sets :: exists i :: FirstOf(bindings, s, i) && read(bindings[i]) == Some(sets[s]))
  }

  ghost predicate FirstOf(bindings: seq<Binding>, s: string, i: int) {
    0 <= i < |bindings| && StreamOf(bindings[i]) == s && forall j | 0 <= j < i :: StreamOf(bindings[j]) != s
  }

  lemma CollectedNext(bindings: seq<Binding>, read: Reader, sets: map<string, LocalSet>, b: Binding)
    requires Collected(bindings, read, sets) && read(b).Some?
    ensures StreamOf(b) in sets ==> Collected(bindings + [b], read, sets)
    ensures StreamOf(b) !in sets ==> Collected(bindings + [b], read, sets[StreamOf(b) := read(b).value])
  {
    var more := bindings + [b];
    forall s | s in sets ensures exists i :: FirstOf(more, s, i) && read(more[i]) == Some(sets[s]) {
      var i :| FirstOf(bindings, s, i) && read(bindings[i]) == Some(sets[s]);
      assert FirstOf(more, s, i) && more[i] == bindings[i];
    }
    if StreamOf(b) !in sets {
      assert FirstOf(more, StreamOf(b), |bindings|) && more[|bindings|] == b;
    }
  }

  lemma CollectableNext(bindings: seq<Binding>, read: Reader, sets: map<string, LocalSet>, b: Binding)
    requires Collectable(bindings, read) && Collected(bindings, read, sets) && Readable(b, read)
    ensures Collectable(bindings + [b], read) <==>
              (StreamOf(b) in sets ==> BindingIdentity(sets[StreamOf(b)]) == BindingIdentity(read(b).value))
  {
    var more := bindings + [b];
    var n := |bindings|;
    assert more[n] == b && forall i | 0 <= i < n :: more[i] == bindings[i];
    if StreamOf(b) in sets {
      var i :| FirstOf(bindings, StreamOf(b), i) && read(bindings[i]) == Some(sets[StreamOf(b)]);
      assert StreamOf(more[i]) == StreamOf(more[n]);
    }
  }

  lemma PrefixCollectable(bindings: seq<Binding>, read: Reader, n: nat)
    requires n <= |bindings|
    ensures Collectable(bindings, read) ==> Collectable(bindings[..n], read)
  {
  }

  /** The next binding is consistent with what was collected so far. */
  predicate Consistent(b: Binding, read: Reader, sets: map<string, LocalSet>) {
    Readable(b, read) && (StreamOf(b) in sets ==> BindingIdentity(sets[StreamOf(b)]) == BindingIdentity(read(b).value))
  }

  /** One more binding: either it makes the whole list uncollectable, or its stream is collected. */
  lemma CollectOne(bindings: seq<Binding>, read: Reader, n: nat, sets: map<string, LocalSet>)
    requires n < |bindings| && Collectable(bindings[..n], read) && Collected(bindings[..n], read, sets)
    ensures Consistent(bindings[n], read, sets) <==> Collectable(bindings[..n + 1], read)
    ensures !Consistent(bindings[n], read, sets) ==> !Collectable(bindings, read)
    ensures Consistent(bindings[n], read, sets) ==>
              var stream := StreamOf(bindings[n]);
              Collected(bindings[..n + 1], read, if stream in sets then sets
                        else sets[stream := read(bindings[n]).value])
  {
    var b := bindings[n];
    assert bindings[..n] + [b] == bindings[..n + 1];
    if Readable(b, read) {
      CollectableNext(bindings[..n], read, sets, b);
      CollectedNext(bindings[..n], read, sets, b);
    } else {
      assert bindings[..n + 1][n] == b;
    }
    PrefixCollectable(bindings, read, n + 1);
  }

  lemma CollectedSet(bindings: seq<Binding>, read: Reader, sets: map<string, LocalSet>, b: Binding)
    requires Collectable(bindings, read) && Collected(bindings, read, sets) && b in bindings
    ensures StreamOf(b) in sets && Readable(b, read)
            && BindingIdentity(sets[StreamOf(b)]) == BindingIdentity(read(b).value)
  {
    var i :| 0 <= i < |bindings| && bindings[i] == b;
    var k :| FirstOf(bindings, StreamOf(b), k) && read(bindings[k]) == Some(sets[StreamOf(b)]);
  }

  /** collectLocalSets. */
  method CollectLocalSets(bindings: seq<Binding>, read: Reader) returns (r: Result<map<string, LocalSet>, Error>)
    ensures r.Ok? <==> Collectable(bindings, read)
    ensures r.Ok? ==> Collected(bindings, read, r.value)
    ensures r.Ok? ==> forall b | b in bindings ::
                && TrimSpace(b.stream) != "" && read(b).Some? && TrimSpace(b.stream) in r.value
                && BindingIdentity(r.value[TrimSpace(b.stream)]) == BindingIdentity(read(b).value)
  {
    var sets: map<string, LocalSet>, identities: map<string, Identity> := map[], map[];
    for i := 0 to |bindings|
      invariant Collectable(bindings[..i], read) && Collected(bindings[..i], read, sets)
      invariant identities.Keys == sets.Keys && forall s | s in sets :: identities[s] == BindingIdentity(sets[s])
    {
      var b := bindings[i];
      CollectOne(bindings, read, i, sets);
      if StreamOf(b) == "" { return Err(NoStream); }
      var found := read(b);
      if found.None? { return Err(Unreadable(b.id)); }
      var identity := BindingIdentity(found.value);
      if StreamOf(b) in identities {
        if identities[StreamOf(b)] != identity { return Err(Inconsistent); }
      } else {
        sets := sets[StreamOf(b) := found.value];
        identities := identities[StreamOf(b) := identity];
      }
    }
    assert bindings[..|bindings|] == bindings;
    forall b | b in bindings
      ensures StreamOf(b) in sets && Readable(b, read)
              && BindingIdentity(sets[StreamOf(b)]) == BindingIdentity(read(b).value) {
      CollectedSet(bindings, read, sets, b);
    }
    return Ok(sets);
  }

  /*************** any order ***************/

  lemma CollectablePermutes(a: seq<Binding>, b: seq<Binding>, read: Reader)
    requires multiset(a) == multiset(b) && Collectable(a, read)
    ensures Collectable(b, read)
  {
    forall i | 0 <= i < |b| ensures exists k :: 0 <= k < |a| && a[k] == b[i] {
      assert b[i] in multiset(a);
    }
  }

  /** Whatever order the hub lists the bindings in: either every order fails, or every
      order gives each stream the same paths and the same files. */
  lemma OrderDoesNotMatter(a: seq<Binding>, b: seq<Binding>, read: Reader, x: map<string, LocalSet>,
                           y: map<string, LocalSet>)
    requires multiset(a) == multiset(b)
    ensures Collectable(a, read) <==> Collectable(b, read)
    ensures Collectable(a, read) && Collected(a, read, x) && Collected(b, read, y) ==>
              x.Keys == y.Keys && forall s | s in x :: BindingIdentity(x[s]) == BindingIdentity(y[s])
  {
    if Collectable(a, read) { CollectablePermutes(a, b, read); }
    if Collectable(b, read) { CollectablePermutes(b, a, read); }
    if Collectable(a, read) && Collected(a, read, x) && Collected(b, read, y) {
      forall s | s in x ensures s in y && BindingIdentity(x[s]) == BindingIdentity(y[s]) {
        SameSet(a, b, read, x, y, s);
      }
      forall s | s in y ensures s in x { SameSet(b, a, read, y, x, s); }
    }
  }

  lemma SameSet(a: seq<Binding>, b: seq<Binding>, read: Reader, x: map<string, LocalSet>, y: map<string, LocalSet>,
                s: string)
    requires multiset(a) == multiset(b) && Collectable(a, read) && Collected(a, read, x) && Collected(b, read, y)
    requires s in x
    ensures s in y && BindingIdentity(x[s]) == BindingIdentity(y[s])
  {
    var i :| FirstOf(a, s, i) && read(a[i]) == Some(x[s]);
    assert a[i] in multiset(b);
    var k :| 0 <= k < |b| && b[k] == a[i];
    assert StreamOf(b[k]) in y;
    var j :| FirstOf(b, s, j) && read(b[j]) == Some(y[s]);
    assert b[j] in multiset(a);
    var l :| 0 <= l < |a| && a[l] == b[j];
  }
}
