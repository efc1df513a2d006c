/** The byte streams that are hashed, and that they can be read back. A character of
    a string stands for one byte of it. */
module Encodings {
  import opened Sorting
  import opened Wrappers

  /*************** decimal numbers ***************/

  function Digit(n: nat): char
    requires n < 10
  {
    '0' + n as char
  }

  predicate IsDigit(c: char) {
    '0' <= c <= '9'
  }

  /** strconv.FormatInt and fmt.Sprint of a non-negative number. */
  function Decimal(n: nat): string {
    if n < 10 then [Digit(n)] else Decimal(n / 10) + [Digit(n % 10)]
  }

  function Number(s: string): nat
    requires forall i | 0 <= i < |s| :: IsDigit(s[i])
  {
    if s == "" then 0
    else
      assert IsDigit(s[|s| - 1]);
      Number(s[..|s| - 1]) * 10 + (s[|s| - 1] as int - '0' as int)
  }

  lemma {:induction false} DecimalReads(n: nat)
    ensures Decimal(n) != "" && (forall i | 0 <= i < |Decimal(n)| :: IsDigit(Decimal(n)[i])) && Number(Decimal(n)) == n
  {
    if n >= 10 {
      DecimalReads(n / 10);
      assert Decimal(n)[..|Decimal(n)| - 1] == Decimal(n / 10);
    } else {
      assert Decimal(n)[..0] == "";
    }
  }

  /*************** a length-prefixed stream ***************/

  /** mergeDigest.write: the length, a colon, the value. */
  function Block(value: string): string {
    Decimal(|value|) + ":" + value
  }

  function Stream(values: seq<string>): string {
    if values == [] then "" else Block(values[0]) + Stream(values[1..])
  }

  /** The digits a text starts with. */
  function Digits(s: string): (n: nat)
    ensures n <= |s| && forall i | 0 <= i < n :: IsDigit(s[i])
  {
    if s != "" && IsDigit(s[0]) then 1 + Digits(s[1..]) else 0
  }

  /** One value and what follows it. */
  function ReadBlock(s: string): (r: Option<(string, string)>)
    ensures r.Some? ==> |r.value.1| < |s|
  {
    var n := Digits(s);
    if n == 0 || n == |s| || s[n] != ':' || Number(s[..n]) > |s| - n - 1 then None
    else
      var value := s[n + 1..n + 1 + Number(s[..n])];
      Some((value, s[n + 1 + Number(s[..n])..]))
  }

  function ReadStream(s: string): Option<seq<string>>
    decreases |s|
  {
    if s == "" then Some([])
    else match ReadBlock(s)
      case None => None
      case Some((value, rest)) =>
        match ReadStream(rest)
        case None => None
        case Some(values) => Some([value] + values)
  }

  lemma {:induction false} DigitsAre(d: string, rest: string)
    requires (forall i | 0 <= i < |d| :: IsDigit(d[i])) && rest != "" && !IsDigit(rest[0])
    ensures Digits(d + rest) == |d|
  {
    if d == "" {
      assert d + rest == rest;
    } else {
      assert (d + rest)[1..] == d[1..] + rest;
      DigitsAre(d[1..], rest);
    }
  }

  lemma BlockReads(value: string, rest: string)
    ensures ReadBlock(Block(value) + rest) == Some((value, rest))
  {
    var d := Decimal(|value|);
    DecimalReads(|value|);
    var s := Block(value) + rest;
    assert s == d + (":" + value + rest);
    DigitsAre(d, ":" + value + rest);
    assert s[..|d|] == d;
    assert s[|d| + 1..|d| + 1 + |value|] == value;
    assert s[|d| + 1 + |value|..] == rest;
  }

  /** The stream parses back to the written strings. */
  lemma {:induction false} StreamReads(values: seq<string>)
    ensures ReadStream(Stream(values)) == Some(values)
  {
    if values != [] {
      BlockReads(values[0], Stream(values[1..]));
      StreamReads(values[1..]);
      DecimalReads(|values[0]|);
      assert values == [values[0]] + values[1..];
    }
  }

  /** So no two lists of strings are hashed as the same bytes. */
  lemma StreamIsInjective(a: seq<string>, b: seq<string>)
    ensures Stream(a) == Stream(b) ==> a == b
  {
    StreamReads(a);
    StreamReads(b);
  }

  /*************** the save set ***************/

  datatype SaveFile = SaveFile(path: string, checksum: string, size: nat)

  predicate NoNul(s: string) {
    forall i | 0 <= i < |s| :: s[i] != '\0'
  }

  predicate Writable(f: SaveFile) {
    NoNul(f.path) && NoNul(f.checksum)
  }

  function Field(s: string): string {
    s + "\0"
  }

  function Record(f: SaveFile): string {
    Field(f.path) + Field(f.checksum) + Field(Decimal(f.size))
  }

  function Records(files: seq<SaveFile>): string {
    if files == [] then "" else Record(files[0]) + Records(files[1..])
  }

  predicate PathLe(a: SaveFile, b: SaveFile) {
    Le(a.path, b.path)
  }

  /** The bytes revisionContentHash and contentHash feed to SHA-256. */
  function Preimage(files: seq<SaveFile>): string {
    Records(Sort(PathLe, files))
  }

  /** Everything up to the first NUL, and what follows it. */
  function ReadField(s: string): (r: Option<(string, string)>)
    ensures r.Some? ==> |r.value.1| < |s|
  {
    if s == "" then None
    else if s[0] == '\0' then Some(("", s[1..]))
    else match ReadField(s[1..])
      case None => None
      case Some((field, rest)) => Some(([s[0]] + field, rest))
  }

  function ReadSize(s: string): Option<nat> {
    if s != "" && Digits(s) == |s| then Some(Number(s)) else None
  }

  function ReadRecord(s: string): (r: Option<(SaveFile, string)>)
    ensures r.Some? ==> |r.value.1| < |s|
  {
    var path := ReadField(s);
    if path.None? then None
    else
      var checksum := ReadField(path.value.1);
      if checksum.None? then None
      else
        var size := ReadField(checksum.value.1);
        if size.None? || ReadSize(size.value.0).None? then None
        else Some((SaveFile(path.value.0, checksum.value.0, ReadSize(size.value.0).value), size.value.1))
  }

  function ReadRecords(s: string): Option<seq<SaveFile>>
    decreases |s|
  {
    if s == "" then Some([])
    else match ReadRecord(s)
      case None => None
      case Some((f, rest)) =>
        match ReadRecords(rest)
        case None => None
        case Some(fs) => Some([f] + fs)
  }

  lemma {:induction false} FieldReads(s: string, rest: string)
    requires NoNul(s)
    ensures ReadField(Field(s) + rest) == Some((s, rest))
  {
    var t := Field(s) + rest;
    if s == "" {
      assert t[1..] == rest;
    } else {
      assert t[1..] == Field(s[1..]) + rest && t[0] == s[0];
      FieldReads(s[1..], rest);
      assert [s[0]] + s[1..] == s;
    }
  }

  lemma SizeReads(n: nat)
    ensures NoNul(Decimal(n)) && ReadSize(Decimal(n)) == Some(n)
  {
    DecimalReads(n);
    var d := Decimal(n);
    AllDigits(d);
  }

  lemma {:induction false} AllDigits(d: string)
    requires forall i | 0 <= i < |d| :: IsDigit(d[i])
    ensures Digits(d) == |d|
  {
    if d != "" { AllDigits(d[1..]); }
  }

  lemma RecordReads(f: SaveFile, rest: string)
    requires Writable(f)
    ensures ReadRecord(Record(f) + rest) == Some((f, rest))
  {
    var (a, b, c) := (Field(f.path), Field(f.checksum), Field(Decimal(f.size)));
    assert Record(f) + rest == a + (b + (c + rest));
    FieldReads(f.path, b + (c + rest));
    FieldReads(f.checksum, c + rest);
    SizeReads(f.size);
    FieldReads(Decimal(f.size), rest);
  }

  lemma {:induction false} RecordsRead(files: seq<SaveFile>)
    requires forall i | 0 <= i < |files| :: Writable(files[i])
    ensures ReadRecords(Records(files)) == Some(files)
  {
    if files != [] {
      RecordReads(files[0], Records(files[1..]));
      RecordsRead(files[1..]);
      assert files == [files[0]] + files[1..];
    }
  }

  predicate DistinctPaths(files: seq<SaveFile>) {
    forall i, j | 0 <= i < j < |files| :: files[i].path != files[j].path
  }

  lemma PathLeIsComparison()
    ensures Comparison(PathLe)
  {
    forall a, b ensures PathLe(a, b) || PathLe(b, a) { LeTotal(a.path, b.path); }
    forall a, b, c | PathLe(a, b) && PathLe(b, c) ensures PathLe(a, c) { LeTransitive(a.path, b.path, c.path); }
  }

  lemma DistinctIsDecisive(files: seq<SaveFile>)
    requires DistinctPaths(files)
    ensures Decisive(PathLe, files)
  {
    forall i, j | 0 <= i < |files| && 0 <= j < |files| && PathLe(files[i], files[j]) && PathLe(files[j], files[i])
      ensures files[i] == files[j]
    {
      LeTotal(files[i].path, files[j].path);
    }
  }

  lemma SortKeepsWritable(files: seq<SaveFile>)
    requires forall i | 0 <= i < |files| :: Writable(files[i])
    ensures forall i | 0 <= i < |Sort(PathLe, files)| :: Writable(Sort(PathLe, files)[i])
  {
    SortPermutes(PathLe, files);
    forall i | 0 <= i < |Sort(PathLe, files)| ensures Writable(Sort(PathLe, files)[i]) {
      assert Sort(PathLe, files)[i] in multiset(files);
    }
  }

  /** The preimage names the save set: it parses back to the files in path order,
      does not depend on the order they were listed in, and tells any two sets apart. */
  lemma PreimageIsCanonical(a: seq<SaveFile>, b: seq<SaveFile>)
    requires DistinctPaths(a) && (forall i | 0 <= i < |a| :: Writable(a[i]))
    requires (forall i | 0 <= i < |b| :: Writable(b[i]))
    ensures ReadRecords(Preimage(a)) == Some(Sort(PathLe, a))
    ensures Preimage(a) == Preimage(b) <==> multiset(a) == multiset(b)
  {
    SortKeepsWritable(a);
    SortKeepsWritable(b);
    RecordsRead(Sort(PathLe, a));
    RecordsRead(Sort(PathLe, b));
    PathLeIsComparison();
    DistinctIsDecisive(a);
    SortCanonical(PathLe, a, b);
  }

  /*************** the two sides ***************/

  /** The agent's file, with what is not part of its identity. */
  datatype LocalFile = LocalFile(logicalPath: string, path: string, checksum: string, size: nat, mtime: int, mode: int)

  /** The hub's file. */
  datatype StoredFile = StoredFile(id: string, logicalPath: string, checksum: string, size: nat, blobPath: string,
                                   mtime: int, mode: int)

  function LocalIdentity(f: LocalFile): SaveFile {
    SaveFile(f.logicalPath, f.checksum, f.size)
  }

  function StoredIdentity(f: StoredFile): SaveFile {
    SaveFile(f.logicalPath, f.checksum, f.size)
  }

  function Identities<T>(files: seq<T>, identity: T -> SaveFile): seq<SaveFile> {
    seq(|files|, i requires 0 <= i < |files| => identity(files[i]))
  }

  lemma WithoutOne<T>(s: seq<T>, i: nat)
    requires i < |s|
    ensures multiset(s) == multiset(s[..i] + s[i + 1..]) + multiset{s[i]}
    ensures multiset(s[..i] + s[i + 1..]) == multiset(s) - multiset{s[i]}
  {
    assert s == s[..i] + [s[i]] + s[i + 1..];
  }

  lemma IdentitiesWithout<T>(s: seq<T>, i: nat, identity: T -> SaveFile)
    requires i < |s|
    ensures multiset(Identities(s, identity)) ==
            multiset(Identities(s[..i] + s[i + 1..], identity)) + multiset{identity(s[i])}
  {
    var t := Identities(s, identity);
    WithoutOne(t, i);
    assert Identities(s[..i] + s[i + 1..], identity) == t[..i] + t[i + 1..];
  }

  lemma IdentitiesTail<T>(s: seq<T>, identity: T -> SaveFile)
    requires s != []
    ensures multiset(Identities(s, identity)) == multiset(Identities(s[1..], identity)) + multiset{identity(s[0])}
  {
    assert Identities(s, identity) == [identity(s[0])] + Identities(s[1..], identity);
  }

  lemma Cancel<T>(a: seq<T>, a': seq<T>, b: seq<T>, b': seq<T>, x: T)
    requires multiset(a) == multiset(b) && multiset(a') == multiset(a) - multiset{x}
    requires multiset(b') == multiset(b) - multiset{x}
    ensures multiset(a') == multiset(b')
  {
  }

  lemma {:induction false} IdentitiesPermute<T(!new)>(a: seq<T>, b: seq<T>, identity: T -> SaveFile)
    requires multiset(a) == multiset(b)
    ensures multiset(Identities(a, identity)) == multiset(Identities(b, identity))
    decreases |a|
  {
    if a == [] {
      assert |multiset(b)| == |b|;
    } else {
      assert a[0] in multiset(b);
      var i :| 0 <= i < |b| && b[i] == a[0];
      var (a', b') := (a[1..], b[..i] + b[i + 1..]);
      assert multiset(a') == multiset(b') by {
        TailIs(a);
        WithoutOne(b, i);
        Cancel(a, a', b, b', a[0]);
      }
      IdentitiesPermute(a', b', identity);
      IdentitiesTail(a, identity);
      IdentitiesWithout(b, i, identity);
    }
  }

  /** Any result of sort.Slice by logical path writes the canonical preimage. */
  lemma AnySortWrites<T(!new)>(files: seq<T>, ordered: seq<T>, identity: T -> SaveFile)
    requires multiset(ordered) == multiset(files) && DistinctPaths(Identities(files, identity))
    requires forall i, j | 0 <= i < j < |ordered| :: PathLe(identity(ordered[i]), identity(ordered[j]))
    ensures Records(Identities(ordered, identity)) == Preimage(Identities(files, identity))
  {
    var (a, b) := (Identities(files, identity), Identities(ordered, identity));
    IdentitiesPermute(ordered, files, identity);
    PathLeIsComparison();
    SortPermutes(PathLe, a);
    SortSorts(PathLe, a);
    DistinctIsDecisive(a);
    DecisiveUpToOrder(PathLe, a, Sort(PathLe, a));
    SortedUnique(PathLe, Sort(PathLe, a), b);
  }

  lemma {:induction false} RecordsAppend(files: seq<SaveFile>, f: SaveFile)
    ensures Records(files + [f]) == Records(files) + Record(f)
  {
    if files == [] {
      assert files + [f] == [f] && [f][1..] == [];
      assert Records([f]) == Record(f) + Records([]);
    } else {
      RecordsAppend(files[1..], f);
      assert (files + [f])[1..] == files[1..] + [f];
    }
  }

  /** What is hashed are the logical path, checksum and size of each file. */
  ghost predicate ListsLocal(hashed: seq<SaveFile>, files: seq<LocalFile>) {
    |hashed| == |files| && forall i | 0 <= i < |files| ::
      && hashed[i].path == files[i].logicalPath && hashed[i].checksum == files[i].checksum
      && hashed[i].size == files[i].size
  }

  ghost predicate ListsStored(hashed: seq<SaveFile>, files: seq<StoredFile>) {
    |hashed| == |files| && forall i | 0 <= i < |files| ::
      && hashed[i].path == files[i].logicalPath && hashed[i].checksum == files[i].checksum
      && hashed[i].size == files[i].size
  }

  /** Equal files have equal digests on both sides. */
  lemma SidesAgree(local: seq<LocalFile>, stored: seq<StoredFile>)
    requires |local| == |stored| && forall i | 0 <= i < |local| ::
               && local[i].logicalPath == stored[i].logicalPath && local[i].checksum == stored[i].checksum
               && local[i].size == stored[i].size
    ensures Preimage(Identities(local, LocalIdentity)) == Preimage(Identities(stored, StoredIdentity))
  {
    assert Identities(local, LocalIdentity) == Identities(stored, StoredIdentity);
  }

  /** One file is hashed as its path, its checksum and its size, a NUL after each. */
  lemma OneFile(f: SaveFile)
    ensures Preimage([f]) == f.path + "\0" + f.checksum + "\0" + Decimal(f.size) + "\0"
  {
    assert [f][1..] == [] && Sort(PathLe, []) == [] && Insert(PathLe, f, []) == [f];
    assert Records([f]) == Record(f) + Records([]);
  }

  /** contentHash: `ordered` is what sort.Slice made of a copy of the files. */
  method ContentHash(files: seq<LocalFile>, ordered: seq<LocalFile>) returns (written: string)
    requires multiset(ordered) == multiset(files) && DistinctPaths(Identities(files, LocalIdentity))
    requires forall i, j | 0 <= i < j < |ordered| :: PathLe(LocalIdentity(ordered[i]), LocalIdentity(ordered[j]))
    ensures written == Preimage(Identities(files, LocalIdentity))
    ensures exists hashed :: ListsLocal(hashed, files) && written == Preimage(hashed)
  {
    written := "";
    for i := 0 to |ordered|
      invariant written == Records(Identities(ordered[..i], LocalIdentity))
    {
      var f := ordered[i];
      RecordsAppend(Identities(ordered[..i], LocalIdentity), LocalIdentity(f));
      assert Identities(ordered[..i + 1], LocalIdentity) ==
        Identities(ordered[..i], LocalIdentity) + [LocalIdentity(f)];
      var line := f.logicalPath + "\0" + (f.checksum + "\0") + (Decimal(f.size) + "\0");
      written := written + line;
    }
    assert ordered[..|ordered|] == ordered;
    AnySortWrites(files, ordered, LocalIdentity);
    assert ListsLocal(Identities(files, LocalIdentity), files);
  }

  /** revisionContentHash, which must agree with it. */
  method RevisionContentHash(files: seq<StoredFile>, ordered: seq<StoredFile>) returns (written: string)
    requires multiset(ordered) == multiset(files) && DistinctPaths(Identities(files, StoredIdentity))
    requires forall i, j | 0 <= i < j < |ordered| :: PathLe(StoredIdentity(ordered[i]), StoredIdentity(ordered[j]))
    ensures written == Preimage(Identities(files, StoredIdentity))
    ensures exists hashed :: ListsStored(hashed, files) && written == Preimage(hashed)
  {
    written := "";
    for i := 0 to |ordered|
      invariant written == Records(Identities(ordered[..i], StoredIdentity))
    {
      var f := ordered[i];
      RecordsAppend(Identities(ordered[..i], StoredIdentity), StoredIdentity(f));
      assert Identities(ordered[..i + 1], StoredIdentity) ==
        Identities(ordered[..i], StoredIdentity) + [StoredIdentity(f)];
      var line := f.logicalPath + "\0" + (f.checksum + "\0") + (Decimal(f.size) + "\0");
      written := written + line;
    }
    assert ordered[..|ordered|] == ordered;
    AnySortWrites(files, ordered, StoredIdentity);
    assert ListsStored(Identities(files, StoredIdentity), files);
  }
}
