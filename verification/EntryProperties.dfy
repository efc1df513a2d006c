/** What the entries of a catalog must be for its plan to be free of conflicts
    (the catalog walk of internal/bundler/plan.go). */
module EntryProperties {
  import opened Storage
  import opened Planner
  import opened PlanProperties
  import opened Builder
  import opened BuilderProperties

  /*************** entries that cannot be packaged ***************/

  /** A file was catalogued with this digest, and its source now holds something else. */
  predicate OtherContent(sources: Sources, root: Root, path: Path, sha: Digest) {
    (root, path) in sources && sha !in {Blank, Sha256(sources[(root, path)].bytes)}
  }

  /** The source is not what was catalogued, or the launch cannot be resolved. */
  predicate Unplannable(sources: Sources, e: Entry) {
    match e
    case Artifact(_, root, path, sha) => OtherContent(sources, root, path, sha)
    case Asset(_, root, path, sha) => OtherContent(sources, root, path, sha)
    case Directory(_, _, _, _, check) => check.Changed?
    case Template(_, _) => false
    case RefusedLaunch(_) => true
  }

  /** The targets an entry asks for. */
  predicate Names(e: Entry, q: Path) {
    match e
    case Directory(_, _, path, children, check) =>
      if check.Unreadable? || check.Changed? then q == path else path <= q && q[|path|..] in children
    case RefusedLaunch(_) => q == LAUNCHES
    case _ => q == e.path
  }

  /** Kind and edition of everything an entry asks for. */
  predicate Labelled(e: Entry, r: Request) {
    match e
    case Artifact(edition, _, _, _) => RequestKind(r) == Rom && RequestEdition(r) == edition
    case Directory(edition, _, _, _, _) => RequestKind(r) == Rom && RequestEdition(r) == edition
    case Asset(edition, _, _, _) => RequestKind(r) == Media && RequestEdition(r) == edition
    case Template(_, _) => RequestKind(r) == Config
    case RefusedLaunch(edition) => RequestKind(r) == Launch && RequestEdition(r) == edition
  }

  /** The digest an entry was catalogued with; the files of a directory have none of their own. */
  function Catalogued(e: Entry): Digest {
    if e.Artifact? || e.Asset? then e.catalogSha else Blank
  }

  /** The request carries what is at its source: the bytes, nothing, or a refusal. */
  predicate Carries(sources: Sources, e: Entry, r: Request) {
    if e.RefusedLaunch? then r.RefusedRequest?
    else if e.Template? then r.ConfigRequest? && r.body == e.body
    else if e.Directory? && e.check.Changed? then r.RefusedRequest?
    else if (e.Directory? && e.check.Unreadable?) || (e.root, r.target) !in sources then r.MissingRequest?
    else r.FileRequest? && r.content == sources[(e.root, r.target)].bytes && r.catalogSha == Catalogued(e)
  }

  /** An entry asks for exactly the targets it names, each as its source is. */
  lemma EntryRequestsMean(sources: Sources, e: Entry, r: Request)
    ensures r in EntryRequests(sources, e) <==> Names(e, r.target) && Labelled(e, r) && Carries(sources, e, r)
  {
    if e.Directory? && !e.check.Unreadable? && !e.check.Changed? {
      ChildRequestsMean(sources, e.edition, e.root, e.path, e.children, r);
    }
  }

  lemma {:induction false} ChildRequestsMean(sources: Sources, edition: string, root: Root, dir: Path,
                                             children: seq<Path>, r: Request)
    ensures r in ChildRequests(sources, edition, root, dir, children) <==>
              && dir <= r.target && r.target[|dir|..] in children
              && r == FileOrMissing(sources, Rom, edition, root, r.target, Blank)
  {
    if children != [] {
      ChildRequestsMean(sources, edition, root, dir, children[1..], r);
      assert (dir + children[0])[|dir|..] == children[0];
      assert dir <= r.target ==> r.target == dir + r.target[|dir|..];
    }
  }

  /** Every entry asks for something, but for an empty directory. */
  lemma UnplannableIsRequested(sources: Sources, e: Entry) returns (r: Request)
    requires Unplannable(sources, e)
    ensures r in EntryRequests(sources, e) && (r.RefusedRequest? || CatalogChanged(r))
  {
    r := EntryRequests(sources, e)[0];
  }

  lemma RequestOfEntry(p: Package, e: Entry, r: Request)
    requires e in p.entries && r in EntryRequests(p.sources, e)
    ensures r in Requests(p)
  {
    EntriesRequestsAre(p.sources, p.entries, r);
  }

  /** An entry that cannot be packaged keeps the whole package from being built, whatever
      the output holds and the ledger says. */
  lemma UnplannableConflicts(p: Package, e: Entry, out: Tree, owned: Ledger, hadManifest: bool, mode: Mode)
    requires e in p.entries && Unplannable(p.sources, e)
    ensures Fold(Requests(p), out, owned, hadManifest, mode).conflicts != []
  {
    var r := UnplannableIsRequested(p.sources, e);
    RequestOfEntry(p, e, r);
    PlanMeaning(Requests(p), out, owned, hadManifest, mode);
    var i: nat :| i < |Requests(p)| && Requests(p)[i] == r;
  }

  /*************** clean catalogs ***************/

  /** The plan has the entry put this content at `q`. */
  predicate Plans(sources: Sources, e: Entry, q: Path, b: Bytes) {
    !SkippedByPlan(e) && Puts(sources, e, q, b)
  }

  /** The conditions on a catalog, entry by entry: none is out of date, no target is
      reserved, and no two writers of one target disagree. */
  ghost predicate CleanEntries(p: Package) {
    && (forall e | e in p.entries :: !Unplannable(p.sources, e))
    && (forall e, q | e in p.entries && Names(e, q) :: !Reserved(q))
    && (forall q | q in p.metadata :: !Reserved(q))
    && (forall i, j | 0 <= i < j < |p.metadata| :: p.metadata[i] != p.metadata[j])
    && (forall e, q, b | e in p.entries && Plans(p.sources, e, q, b) :: AgreedAt(p, q, b))
  }

  /** Nothing else is planned at `q`. */
  ghost predicate AgreedAt(p: Package, q: Path, b: Bytes) {
    q !in p.metadata && forall f, c | f in p.entries && Plans(p.sources, f, q, c) :: c == b
  }

  lemma {:induction false} MetadataAt(paths: seq<Path>, k: nat)
    requires k < |paths|
    ensures |MetadataRequests(paths)| == |paths| && MetadataRequests(paths)[k] == MetadataRequest(paths[k])
  {
    if k > 0 {
      MetadataAt(paths[1..], k - 1);
    } else if |paths| > 1 {
      MetadataAt(paths[1..], 0);
    }
  }

  lemma RequestAt(p: Package, i: nat)
    requires i < |Requests(p)|
    ensures var n := |EntriesRequests(p.sources, p.entries)|;
            if i < n then exists e | e in p.entries :: Requests(p)[i] in EntryRequests(p.sources, e)
            else i - n < |p.metadata| && Requests(p)[i] == MetadataRequest(p.metadata[i - n])
  {
    var (es, ms) := (EntriesRequests(p.sources, p.entries), MetadataRequests(p.metadata));
    if i < |es| {
      assert Requests(p)[i] == es[i];
      EntriesRequestsAre(p.sources, p.entries, es[i]);
    } else {
      assert Requests(p)[i] == ms[i - |es|];
      if p.metadata != [] { MetadataAt(p.metadata, 0); }
      MetadataAt(p.metadata, i - |es|);
    }
  }

  /** An entry's request that is not refused plans its content. */
  lemma ActivePlans(p: Package, e: Entry, r: Request) returns (b: Bytes)
    requires e in p.entries && r in EntryRequests(p.sources, e) && !Unplannable(p.sources, e) && Active(r)
    ensures Plans(p.sources, e, r.target, b) && RequestSha(r) == Sha256(b) && !r.MetadataRequest?
    ensures !r.RefusedRequest? && !CatalogChanged(r)
  {
    EntryRequestsMean(p.sources, e, r);
    b := if r.FileRequest? then r.content else if r.ConfigRequest? then r.body else [];
  }

  lemma CleanRequest(p: Package, i: nat)
    requires CleanEntries(p) && i < |Requests(p)|
    ensures var r := Requests(p)[i]; !Reserved(r.target) && !r.RefusedRequest? && !CatalogChanged(r)
  {
    RequestAt(p, i);
    if i < |EntriesRequests(p.sources, p.entries)| {
      var e :| e in p.entries && Requests(p)[i] in EntryRequests(p.sources, e);
      EntryRequestsMean(p.sources, e, Requests(p)[i]);
      if Active(Requests(p)[i]) { var _ := ActivePlans(p, e, Requests(p)[i]); }
    }
  }

  lemma CleanWriters(p: Package, i: nat, j: nat)
    requires CleanEntries(p) && i < j < |Requests(p)|
    requires var rs := Requests(p); Active(rs[i]) && Active(rs[j]) && rs[i].target == rs[j].target
    ensures RequestSha(Requests(p)[i]) == RequestSha(Requests(p)[j]) != Blank
  {
    var (rs, n) := (Requests(p), |EntriesRequests(p.sources, p.entries)|);
    RequestAt(p, i);
    RequestAt(p, j);
    if i < n {
      var e :| e in p.entries && rs[i] in EntryRequests(p.sources, e);
      var b := ActivePlans(p, e, rs[i]);
      assert AgreedAt(p, rs[i].target, b);
      if j < n {
        var f :| f in p.entries && rs[j] in EntryRequests(p.sources, f);
        var c := ActivePlans(p, f, rs[j]);
      }
    }
  }

  /** What an entry plans is asked for. */
  lemma PlannedIsAsked(p: Package, e: Entry, q: Path, b: Bytes) returns (r: Request)
    requires e in p.entries && Plans(p.sources, e, q, b) && !Unplannable(p.sources, e)
    ensures r in Requests(p) && Active(r) && r.target == q && RequestSha(r) == Sha256(b) && !r.MetadataRequest?
  {
    if e.Template? {
      r := ConfigRequest(q, b);
    } else {
      r := FileRequest(if e.Asset? then Media else Rom, e.edition, q, b, Catalogued(e));
    }
    EntryRequestsMean(p.sources, e, r);
    RequestOfEntry(p, e, r);
  }

  lemma CleanMeansAgreed(p: Package, e: Entry, q: Path, b: Bytes)
    requires Clean(Requests(p)) && e in p.entries && Plans(p.sources, e, q, b)
    requires forall f | f in p.entries :: !Unplannable(p.sources, f)
    ensures AgreedAt(p, q, b)
  {
    var r := PlannedIsAsked(p, e, q, b);
    if q in p.metadata {
      MetadataIsRequested(p, q);
      WritersAgree(Requests(p), r, MetadataRequest(q));
    }
    forall f, c | f in p.entries && Plans(p.sources, f, q, c) ensures c == b {
      var r' := PlannedIsAsked(p, f, q, c);
      WritersAgree(Requests(p), r, r');
    }
  }

  lemma CleanMeansPlannable(p: Package, e: Entry)
    requires Clean(Requests(p)) && e in p.entries
    ensures !Unplannable(p.sources, e)
  {
    if Unplannable(p.sources, e) {
      var r := UnplannableIsRequested(p.sources, e);
      RequestOfEntry(p, e, r);
    }
  }

  /** Every named target is asked for. */
  lemma NamedIsAsked(p: Package, e: Entry, q: Path) returns (r: Request)
    requires e in p.entries && Names(e, q)
    ensures r in Requests(p) && r.target == q
  {
    match e {
      case Artifact(edition, root, path, sha) => r := FileOrMissing(p.sources, Rom, edition, root, path, sha);
      case Asset(edition, root, path, sha) => r := FileOrMissing(p.sources, Media, edition, root, path, sha);
      case Directory(edition, root, path, _, check) =>
        r := if check.Unreadable? then MissingRequest(Rom, edition, path)
        else if check.Changed? then RefusedRequest(Rom, edition, path)
        else FileOrMissing(p.sources, Rom, edition, root, q, Blank);
      case Template(path, body) => r := ConfigRequest(path, body);
      case RefusedLaunch(edition) => r := RefusedRequest(Launch, edition, LAUNCHES);
    }
    EntryRequestsMean(p.sources, e, r);
    RequestOfEntry(p, e, r);
  }

  lemma MetadataAsked(p: Package, k: nat)
    requires k < |p.metadata|
    ensures var n := |EntriesRequests(p.sources, p.entries)|;
            n + k < |Requests(p)| && Requests(p)[n + k] == MetadataRequest(p.metadata[k])
  {
    MetadataAt(p.metadata, k);
  }

  lemma MetadataOnce(p: Package)
    requires Clean(Requests(p))
    ensures forall q | q in p.metadata :: !Reserved(q)
    ensures forall i, j | 0 <= i < j < |p.metadata| :: p.metadata[i] != p.metadata[j]
  {
    forall i: nat, j: nat | i < j < |p.metadata| ensures p.metadata[i] != p.metadata[j] {
      MetadataAsked(p, i);
      MetadataAsked(p, j);
    }
    forall q | q in p.metadata ensures !Reserved(q) {
      var k: nat :| k < |p.metadata| && p.metadata[k] == q;
      MetadataAsked(p, k);
    }
  }

  /** The part of cleanliness that the output cannot change, told from the entries alone. */
  lemma CleanIff(p: Package)
    ensures Clean(Requests(p)) <==> CleanEntries(p)
  {
    if CleanEntries(p) {
      forall i: nat | i < |Requests(p)|
        ensures var r := Requests(p)[i]; !Reserved(r.target) && !r.RefusedRequest? && !CatalogChanged(r) {
        CleanRequest(p, i);
      }
      forall i: nat, j: nat | i < j < |Requests(p)| && Active(Requests(p)[i]) && Active(Requests(p)[j])
        && Requests(p)[i].target == Requests(p)[j].target
        ensures RequestSha(Requests(p)[i]) == RequestSha(Requests(p)[j]) != Blank {
        CleanWriters(p, i, j);
      }
    }
    if Clean(Requests(p)) {
      CleanMeansEntries(p);
    }
  }

  lemma CleanMeansEntries(p: Package)
    requires Clean(Requests(p))
    ensures CleanEntries(p)
  {
    forall e | e in p.entries ensures !Unplannable(p.sources, e) { CleanMeansPlannable(p, e); }
    forall e, q | e in p.entries && Names(e, q) ensures !Reserved(q) { var _ := NamedIsAsked(p, e, q); }
    MetadataOnce(p);
    forall e, q, b | e in p.entries && Plans(p.sources, e, q, b) ensures AgreedAt(p, q, b) {
      CleanMeansAgreed(p, e, q, b);
    }
  }

  /** When planning finds no conflict: the entries are clean, and the ledger permits every writer. */
  lemma ConflictFreeIff(p: Package, out: Tree, owned: Ledger, hadManifest: bool, mode: Mode)
    ensures Fold(Requests(p), out, owned, hadManifest, mode).conflicts == [] <==>
              CleanEntries(p) && OwnershipHolds(Requests(p), out, owned, hadManifest, mode)
  {
    CleanIff(p);
    PlanMeaning(Requests(p), out, owned, hadManifest, mode);
  }
}
