/** The merge preview: counters gathered from ordered queries, and a fingerprint of
    every row the merge can touch. */
module MergePreview {
  import opened Catalog
  import opened Encodings
  import opened GameMerge
  import opened Sorting
  import opened Text
  import opened Wrappers

  /*************** query results ***************/

  /** Every row of `table` once. */
  ghost predicate Lists<K(!new), V>(rows: seq<(K, V)>, table: map<K, V>) {
    && (forall i | 0 <= i < |rows| :: rows[i].0 in table && rows[i].1 == table[rows[i].0])
    && DistinctKeys(rows)
    && (forall k | k in table :: exists i :: 0 <= i < |rows| && rows[i].0 == k)
  }

  ghost predicate DistinctKeys<K, V>(rows: seq<(K, V)>) {
    forall i, j | 0 <= i < j < |rows| :: rows[i].0 != rows[j].0
  }

  /** What the queries of buildGameMergePlan return; artifacts and media come with
      the game they belong to. */
  datatype Snapshot = Snapshot(target: Game, source: Game, titles: seq<(TitleKey, Title)>,
                               editions: seq<(string, Edition)>,
                               artifacts: seq<(string, (string, Artifact))>, media: seq<(string, (string, Media))>,
                               members: seq<(MemberKey, Member)>)

  predicate TitleConcerns(t: Tables, k: TitleKey, a: string, b: string) {
    match k.owner
    case GameOwner(g) => g == a || g == b
    case EditionOwner(e) => e in t.editions && (t.editions[e].game == a || t.editions[e].game == b)
  }

  function GameOfOwner(t: Tables, owner: Owner): string {
    match owner
    case GameOwner(g) => g
    case EditionOwner(e) => if e in t.editions then t.editions[e].game else ""
  }

  function RelevantTitles(t: Tables, a: string, b: string): map<TitleKey, Title> {
    map k | k in t.titles && TitleConcerns(t, k, a, b) :: t.titles[k]
  }

  function RelevantEditions(t: Tables, a: string, b: string): map<string, Edition> {
    map e | e in t.editions && (t.editions[e].game == a || t.editions[e].game == b) :: t.editions[e]
  }

  function RelevantArtifacts(t: Tables, a: string, b: string): map<string, (string, Artifact)> {
    map x | x in t.artifacts && GameOfOwner(t, EditionOwner(t.artifacts[x].edition)) in {a, b} ::
      (GameOfOwner(t, EditionOwner(t.artifacts[x].edition)), t.artifacts[x])
  }

  function RelevantMedia(t: Tables, a: string, b: string): map<string, (string, Media)> {
    map m | m in t.media && GameOfOwner(t, t.media[m].owner) in {a, b} :: (GameOfOwner(t, t.media[m].owner), t.media[m])
  }

  function RelevantMembers(t: Tables, a: string, b: string): map<MemberKey, Member> {
    map k | k in t.members && (k.game == a || k.game == b) :: t.members[k]
  }

  /*************** ORDER BY ***************/

  function TitleOrder(r: (TitleKey, Title)): seq<Atom> {
    match r.0.owner
    case GameOwner(g) => [Text("game"), Text(g), Text(r.0.locale)]
    case EditionOwner(e) => [Text("edition"), Text(e), Text(r.0.locale)]
  }

  function EditionOrder(r: (string, Edition)): seq<Atom> {
    [Text(r.1.game), Text(r.0)]
  }

  function ArtifactOrder(r: (string, (string, Artifact))): seq<Atom> {
    [Text(r.1.0), Text(r.0)]
  }

  function MediaOrder(r: (string, (string, Media))): seq<Atom> {
    [Text(r.1.0), Text(r.0)]
  }

  function MemberOrder(r: (MemberKey, Member)): seq<Atom> {
    [Text(r.0.series), Text(r.0.game)]
  }

  ghost predicate IsSnapshot(t: Tables, a: string, b: string, q: Snapshot)
    requires a in t.games && b in t.games
  {
    && q.target == t.games[a] && q.source == t.games[b]
    && Lists(q.titles, RelevantTitles(t, a, b)) && SortedBy(By(TitleOrder), q.titles)
    && Lists(q.editions, RelevantEditions(t, a, b)) && SortedBy(By(EditionOrder), q.editions)
    && Lists(q.artifacts, RelevantArtifacts(t, a, b)) && SortedBy(By(ArtifactOrder), q.artifacts)
    && Lists(q.media, RelevantMedia(t, a, b)) && SortedBy(By(MediaOrder), q.media)
    && Lists(q.members, RelevantMembers(t, a, b)) && SortedBy(By(MemberOrder), q.members)
  }

  lemma {:induction false} DistinctCounts<K(!new), V(!new)>(rows: seq<(K, V)>, x: (K, V))
    requires DistinctKeys(rows)
    ensures multiset(rows)[x] == if x in rows then 1 else 0
  {
    if rows != [] {
      DistinctCounts(rows[1..], x);
      assert rows == [rows[0]] + rows[1..];
      assert rows[0] !in rows[1..];
    }
  }

  lemma SameRows<K(!new), V(!new)>(rows: seq<(K, V)>, rows': seq<(K, V)>, table: map<K, V>, x: (K, V))
    requires Lists(rows, table) && Lists(rows', table) && x in rows
    ensures x in rows'
  {
    var i :| 0 <= i < |rows| && rows[i] == x;
    var j :| 0 <= j < |rows'| && rows'[j].0 == rows[i].0;
  }

  lemma OrderDecides<K(!new), V(!new)>(rows: seq<(K, V)>, order: ((K, V)) -> seq<Atom>)
    requires DistinctKeys(rows) && forall x, y | order(x) == order(y) :: x.0 == y.0
    ensures Decisive(By(order), rows)
  {
    forall i, j | 0 <= i < |rows| && 0 <= j < |rows| && By(order)(rows[i], rows[j]) && By(order)(rows[j], rows[i])
      ensures rows[i] == rows[j]
    {
      ListLeTotal(order(rows[i]), order(rows[j]));
    }
  }

  /** An ordered query has one result. */
  lemma ListingIsUnique<K(!new),
    V(!new)>(rows: seq<(K, V)>, rows': seq<(K, V)>, table: map<K, V>, order: ((K, V)) -> seq<Atom>)
    requires Lists(rows, table) && SortedBy(By(order), rows) && Lists(rows', table) && SortedBy(By(order), rows')
    requires forall x, y | order(x) == order(y) :: x.0 == y.0
    ensures rows == rows'
  {
    forall x ensures multiset(rows)[x] == multiset(rows')[x] {
      DistinctCounts(rows, x);
      DistinctCounts(rows', x);
      if x in rows { SameRows(rows, rows', table, x); }
      if x in rows' { SameRows(rows', rows, table, x); }
    }
    OrderDecides(rows, order);
    SortedUnique(By(order), rows, rows');
  }

  lemma TitleOrderTells(x: (TitleKey, Title), y: (TitleKey, Title))
    requires TitleOrder(x) == TitleOrder(y)
    ensures x.0 == y.0
  {
    assert TitleOrder(x)[0] == TitleOrder(y)[0] && TitleOrder(x)[1] == TitleOrder(y)[1]
      && TitleOrder(x)[2] == TitleOrder(y)[2];
  }

  lemma MemberOrderTells(x: (MemberKey, Member), y: (MemberKey, Member))
    requires MemberOrder(x) == MemberOrder(y)
    ensures x.0 == y.0
  {
    assert MemberOrder(x)[0] == MemberOrder(y)[0] && MemberOrder(x)[1] == MemberOrder(y)[1];
  }

  /** Previewing an unchanged catalog again gives the same snapshot, and so the same
      plan and fingerprint. */
  lemma PreviewIsStable(t: Tables, a: string, b: string, q: Snapshot, r: Snapshot)
    requires a in t.games && b in t.games && IsSnapshot(t, a, b, q) && IsSnapshot(t, a, b, r)
    ensures q == r
  {
    forall x, y | TitleOrder(x) == TitleOrder(y) ensures x.0 == y.0 { TitleOrderTells(x, y); }
    ListingIsUnique(q.titles, r.titles, RelevantTitles(t, a, b), TitleOrder);
    assert forall x, y | EditionOrder(x) == EditionOrder(y) :: EditionOrder(x)[1] == EditionOrder(y)[1];
    ListingIsUnique(q.editions, r.editions, RelevantEditions(t, a, b), EditionOrder);
    assert forall x, y | ArtifactOrder(x) == ArtifactOrder(y) :: ArtifactOrder(x)[1] == ArtifactOrder(y)[1];
    ListingIsUnique(q.artifacts, r.artifacts, RelevantArtifacts(t, a, b), ArtifactOrder);
    assert forall x, y | MediaOrder(x) == MediaOrder(y) :: MediaOrder(x)[1] == MediaOrder(y)[1];
    ListingIsUnique(q.media, r.media, RelevantMedia(t, a, b), MediaOrder);
    forall x, y | MemberOrder(x) == MemberOrder(y) ensures x.0 == y.0 { MemberOrderTells(x, y); }
    ListingIsUnique(q.members, r.members, RelevantMembers(t, a, b), MemberOrder);
  }

  /*************** counting rows ***************/

  /** The keys of the rows with some property. */
  function KeysWhere<K, V>(rows: seq<(K, V)>, p: (K, V) -> bool): set<K> {
    if rows == [] then {}
    else
      var (init, last) := (rows[..|rows| - 1], rows[|rows| - 1]);
      KeysWhere(init, p) + if p(last.0, last.1) then {last.0} else {}
  }

  lemma {:induction false} KeysIn<K(!new), V>(rows: seq<(K, V)>, p: (K, V) -> bool, k: K)
    ensures k in KeysWhere(rows, p) <==> exists i :: 0 <= i < |rows| && rows[i].0 == k && p(rows[i].0, rows[i].1)
  {
    if rows != [] {
      var init := rows[..|rows| - 1];
      KeysIn(init, p, k);
      if i :| 0 <= i < |init| && init[i].0 == k && p(init[i].0, init[i].1) {
        assert rows[i] == init[i];
      }
    }
  }

  lemma KeysStep<K(!new), V>(rows: seq<(K, V)>, i: nat, p: (K, V) -> bool)
    requires i < |rows| && DistinctKeys(rows)
    ensures KeysWhere(rows[..i + 1], p) == KeysWhere(rows[..i], p) + if p(rows[i].0, rows[i].1) then {rows[i].0} else {}
    ensures |KeysWhere(rows[..i + 1], p)| == |KeysWhere(rows[..i], p)| + if p(rows[i].0, rows[i].1) then 1 else 0
  {
    KeysIn(rows[..i], p, rows[i].0);
    assert rows[..i + 1][..i] == rows[..i] && rows[..i + 1][i] == rows[i];
  }

  lemma KeysMean<K(!new), V>(rows: seq<(K, V)>, table: map<K, V>, p: (K, V) -> bool)
    requires Lists(rows, table)
    ensures KeysWhere(rows, p) == set k | k in table && p(k, table[k])
  {
    forall k ensures k in KeysWhere(rows, p) <==> k in table && p(k, table[k]) {
      KeysIn(rows, p, k);
      if k in table {
        var i :| 0 <= i < |rows| && rows[i].0 == k;
      }
    }
  }

  function OwnedBy(g: string): (TitleKey, Title) -> bool {
    (k: TitleKey, v: Title) => k.owner == GameOwner(g)
  }

  function EditionIn(g: string): (string, Edition) -> bool {
    (id: string, e: Edition) => e.game == g
  }

  function ArtifactIn(g: string): (string, (string, Artifact)) -> bool {
    (id: string, row: (string, Artifact)) => row.0 == g
  }

  function GameMediaIn(g: string): (string, (string, Media)) -> bool {
    (id: string, row: (string, Media)) => row.0 == g && row.1.owner.GameOwner?
  }

  function EditionMediaIn(g: string): (string, (string, Media)) -> bool {
    (id: string, row: (string, Media)) => row.0 == g && row.1.owner.EditionOwner?
  }

  function MemberOf(g: string): (MemberKey, Member) -> bool {
    (k: MemberKey, v: Member) => k.game == g
  }

  function LocalesIn(rows: seq<(TitleKey, Title)>, g: string): set<string> {
    if rows == [] then {}
    else
      var (init, k) := (rows[..|rows| - 1], rows[|rows| - 1].0);
      LocalesIn(init, g) + if k.owner == GameOwner(g) then {k.locale} else {}
  }

  function SeriesIn(rows: seq<(MemberKey, Member)>, g: string): set<string> {
    if rows == [] then {}
    else
      var (init, k) := (rows[..|rows| - 1], rows[|rows| - 1].0);
      SeriesIn(init, g) + if k.game == g then {k.series} else {}
  }

  lemma {:induction false} LocalesAre(rows: seq<(TitleKey, Title)>, g: string, l: string)
    ensures l in LocalesIn(rows, g) <==> exists i :: 0 <= i < |rows| && rows[i].0 == TitleKey(GameOwner(g), l)
  {
    if rows != [] {
      var init := rows[..|rows| - 1];
      LocalesAre(init, g, l);
      if i :| 0 <= i < |init| && init[i].0 == TitleKey(GameOwner(g), l) {
        assert rows[i] == init[i];
      }
      if i :| 0 <= i < |rows| && rows[i].0 == TitleKey(GameOwner(g), l) {
        assert i < |init| ==> init[i] == rows[i];
      }
    }
  }

  lemma {:induction false} SeriesAre(rows: seq<(MemberKey, Member)>, g: string, s: string)
    ensures s in SeriesIn(rows, g) <==> exists i :: 0 <= i < |rows| && rows[i].0 == MemberKey(s, g)
  {
    if rows != [] {
      var init := rows[..|rows| - 1];
      SeriesAre(init, g, s);
      if i :| 0 <= i < |init| && init[i].0 == MemberKey(s, g) {
        assert rows[i] == init[i];
      }
      if i :| 0 <= i < |rows| && rows[i].0 == MemberKey(s, g) {
        assert i < |init| ==> init[i] == rows[i];
      }
    }
  }

  /*************** the plan ***************/

  datatype Plan = Plan(targetEditions: nat, sourceEditions: nat, resultEditions: nat,
                       sourceTitles: nat, addedTitles: nat, collidingTitles: nat,
                       sourceArtifacts: nat, sourceGameMedia: nat, sourceEditionMedia: nat,
                       sourceMemberships: nat, seriesCollisions: nat, fingerprint: string)

  /** The counters mean sizes of sets of rows. */
  function PlanOf(target: string, source: string, q: Snapshot): Plan {
    Plan(
      |KeysWhere(q.editions, EditionIn(target))|, |KeysWhere(q.editions, EditionIn(source))|,
      |KeysWhere(q.editions, EditionIn(target))| + |KeysWhere(q.editions, EditionIn(source))|,
      |KeysWhere(q.titles, OwnedBy(source))|,
      |LocalesIn(q.titles, source) - LocalesIn(q.titles, target)|,
        |LocalesIn(q.titles, source) * LocalesIn(q.titles, target)|,
      |KeysWhere(q.artifacts, ArtifactIn(source))|, |KeysWhere(q.media, GameMediaIn(source))|,
        |KeysWhere(q.media, EditionMediaIn(source))|,
      |KeysWhere(q.members, MemberOf(source))|, |SeriesIn(q.members, source) * SeriesIn(q.members, target)|,
      Stream(Digest(target, source, q)))
  }

  /*************** the digest ***************/

  /** fmt's %T:%v of a string and of an int. */
  function Str(s: string): string {
    "string:" + s
  }

  function Integer(n: int): string {
    if n < 0 then "-" + Decimal(-n) else Decimal(n)
  }

  function Num(n: int): string {
    "int:" + Integer(n)
  }

  function OwnerFields(owner: Owner): seq<string> {
    match owner
    case GameOwner(g) => [Str("game"), Str(g)]
    case EditionOwner(e) => [Str("edition"), Str(e)]
  }

  function TitleRecord(r: (TitleKey, Title)): seq<string> {
    ["localized_title"] + OwnerFields(r.0.owner) + [Str(r.0.locale), Str(r.1.text), Str(r.1.sortTitle)]
  }

  function EditionRecord(r: (string, Edition)): seq<string> {
    ["edition", Str(r.0), Str(r.1.game), Str(r.1.title), Num(r.1.sortOrder)] + r.1.columns
  }

  function ArtifactRecord(r: (string, (string, Artifact))): seq<string> {
    ["artifact", Str(r.1.0), Str(r.0), Str(r.1.1.edition), Str(r.1.1.path), Str(r.1.1.sourcePath),
     Str(r.1.1.sha256)] + r.1.1.columns
  }

  function MediaRecord(r: (string, (string, Media))): seq<string> {
    ["media", Str(r.1.0), Str(r.0),
     Str(if r.1.1.owner.GameOwner? then r.1.1.owner.game else "<null>"),
     Str(if r.1.1.owner.EditionOwner? then r.1.1.owner.edition else "<null>")] + r.1.1.columns
  }

  function MemberRecord(r: (MemberKey, Member)): seq<string> {
    ["series_member", Str(r.0.series), Str(r.0.game), Str(r.1.relation), Num(r.1.sortOrder)]
  }

  function GameRecord(id: string, g: Game): seq<string> {
    ["game", Str(id), Str(g.title), Str(g.platform), Str(g.primary)]
  }

  function Written<R>(rows: seq<R>, record: R -> seq<string>): seq<string> {
    if rows == [] then [] else record(rows[0]) + Written(rows[1..], record)
  }

  function Header(target: string, source: string, q: Snapshot): seq<string> {
    ["request", Str(target), Str(source)] + GameRecord(target, q.target) + GameRecord(source, q.source)
  }

  function Digest(target: string, source: string, q: Snapshot): seq<string> {
    Header(target, source, q) + Written(q.titles, TitleRecord) + Written(q.editions,
      EditionRecord) + Written(q.artifacts, ArtifactRecord)
    + Written(q.media, MediaRecord) + Written(q.members, MemberRecord)
  }

  lemma {:induction false} WrittenAppend<R>(rows: seq<R>, r: R, record: R -> seq<string>)
    ensures Written(rows + [r], record) == Written(rows, record) + record(r)
  {
    if rows == [] {
      assert rows + [r] == [r] && [r][1..] == [];
      assert Written([r], record) == record(r) + Written([], record);
    } else {
      WrittenAppend(rows[1..], r, record);
      assert (rows + [r])[1..] == rows[1..] + [r];
    }
  }

  lemma WrittenNext<R>(digest: seq<string>, rows: seq<R>, i: nat, record: R -> seq<string>)
    requires i < |rows|
    ensures digest + Written(rows[..i], record) + record(rows[i]) == digest + Written(rows[..i + 1], record)
  {
    assert rows[..i + 1] == rows[..i] + [rows[i]];
    WrittenAppend(rows[..i], rows[i], record);
    assert digest + Written(rows[..i], record) + record(rows[i]) ==
      digest + (Written(rows[..i], record) + record(rows[i]));
  }

  /*************** the loops of buildGameMergePlan ***************/

  lemma LocalesStep(rows: seq<(TitleKey, Title)>, i: nat, g: string)
    requires i < |rows|
    ensures LocalesIn(rows[..i + 1], g) == LocalesIn(rows[..i], g) + if rows[i].0.owner == GameOwner(g)
            then {rows[i].0.locale} else {}
  {
    assert rows[..i + 1][..i] == rows[..i];
  }

  ghost predicate TitlesRead(rows: seq<(TitleKey, Title)>, i: nat, target: string, source: string, digest: seq<string>,
                             targetLocales: set<string>, sourceLocales: set<string>, count: nat, written: seq<string>)
    requires i <= |rows|
  {
    && targetLocales == LocalesIn(rows[..i], target) && sourceLocales == LocalesIn(rows[..i], source)
    && count == |KeysWhere(rows[..i], OwnedBy(source))| && written == digest + Written(rows[..i], TitleRecord)
  }

  lemma TitlesNext(rows: seq<(TitleKey, Title)>, i: nat, target: string, source: string, digest: seq<string>,
                   targetLocales: set<string>, sourceLocales: set<string>, count: nat, written: seq<string>)
    requires i < |rows| && DistinctKeys(rows)
    requires TitlesRead(rows, i, target, source, digest, targetLocales, sourceLocales, count, written)
    ensures TitlesRead(rows, i + 1, target, source, digest,
                       targetLocales + if rows[i].0.owner == GameOwner(target) then {rows[i].0.locale} else {},
                       sourceLocales + if rows[i].0.owner == GameOwner(source) then {rows[i].0.locale} else {},
                       count + if rows[i].0.owner == GameOwner(source) then 1 else 0, written + TitleRecord(rows[i]))
  {
    LocalesStep(rows, i, target);
    LocalesStep(rows, i, source);
    KeysStep(rows, i, OwnedBy(source));
    WrittenNext(digest, rows, i, TitleRecord);
  }

  method ReadTitles(rows: seq<(TitleKey, Title)>, target: string, source: string, digest: seq<string>)
    returns (targetLocales: set<string>, sourceLocales: set<string>, count: nat, written: seq<string>)
    requires DistinctKeys(rows)
    ensures targetLocales == LocalesIn(rows, target) && sourceLocales == LocalesIn(rows, source)
    ensures count == |KeysWhere(rows, OwnedBy(source))| && written == digest + Written(rows, TitleRecord)
  {
    targetLocales, sourceLocales, count, written := {}, {}, 0, digest;
    for i := 0 to |rows|
      invariant TitlesRead(rows, i, target, source, digest, targetLocales, sourceLocales, count, written)
    {
      TitlesNext(rows, i, target, source, digest, targetLocales, sourceLocales, count, written);
      var k := rows[i].0;
      written := written + TitleRecord(rows[i]);
      targetLocales := targetLocales + if k.owner == GameOwner(target) then {k.locale} else {};
      sourceLocales := sourceLocales + if k.owner == GameOwner(source) then {k.locale} else {};
      count := count + if k.owner == GameOwner(source) then 1 else 0;
    }
    assert rows[..|rows|] == rows;
  }

  method CompareLocales(sourceLocales: set<string>, targetLocales: set<string>) returns (added: nat, colliding: nat)
    ensures added == |sourceLocales - targetLocales| && colliding == |sourceLocales * targetLocales|
  {
    added, colliding := 0, 0;
    var pending := sourceLocales;
    ghost var done: set<string> := {};
    while pending != {}
      invariant done !! pending && done + pending == sourceLocales
      invariant added == |done - targetLocales| && colliding == |done * targetLocales|
      decreases pending
    {
      var l :| l in pending;
      Intersect(done, l, targetLocales);
      Subtract(done, l, targetLocales);
      pending, done := pending - {l}, done + {l};
      if l in targetLocales { colliding := colliding + 1; } else { added := added + 1; }
    }
    assert done == sourceLocales;
  }

  ghost predicate EditionsRead(rows: seq<(string, Edition)>, i: nat, target: string, source: string,
                               digest: seq<string>, inTarget: nat, inSource: nat, written: seq<string>)
    requires i <= |rows|
  {
    && inTarget == |KeysWhere(rows[..i], EditionIn(target))| && inSource == |KeysWhere(rows[..i], EditionIn(source))|
    && written == digest + Written(rows[..i], EditionRecord)
  }

  lemma EditionsNext(rows: seq<(string, Edition)>, i: nat, target: string, source: string, digest: seq<string>,
                     inTarget: nat, inSource: nat, written: seq<string>)
    requires i < |rows| && DistinctKeys(rows)
    requires EditionsRead(rows, i, target, source, digest, inTarget, inSource, written)
    ensures EditionsRead(rows, i + 1, target, source, digest, inTarget + if rows[i].1.game == target then 1 else 0,
                         inSource + if rows[i].1.game == source then 1 else 0, written + EditionRecord(rows[i]))
  {
    KeysStep(rows, i, EditionIn(target));
    KeysStep(rows, i, EditionIn(source));
    WrittenNext(digest, rows, i, EditionRecord);
  }

  method ReadEditions(rows: seq<(string, Edition)>, target: string, source: string, digest: seq<string>)
    returns (inTarget: nat, inSource: nat, written: seq<string>)
    requires DistinctKeys(rows) && target != source
    requires forall i | 0 <= i < |rows| :: rows[i].1.game == target || rows[i].1.game == source
    ensures inTarget == |KeysWhere(rows, EditionIn(target))| && inSource == |KeysWhere(rows, EditionIn(source))|
    ensures written == digest + Written(rows, EditionRecord)
  {
    inTarget, inSource, written := 0, 0, digest;
    for i := 0 to |rows|
      invariant EditionsRead(rows, i, target, source, digest, inTarget, inSource, written)
    {
      EditionsNext(rows, i, target, source, digest, inTarget, inSource, written);
      written := written + EditionRecord(rows[i]);
      if rows[i].1.game == target { inTarget := inTarget + 1; } else { inSource := inSource + 1; }
    }
    assert rows[..|rows|] == rows;
  }

  method ReadArtifacts(rows: seq<(string, (string, Artifact))>, source: string, digest: seq<string>)
    returns (count: nat, written: seq<string>)
    requires DistinctKeys(rows)
    ensures count == |KeysWhere(rows, ArtifactIn(source))| && written == digest + Written(rows, ArtifactRecord)
  {
    count, written := 0, digest;
    for i := 0 to |rows|
      invariant count == |KeysWhere(rows[..i], ArtifactIn(source))|
      invariant written == digest + Written(rows[..i], ArtifactRecord)
    {
      KeysStep(rows, i, ArtifactIn(source));
      WrittenNext(digest, rows, i, ArtifactRecord);
      written := written + ArtifactRecord(rows[i]);
      if rows[i].1.0 == source { count := count + 1; }
    }
    assert rows[..|rows|] == rows;
  }

  ghost predicate MediaRead(rows: seq<(string, (string, Media))>, i: nat, source: string, digest: seq<string>,
                            ofGame: nat, ofEditions: nat, written: seq<string>)
    requires i <= |rows|
  {
    && ofGame == |KeysWhere(rows[..i], GameMediaIn(source))|
    && ofEditions == |KeysWhere(rows[..i], EditionMediaIn(source))|
    && written == digest + Written(rows[..i], MediaRecord)
  }

  lemma MediaNext(rows: seq<(string, (string, Media))>, i: nat, source: string, digest: seq<string>,
                  ofGame: nat, ofEditions: nat, written: seq<string>)
    requires i < |rows| && DistinctKeys(rows) && MediaRead(rows, i, source, digest, ofGame, ofEditions, written)
    ensures var (g, owner) := (rows[i].1.0, rows[i].1.1.owner);
            MediaRead(rows, i + 1, source, digest, ofGame + if g == source && owner.GameOwner? then 1 else 0,
                      ofEditions + if g == source && owner.EditionOwner? then 1 else 0, written + MediaRecord(rows[i]))
  {
    KeysStep(rows, i, GameMediaIn(source));
    KeysStep(rows, i, EditionMediaIn(source));
    WrittenNext(digest, rows, i, MediaRecord);
  }

  method ReadMedia(rows: seq<(string, (string, Media))>, source: string, digest: seq<string>)
    returns (ofGame: nat, ofEditions: nat, written: seq<string>)
    requires DistinctKeys(rows)
    ensures ofGame == |KeysWhere(rows, GameMediaIn(source))| && ofEditions == |KeysWhere(rows, EditionMediaIn(source))|
    ensures written == digest + Written(rows, MediaRecord)
  {
    ofGame, ofEditions, written := 0, 0, digest;
    for i := 0 to |rows|
      invariant MediaRead(rows, i, source, digest, ofGame, ofEditions, written)
    {
      MediaNext(rows, i, source, digest, ofGame, ofEditions, written);
      written := written + MediaRecord(rows[i]);
      if rows[i].1.0 == source {
        if rows[i].1.1.owner.GameOwner? { ofGame := ofGame + 1; } else { ofEditions := ofEditions + 1; }
      }
    }
    assert rows[..|rows|] == rows;
  }

  lemma SeriesStep(rows: seq<(MemberKey, Member)>, i: nat, g: string)
    requires i < |rows| && DistinctKeys(rows)
    ensures SeriesIn(rows[..i + 1], g) == SeriesIn(rows[..i], g) + if rows[i].0.game == g then {rows[i].0.series}
            else {}
    ensures rows[i].0.game == g ==> rows[i].0.series !in SeriesIn(rows[..i], g)
  {
    assert rows[..i + 1][..i] == rows[..i];
    SeriesAre(rows[..i], g, rows[i].0.series);
  }

  method ReadMembers(rows: seq<(MemberKey, Member)>, target: string, digest: seq<string>)
    returns (targetSeries: set<string>, written: seq<string>)
    requires DistinctKeys(rows)
    ensures targetSeries == SeriesIn(rows, target) && written == digest + Written(rows, MemberRecord)
  {
    targetSeries, written := {}, digest;
    for i := 0 to |rows|
      invariant targetSeries == SeriesIn(rows[..i], target) && written == digest + Written(rows[..i], MemberRecord)
    {
      SeriesStep(rows, i, target);
      WrittenNext(digest, rows, i, MemberRecord);
      written := written + MemberRecord(rows[i]);
      if rows[i].0.game == target { targetSeries := targetSeries + {rows[i].0.series}; }
    }
    assert rows[..|rows|] == rows;
  }

  lemma CollisionStep(rows: seq<(MemberKey, Member)>, i: nat, source: string, targetSeries: set<string>)
    requires i < |rows| && DistinctKeys(rows)
    ensures |KeysWhere(rows[..i + 1], MemberOf(source))| ==
            |KeysWhere(rows[..i], MemberOf(source))| + if rows[i].0.game == source then 1 else 0
    ensures |SeriesIn(rows[..i + 1], source) * targetSeries|
            == |SeriesIn(rows[..i], source) * targetSeries| + if rows[i].0.game == source
              && rows[i].0.series in targetSeries then 1 else 0
  {
    KeysStep(rows, i, MemberOf(source));
    SeriesStep(rows, i, source);
    if rows[i].0.game == source {
      Intersect(SeriesIn(rows[..i], source), rows[i].0.series, targetSeries);
    }
  }

  method CountCollisions(rows: seq<(MemberKey, Member)>, source: string, targetSeries: set<string>)
    returns (count: nat, collisions: nat)
    requires DistinctKeys(rows)
    ensures count == |KeysWhere(rows, MemberOf(source))| && collisions == |SeriesIn(rows, source) * targetSeries|
  {
    count, collisions := 0, 0;
    for i := 0 to |rows|
      invariant count == |KeysWhere(rows[..i], MemberOf(source))|
      invariant collisions == |SeriesIn(rows[..i], source) * targetSeries|
    {
      CollisionStep(rows, i, source, targetSeries);
      if rows[i].0.game == source {
        count := count + 1;
        if rows[i].0.series in targetSeries { collisions := collisions + 1; }
      }
    }
    assert rows[..|rows|] == rows;
  }

  lemma Subtract(a: set<string>, x: string, b: set<string>)
    requires x !in a
    ensures |(a + {x}) - b| == |a - b| + if x in b then 0 else 1
  {
    assert (a + {x}) - b == (a - b) + if x in b then {} else {x};
  }

  lemma Intersect(a: set<string>, x: string, b: set<string>)
    requires x !in a
    ensures |(a + {x}) * b| == |a * b| + if x in b then 1 else 0
  {
    assert (a + {x}) * b == a * b + if x in b then {x} else {};
  }

  /** No row comes twice, and the editions are those of the two games. */
  ghost predicate Readable(target: string, source: string, q: Snapshot) {
    && DistinctKeys(q.titles) && DistinctKeys(q.editions) && DistinctKeys(q.artifacts) && DistinctKeys(q.media)
       && DistinctKeys(q.members)
    && forall i | 0 <= i < |q.editions| :: q.editions[i].1.game == target || q.editions[i].1.game == source
  }

  lemma SnapshotIsReadable(t: Tables, target: string, source: string, q: Snapshot)
    requires target in t.games && source in t.games && IsSnapshot(t, target, source, q)
    ensures Readable(target, source, q)
  {
  }

  /** The loops, one after the other. */
  method Gather(target: string, source: string, q: Snapshot) returns (plan: Plan)
    requires target != source && Readable(target, source, q)
    ensures plan == PlanOf(target, source, q)
  {
    var digest := Header(target, source, q);
    var targetLocales, sourceLocales, sourceTitles;
    targetLocales, sourceLocales, sourceTitles, digest := ReadTitles(q.titles, target, source, digest);
    var added, colliding := CompareLocales(sourceLocales, targetLocales);
    var targetEditions, sourceEditions;
    targetEditions, sourceEditions, digest := ReadEditions(q.editions, target, source, digest);
    var artifacts;
    artifacts, digest := ReadArtifacts(q.artifacts, source, digest);
    var gameMedia, editionMedia;
    gameMedia, editionMedia, digest := ReadMedia(q.media, source, digest);
    var targetSeries;
    targetSeries, digest := ReadMembers(q.members, target, digest);
    var memberships, collisions := CountCollisions(q.members, source, targetSeries);
    plan := Plan(targetEditions, sourceEditions, targetEditions + sourceEditions, sourceTitles, added, colliding,
                 artifacts, gameMedia, editionMedia, memberships, collisions, Stream(digest));
  }

  /** validateMergeIDs and buildGameMergePlan, `q` being what the queries return. */
  method BuildGameMergePlan(t: Tables, target: string, source: string, q: Snapshot) returns (r: Result<Plan, Error>)
    requires target in t.games && source in t.games ==> IsSnapshot(t, target, source, q)
    ensures r == Err(Invalid) <==> Blank(target) || Blank(source) || target == source
    ensures r.Err? && r != Err(Invalid) ==>
              r == if target in t.games && source in t.games then Err(PlatformMismatch) else Err(NotFound)
    ensures r == Err(PlatformMismatch) ==>
              target in t.games && source in t.games && t.games[target].platform != t.games[source].platform
    ensures r.Ok? ==>
              target != source && target in t.games && source in t.games
                && t.games[target].platform == t.games[source].platform
                      && r.value == PlanOf(target, source, q)
  {
    if Blank(target) || Blank(source) || target == source { return Err(Invalid); }
    if target !in t.games || source !in t.games { return Err(NotFound); }
    if t.games[target].platform != t.games[source].platform { return Err(PlatformMismatch); }
    SnapshotIsReadable(t, target, source, q);
    var plan := Gather(target, source, q);
    return Ok(plan);
  }

  /*************** the preview predicts the merge ***************/

  lemma {:induction false} OneTitlePerLocale(rows: seq<(TitleKey, Title)>, g: string)
    requires DistinctKeys(rows)
    ensures |KeysWhere(rows, OwnedBy(g))| == |LocalesIn(rows, g)|
  {
    if rows != [] {
      var n := |rows| - 1;
      OneTitlePerLocale(rows[..n], g);
      KeysStep(rows, n, OwnedBy(g));
      assert rows[..n + 1] == rows;
      LocalesAre(rows[..n], g, rows[n].0.locale);
    }
  }

  lemma {:induction false} OneMembershipPerSeries(rows: seq<(MemberKey, Member)>, g: string)
    requires DistinctKeys(rows)
    ensures |KeysWhere(rows, MemberOf(g))| == |SeriesIn(rows, g)|
  {
    if rows != [] {
      var n := |rows| - 1;
      OneMembershipPerSeries(rows[..n], g);
      KeysStep(rows, n, MemberOf(g));
      assert rows[..n + 1] == rows;
      SeriesStep(rows, n, g);
    }
  }

  lemma SnapshotLocales(t: Tables, a: string, b: string, q: Snapshot, g: string)
    requires Lists(q.titles, RelevantTitles(t, a, b)) && (g == a || g == b)
    ensures LocalesIn(q.titles, g) == Locales(t.titles, g)
  {
    forall l ensures l in LocalesIn(q.titles, g) <==> l in Locales(t.titles, g) {
      LocalesAre(q.titles, g, l);
      if l in Locales(t.titles, g) { assert TitleKey(GameOwner(g), l) in RelevantTitles(t, a, b); }
    }
  }

  lemma SnapshotSeries(t: Tables, a: string, b: string, q: Snapshot, g: string)
    requires Lists(q.members, RelevantMembers(t, a, b)) && (g == a || g == b)
    ensures SeriesIn(q.members, g) == SeriesOf(t.members, g)
  {
    forall s ensures s in SeriesIn(q.members, g) <==> s in SeriesOf(t.members, g) {
      SeriesAre(q.members, g, s);
      if s in SeriesOf(t.members, g) { assert MemberKey(s, g) in RelevantMembers(t, a, b); }
    }
  }

  lemma SnapshotEditions(t: Tables, a: string, b: string, q: Snapshot, g: string)
    requires Lists(q.editions, RelevantEditions(t, a, b)) && (g == a || g == b)
    ensures KeysWhere(q.editions, EditionIn(g)) == EditionsOf(t, g)
  {
    KeysMean(q.editions, RelevantEditions(t, a, b), EditionIn(g));
  }

  lemma SnapshotArtifacts(t: Tables, a: string, b: string, q: Snapshot)
    requires Lists(q.artifacts, RelevantArtifacts(t, a, b)) && ForeignKeys(t)
    ensures KeysWhere(q.artifacts, ArtifactIn(b)) == ArtifactsOf(t, b)
  {
    KeysMean(q.artifacts, RelevantArtifacts(t, a, b), ArtifactIn(b));
  }

  lemma SnapshotMedia(t: Tables, a: string, b: string, q: Snapshot)
    requires Lists(q.media, RelevantMedia(t, a, b)) && ForeignKeys(t)
    ensures KeysWhere(q.media, GameMediaIn(b)) == GameMedia(t, b)
    ensures KeysWhere(q.media, EditionMediaIn(b)) == EditionMedia(t, b)
  {
    KeysMean(q.media, RelevantMedia(t, a, b), GameMediaIn(b));
    KeysMean(q.media, RelevantMedia(t, a, b), EditionMediaIn(b));
  }

  lemma Sizes<T>(a: set<T>, b: set<T>)
    ensures |a + b| == |a| + |b - a| && |b| == |b - a| + |b * a|
    ensures a !! b ==> |a + b| == |a| + |b|
  {
    assert a + b == a + (b - a);
    assert b == (b - a) + (b * a);
    if a !! b { assert b - a == b; }
  }

  lemma MergedLocales(t: Tables, after: Tables, target: string, source: string)
    requires target != source && TitlesShape(t, after, target, source)
    ensures Locales(after.titles, target) == Locales(t.titles, target) + Locales(t.titles, source)
  {
    forall l ensures l in Locales(after.titles, target) <==>
        l in Locales(t.titles, target) + Locales(t.titles, source) {
      assert TitleShape(t.titles, after.titles, target, source, TitleKey(GameOwner(target), l));
    }
  }

  lemma MergedSeries(t: Tables, after: Tables, target: string, source: string)
    requires target != source && MembersShape(t, after, target, source)
    ensures SeriesOf(after.members, target) == SeriesOf(t.members, target) + SeriesOf(t.members, source)
  {
    forall s ensures s in SeriesOf(after.members, target) <==>
        s in SeriesOf(t.members, target) + SeriesOf(t.members, source) {
      assert MemberShape(t.members, after.members, target, source, MemberKey(s, target));
    }
  }

  /** The counters describe the games before the merge ... */
  lemma PlanMeans(t: Tables, target: string, source: string, q: Snapshot)
    requires target in t.games && source in t.games && target != source && ForeignKeys(t)
    requires IsSnapshot(t, target, source, q)
    ensures var plan := PlanOf(target, source, q);
      && plan.resultEditions == |EditionsOf(t, target)| + |EditionsOf(t, source)|
      && plan.sourceTitles == |Locales(t.titles, source)| == plan.addedTitles + plan.collidingTitles
      && plan.addedTitles == |Locales(t.titles, source) - Locales(t.titles, target)|
      && plan.sourceMemberships == |SeriesOf(t.members, source)|
      && plan.seriesCollisions == |SeriesOf(t.members, source) * SeriesOf(t.members, target)|
      && plan.sourceArtifacts == |ArtifactsOf(t, source)|
      && plan.sourceGameMedia == |GameMedia(t, source)| && plan.sourceEditionMedia == |EditionMedia(t, source)|
  {
    SnapshotEditions(t, target, source, q, target);
    SnapshotEditions(t, target, source, q, source);
    SnapshotLocales(t, target, source, q, target);
    SnapshotLocales(t, target, source, q, source);
    SnapshotSeries(t, target, source, q, target);
    SnapshotSeries(t, target, source, q, source);
    SnapshotArtifacts(t, target, source, q);
    SnapshotMedia(t, target, source, q);
    OneTitlePerLocale(q.titles, source);
    OneMembershipPerSeries(q.members, source);
    Sizes(Locales(t.titles, target), Locales(t.titles, source));
  }

  /** ... and tell what the target has after it. */
  lemma PreviewPredicts(t: Tables, target: string, source: string, q: Snapshot)
    requires target in t.games && source in t.games && target != source && ForeignKeys(t)
    requires IsSnapshot(t, target, source, q)
    ensures var (plan, after) := (PlanOf(target, source, q), Merged(t, target, source));
      && |EditionsOf(after, target)| == plan.resultEditions
      && |Locales(after.titles, target)| == |Locales(t.titles, target)| + plan.addedTitles
      && |SeriesOf(after.members, target)| ==
         |SeriesOf(t.members, target)| + plan.sourceMemberships - plan.seriesCollisions
      && |ArtifactsOf(after, target)| == |ArtifactsOf(t, target)| + plan.sourceArtifacts
      && |GameMedia(after, target)| == |GameMedia(t, target)| + plan.sourceGameMedia
      && |EditionMedia(after, target)| == |EditionMedia(t, target)| + plan.sourceEditionMedia
  {
    var after := Merged(t, target, source);
    PlanMeans(t, target, source, q);
    MergedIs(t, target, source);
    PredictedSizes(t, after, target, source);
  }

  lemma PredictedSizes(t: Tables, after: Tables, target: string, source: string)
    requires target in t.games && source in t.games && target != source && MergeShape(t, after, target, source)
    ensures |EditionsOf(after, target)| == |EditionsOf(t, target)| + |EditionsOf(t, source)|
    ensures |Locales(after.titles, target)| ==
            |Locales(t.titles, target)| + |Locales(t.titles, source) - Locales(t.titles, target)|
    ensures |SeriesOf(after.members, target)| == |SeriesOf(t.members, target)| + |SeriesOf(t.members, source)|
                                                 - |SeriesOf(t.members, source) * SeriesOf(t.members, target)|
    ensures |ArtifactsOf(after, target)| == |ArtifactsOf(t, target)| + |ArtifactsOf(t, source)|
    ensures |GameMedia(after, target)| == |GameMedia(t, target)| + |GameMedia(t, source)|
    ensures |EditionMedia(after, target)| == |EditionMedia(t, target)| + |EditionMedia(t, source)|
  {
    MergeConserves(t, after, target, source);
    MergedLocales(t, after, target, source);
    MergedSeries(t, after, target, source);
    Sizes(EditionsOf(t, target), EditionsOf(t, source));
    Sizes(Locales(t.titles, target), Locales(t.titles, source));
    Sizes(SeriesOf(t.members, target), SeriesOf(t.members, source));
    Sizes(ArtifactsOf(t, target), ArtifactsOf(t, source));
    Sizes(GameMedia(t, target), GameMedia(t, source));
    Sizes(EditionMedia(t, target), EditionMedia(t, source));
  }
}
