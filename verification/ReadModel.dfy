/** Reading games one by one (GetGame in internal/catalog/library_store.go), and why
    one owner's part of a batched, ordered query is that owner's own query. */
module ReadModel {
  import opened Catalog
  import opened Sorting
  import opened Text
  import opened Wrappers

  /*************** the database ***************/

  datatype GameRow = GameRow(id: string, title: string, platform: string, primary: string)

  datatype EditionRow = EditionRow(id: string, game: string, title: string, sortOrder: int, columns: seq<string>)

  datatype ArtifactRow = ArtifactRow(id: string, edition: string, discIndex: int, path: string, columns: seq<string>)

  datatype MediaRow = MediaRow(id: string, owner: Owner, kind: string, sortOrder: int, createdAt: string,
                               columns: seq<string>)

  datatype Database = Database(games: map<string, GameRow>, titles: map<TitleKey, string>, editions: seq<EditionRow>,
                               artifacts: seq<ArtifactRow>, media: seq<MediaRow>)

  /** The unique keys of migrations.go. */
  ghost predicate Keyed(db: Database) {
    && (forall g | g in db.games :: db.games[g].id == g)
    && (forall i, j | 0 <= i < |db.editions| && 0 <= j < |db.editions| && db.editions[i].id == db.editions[j].id ::
          i == j)
    && (forall i, j | 0 <= i < |db.artifacts| && 0 <= j < |db.artifacts|
        && db.artifacts[i].path == db.artifacts[j].path :: i == j)
    && (forall i, j | 0 <= i < |db.media| && 0 <= j < |db.media| && db.media[i].id == db.media[j].id :: i == j)
  }

  function Filter<R>(rows: seq<R>, keep: R -> bool): seq<R> {
    if rows == [] then [] else (if keep(rows[0]) then [rows[0]] else []) + Filter(rows[1..], keep)
  }

  /** SELECT … WHERE … ORDER BY … */
  function Query<R>(rows: seq<R>, keep: R -> bool, order: R -> seq<Atom>): seq<R> {
    Sort(By(order), Filter(rows, keep))
  }

  /*************** ordered queries ***************/

  lemma {:induction false} FilterCounts<R(!new)>(rows: seq<R>, keep: R -> bool, x: R)
    ensures multiset(Filter(rows, keep))[x] == if keep(x) then multiset(rows)[x] else 0
  {
    if rows != [] {
      FilterCounts(rows[1..], keep, x);
      assert rows == [rows[0]] + rows[1..];
    }
  }

  lemma {:induction false} FilterSorted<R(!new)>(le: (R, R) -> bool, rows: seq<R>, keep: R -> bool)
    requires SortedBy(le, rows)
    ensures SortedBy(le, Filter(rows, keep))
  {
    if rows != [] {
      FilterSorted(le, rows[1..], keep);
      var rest := Filter(rows[1..], keep);
      forall j | 0 <= j < |rest| ensures le(rows[0], rest[j]) {
        FilterCounts(rows[1..], keep, rest[j]);
        assert rest[j] in multiset(rest);
        assert rest[j] in rows[1..];
        var k :| 0 <= k < |rows[1..]| && rows[1..][k] == rest[j];
        assert rows[k + 1] == rest[j];
      }
    }
  }

  lemma QueryCounts<R(!new)>(rows: seq<R>, keep: R -> bool, order: R -> seq<Atom>, x: R)
    ensures multiset(Query(rows, keep, order))[x] == if keep(x) then multiset(rows)[x] else 0
  {
    SortPermutes(By(order), Filter(rows, keep));
    FilterCounts(rows, keep, x);
  }

  /** Rows that share their order columns are one row. */
  ghost predicate OrderTells<R>(rows: seq<R>, order: R -> seq<Atom>) {
    forall i, j | 0 <= i < |rows| && 0 <= j < |rows| && order(rows[i]) == order(rows[j]) :: rows[i] == rows[j]
  }

  lemma QueryDecisive<R(!new)>(rows: seq<R>, keep: R -> bool, order: R -> seq<Atom>)
    requires OrderTells(rows, order)
    ensures Decisive(By(order), Query(rows, keep, order))
  {
    var q := Query(rows, keep, order);
    forall i, j | 0 <= i < |q| && 0 <= j < |q| && By(order)(q[i], q[j]) && By(order)(q[j], q[i]) ensures q[i] == q[j] {
      QueryCounts(rows, keep, order, q[i]);
      QueryCounts(rows, keep, order, q[j]);
      assert q[i] in multiset(q) && q[j] in multiset(q);
      assert q[i] in rows && q[j] in rows;
      ListLeTotal(order(q[i]), order(q[j]));
    }
  }

  lemma SortedLike<R(!new)>(le: (R, R) -> bool, le': (R, R) -> bool, rows: seq<R>, mine: R -> bool)
    requires SortedBy(le, rows)
    requires forall x, y | mine(x) && mine(y) && le(x, y) :: le'(x, y)
    requires forall i | 0 <= i < |rows| :: mine(rows[i])
    ensures SortedBy(le', rows)
  {
  }

  lemma {:induction false} FilterKeeps<R(!new)>(rows: seq<R>, keep: R -> bool)
    ensures forall i | 0 <= i < |Filter(rows, keep)| :: keep(Filter(rows, keep)[i])
  {
    if rows != [] { FilterKeeps(rows[1..], keep); }
  }

  /** One owner's part of a batched query is that owner's own query: same rows, same
      order, though the batch orders by owner first. */
  lemma BatchedQuery<R(!new)>(rows: seq<R>, batch: R -> bool, mine: R -> bool, order: R -> seq<Atom>,
                              order': R -> seq<Atom>)
    requires forall x | mine(x) :: batch(x)
    requires forall x, y | mine(x) && mine(y) && By(order)(x, y) :: By(order')(x, y)
    requires OrderTells(rows, order')
    ensures Filter(Query(rows, batch, order), mine) == Query(rows, mine, order')
  {
    var (batched, single) := (Filter(Query(rows, batch, order), mine), Query(rows, mine, order'));
    ByIsComparison(order);
    ByIsComparison(order');
    SortSorts(By(order), Filter(rows, batch));
    FilterSorted(By(order), Query(rows, batch, order), mine);
    FilterKeeps(Query(rows, batch, order), mine);
    SortedLike(By(order), By(order'), batched, mine);
    SortSorts(By(order'), Filter(rows, mine));
    forall x ensures multiset(batched)[x] == multiset(single)[x] {
      FilterCounts(Query(rows, batch, order), mine, x);
      QueryCounts(rows, batch, order, x);
      QueryCounts(rows, mine, order', x);
    }
    QueryDecisive(rows, mine, order');
    SortedUnique(By(order'), single, batched);
  }

  /*************** the simple read ***************/

  function TitlesOf(db: Database, owner: Owner): map<string, string> {
    map k | k in db.titles && k.owner == owner :: k.locale := db.titles[k]
  }

  /** The position of the first '-' or '_'. */
  function DashIndex(s: string): Option<nat> {
    if s == "" then None
    else if s[0] == '-' || s[0] == '_' then Some(0)
    else match DashIndex(s[1..]) case None => None case Some(i) => Some(i + 1)
  }

  lemma {:induction false} FirstDash(s: string)
    ensures match DashIndex(s)
            case Some(i) => i < |s| && s[i] in {'-', '_'} && forall j | 0 <= j < i :: s[j] !in {'-', '_'}
            case None => forall j | 0 <= j < |s| :: s[j] !in {'-', '_'}
  {
    if s != "" {
      FirstDash(s[1..]);
      assert forall j | 0 < j < |s| :: s[j] == s[1..][j - 1];
    }
  }

  /** resolveTitle: the locale's title, its language's, or the default. */
  function ResolveTitle(locale: string, fallback: string, titles: map<string, string>): string {
    FirstDash(locale);
    var dash := DashIndex(locale);
    if locale != "" && locale in titles && titles[locale] != "" then titles[locale]
    else if dash.Some? && dash.value > 0 && locale[..dash.value] in titles
      && titles[locale[..dash.value]] != "" then titles[locale[..dash.value]]
    else fallback
  }

  /*************** what is displayed ***************/

  /** The language of a locale: the text before its first '-' or '_', if that is not empty. */
  predicate IsLanguage(locale: string, language: string) {
    && 0 < |language| < |locale| && locale[..|language|] == language && locale[|language|] in {'-', '_'}
    && forall c | c in language :: c !in {'-', '_'}
  }

  predicate HasTitle(db: Database, owner: Owner, locale: string) {
    TitleKey(owner, locale) in db.titles && db.titles[TitleKey(owner, locale)] != ""
  }

  /** The stored title for the locale is displayed, else the one for its language, else the row's own. */
  ghost predicate Displays(db: Database, owner: Owner, locale: string, own: string, shown: string) {
    if locale != "" && HasTitle(db, owner, locale) then shown == db.titles[TitleKey(owner, locale)]
    else
      && (forall l | IsLanguage(locale, l) && HasTitle(db, owner, l) :: shown == db.titles[TitleKey(owner, l)])
      && ((forall l | IsLanguage(locale, l) :: !HasTitle(db, owner, l)) ==> shown == own)
  }

  lemma LanguageIs(locale: string, l: string)
    ensures IsLanguage(locale, l) <==>
              && DashIndex(locale).Some? && 0 < DashIndex(locale).value <= |locale|
              && l == locale[..DashIndex(locale).value]
  {
    FirstDash(locale);
    if IsLanguage(locale, l) {
      assert forall j | 0 <= j < |l| :: locale[j] == l[j] && l[j] in l;
    }
  }

  /** resolveTitle on the stored titles. */
  lemma ResolvedIsDisplayed(db: Database, owner: Owner, locale: string, own: string)
    ensures Displays(db, owner, locale, own, ResolveTitle(locale, own, TitlesOf(db, owner)))
  {
    forall l ensures l in TitlesOf(db, owner) <==> TitleKey(owner, l) in db.titles {
      if TitleKey(owner, l) in db.titles { assert TitleKey(owner, l).owner == owner; }
    }
    FirstDash(locale);
    var dash := DashIndex(locale);
    if dash.Some? { LanguageIs(locale, locale[..dash.value]); }
    forall l | IsLanguage(locale, l) ensures dash.Some? && l == locale[..dash.value] { LanguageIs(locale, l); }
  }

  datatype EditionView = EditionView(row: EditionRow, titles: map<string, string>, artifacts: seq<ArtifactRow>,
                                     media: seq<MediaRow>, displayTitle: string)

  datatype GameView = GameView(row: GameRow, titles: map<string, string>, displayTitle: string, media: seq<MediaRow>,
                               editions: seq<EditionView>)

  function EditionOf(g: string): EditionRow -> bool { (r: EditionRow) => r.game == g }

  function ArtifactOf(e: string): ArtifactRow -> bool { (r: ArtifactRow) => r.edition == e }

  function MediaOf(owner: Owner): MediaRow -> bool { (r: MediaRow) => r.owner == owner }

  function EditionColumns(r: EditionRow): seq<Atom> { [Int(r.sortOrder), Text(Lower(r.title)), Text(r.id)] }

  function ArtifactColumns(r: ArtifactRow): seq<Atom> { [Int(r.discIndex), Text(r.path)] }

  function MediaColumns(r: MediaRow): seq<Atom> { [Text(r.kind), Int(r.sortOrder), Text(r.createdAt), Text(r.id)] }

  function EditionRowsOf(db: Database, g: string): seq<EditionRow> { Query(db.editions, EditionOf(g), EditionColumns) }

  function ArtifactRowsOf(db: Database, e: string): seq<ArtifactRow>
  {
    Query(db.artifacts, ArtifactOf(e), ArtifactColumns)
  }

  function MediaFor(db: Database, owner: Owner): seq<MediaRow> { Query(db.media, MediaOf(owner), MediaColumns) }

  function ReadEdition(db: Database, r: EditionRow, locale: string): EditionView {
    var titles := TitlesOf(db, EditionOwner(r.id));
    EditionView(r, titles, ArtifactRowsOf(db, r.id), MediaFor(db, EditionOwner(r.id)),
                ResolveTitle(locale, r.title, titles))
  }

  function ReadEditions(db: Database, rows: seq<EditionRow>, locale: string): (vs: seq<EditionView>)
    ensures |vs| == |rows|
  {
    seq(|rows|, i requires 0 <= i < |rows| => ReadEdition(db, rows[i], locale))
  }

  /** Everything that refers to a game, with these columns of its own. */
  function ReadGame(db: Database, g: string, row: GameRow, locale: string): GameView {
    var titles := TitlesOf(db, GameOwner(g));
    GameView(row, titles, ResolveTitle(locale, row.title, titles), MediaFor(db, GameOwner(g)),
             ReadEditions(db, EditionRowsOf(db, g), locale))
  }

  /** GetGame. */
  function GetGame(db: Database, g: string, locale: string): Option<GameView> {
    if g !in db.games then None else Some(ReadGame(db, g, db.games[g], locale))
  }

  /** The game's row; an unknown game has only its id. */
  function RowOf(db: Database, g: string): GameRow {
    if g in db.games then db.games[g] else GameRow(g, "", "", "")
  }

  /*************** what a game that was read shows ***************/

  /** The listed rows are the ones that belong here, each as often as it is stored, in this order. */
  ghost predicate Lists<R(!new)>(listed: seq<R>, stored: seq<R>, mine: R -> bool, before: (R, R) -> bool) {
    && (forall x :: multiset(listed)[x] == if mine(x) then multiset(stored)[x] else 0)
    && forall i, j | 0 <= i < j < |listed| :: before(listed[i], listed[j])
  }

  /** ORDER BY sort_order, lower(default_title), id. */
  predicate EditionBefore(a: EditionRow, b: EditionRow) {
    if a.sortOrder != b.sortOrder then a.sortOrder < b.sortOrder
    else if Lower(a.title) != Lower(b.title) then Le(Lower(a.title), Lower(b.title))
    else Le(a.id, b.id)
  }

  /** ORDER BY disc_index, path. */
  predicate ArtifactBefore(a: ArtifactRow, b: ArtifactRow) {
    if a.discIndex != b.discIndex then a.discIndex < b.discIndex else Le(a.path, b.path)
  }

  /** ORDER BY kind, sort_order, created_at, id. */
  predicate MediaBefore(a: MediaRow, b: MediaRow) {
    if a.kind != b.kind then Le(a.kind, b.kind)
    else if a.sortOrder != b.sortOrder then a.sortOrder < b.sortOrder
    else if a.createdAt != b.createdAt then Le(a.createdAt, b.createdAt)
    else Le(a.id, b.id)
  }

  lemma EditionOrder(a: EditionRow, b: EditionRow)
    ensures ListLe(EditionColumns(a), EditionColumns(b)) ==> EditionBefore(a, b)
  {
    var (x, y) := ([Text(Lower(a.title)), Text(a.id)], [Text(Lower(b.title)), Text(b.id)]);
    assert EditionColumns(a) == [Int(a.sortOrder)] + x && EditionColumns(b) == [Int(b.sortOrder)] + y;
    FirstColumn(Int(a.sortOrder), x, Int(b.sortOrder), y);
    TwoTexts(Lower(a.title), a.id, Lower(b.title), b.id);
  }

  lemma ArtifactOrder(a: ArtifactRow, b: ArtifactRow)
    ensures ListLe(ArtifactColumns(a), ArtifactColumns(b)) ==> ArtifactBefore(a, b)
  {
    ThenText(a.discIndex, a.path, b.discIndex, b.path);
  }

  lemma MediaOrder(a: MediaRow, b: MediaRow)
    ensures ListLe(MediaColumns(a), MediaColumns(b)) ==> MediaBefore(a, b)
  {
    var (v, w) := ([Text(a.createdAt), Text(a.id)], [Text(b.createdAt), Text(b.id)]);
    var (x, y) := ([Int(a.sortOrder)] + v, [Int(b.sortOrder)] + w);
    assert MediaColumns(a) == [Text(a.kind)] + x && MediaColumns(b) == [Text(b.kind)] + y;
    FirstColumn(Text(a.kind), x, Text(b.kind), y);
    FirstColumn(Int(a.sortOrder), v, Int(b.sortOrder), w);
    TwoTexts(a.createdAt, a.id, b.createdAt, b.id);
  }

  lemma QueryLists<R(!new)>(rows: seq<R>, keep: R -> bool, order: R -> seq<Atom>, before: (R, R) -> bool)
    requires forall a, b | ListLe(order(a), order(b)) :: before(a, b)
    ensures Lists(Query(rows, keep, order), rows, keep, before)
  {
    ByIsComparison(order);
    SortSorts(By(order), Filter(rows, keep));
    forall x ensures multiset(Query(rows, keep, order))[x] == if keep(x) then multiset(rows)[x] else 0 {
      QueryCounts(rows, keep, order, x);
    }
  }

  ghost predicate ListsEditions(db: Database, g: string, listed: seq<EditionRow>) {
    Lists(listed, db.editions, (r: EditionRow) => r.game == g, EditionBefore)
  }

  ghost predicate ListsArtifacts(db: Database, e: string, listed: seq<ArtifactRow>) {
    Lists(listed, db.artifacts, (r: ArtifactRow) => r.edition == e, ArtifactBefore)
  }

  ghost predicate ListsMedia(db: Database, owner: Owner, listed: seq<MediaRow>) {
    Lists(listed, db.media, (r: MediaRow) => r.owner == owner, MediaBefore)
  }

  lemma EditionRowsListed(db: Database, g: string)
    ensures ListsEditions(db, g, EditionRowsOf(db, g))
  {
    forall a, b | ListLe(EditionColumns(a), EditionColumns(b)) ensures EditionBefore(a, b) { EditionOrder(a, b); }
    QueryLists(db.editions, EditionOf(g), EditionColumns, EditionBefore);
  }

  lemma ArtifactRowsListed(db: Database, e: string)
    ensures ListsArtifacts(db, e, ArtifactRowsOf(db, e))
  {
    forall a, b | ListLe(ArtifactColumns(a), ArtifactColumns(b)) ensures ArtifactBefore(a, b) { ArtifactOrder(a, b); }
    QueryLists(db.artifacts, ArtifactOf(e), ArtifactColumns, ArtifactBefore);
  }

  lemma MediaListed(db: Database, owner: Owner)
    ensures ListsMedia(db, owner, MediaFor(db, owner))
  {
    forall a, b | ListLe(MediaColumns(a), MediaColumns(b)) ensures MediaBefore(a, b) { MediaOrder(a, b); }
    QueryLists(db.media, MediaOf(owner), MediaColumns, MediaBefore);
  }

  /** The titles stored for this owner, by locale. */
  ghost predicate HasTitles(db: Database, owner: Owner, titles: map<string, string>) {
    && (forall l | l in titles :: TitleKey(owner, l) in db.titles && titles[l] == db.titles[TitleKey(owner, l)])
    && (forall k | k in db.titles && k.owner == owner :: k.locale in titles)
  }

  /** A view of an edition tells what the tables say about it. */
  ghost predicate EditionShown(db: Database, locale: string, v: EditionView) {
    var owner := EditionOwner(v.row.id);
    && HasTitles(db, owner, v.titles) && Displays(db, owner, locale, v.row.title, v.displayTitle)
    && ListsArtifacts(db, v.row.id, v.artifacts) && ListsMedia(db, owner, v.media)
  }

  /** A view of a game tells what the tables say about it. */
  ghost predicate GameShown(db: Database, g: string, locale: string, v: GameView) {
    && v.row == RowOf(db, g)
    && HasTitles(db, GameOwner(g), v.titles) && Displays(db, GameOwner(g), locale, v.row.title, v.displayTitle)
    && ListsMedia(db, GameOwner(g), v.media)
    && ListsEditions(db, g, RowsOf(v.editions))
    && forall i | 0 <= i < |v.editions| :: EditionShown(db, locale, v.editions[i])
  }

  function RowsOf(vs: seq<EditionView>): seq<EditionRow> {
    seq(|vs|, i requires 0 <= i < |vs| => vs[i].row)
  }

  lemma ReadEditionShows(db: Database, r: EditionRow, locale: string)
    ensures EditionShown(db, locale, ReadEdition(db, r, locale))
  {
    ResolvedIsDisplayed(db, EditionOwner(r.id), locale, r.title);
    ArtifactRowsListed(db, r.id);
    MediaListed(db, EditionOwner(r.id));
  }

  /** Reading a game row by row shows what is stored. */
  lemma ReadGameShows(db: Database, g: string, locale: string)
    ensures GameShown(db, g, locale, ReadGame(db, g, RowOf(db, g), locale))
  {
    var v := ReadGame(db, g, RowOf(db, g), locale);
    ResolvedIsDisplayed(db, GameOwner(g), locale, v.row.title);
    MediaListed(db, GameOwner(g));
    EditionRowsListed(db, g);
    assert RowsOf(v.editions) == EditionRowsOf(db, g);
    forall i | 0 <= i < |v.editions| ensures EditionShown(db, locale, v.editions[i]) {
      ReadEditionShows(db, EditionRowsOf(db, g)[i], locale);
    }
  }

  /*************** batches ***************/

  function Flatten<T>(batches: seq<seq<T>>): seq<T> {
    if batches == [] then [] else batches[0] + Flatten(batches[1..])
  }

  lemma {:induction false} FlattenAppend<T>(batches: seq<seq<T>>, last: seq<T>)
    ensures Flatten(batches + [last]) == Flatten(batches) + last
  {
    if batches == [] {
      assert batches + [last] == [last] && [last][1..] == [];
      assert Flatten([last]) == last + Flatten([]);
    } else {
      FlattenAppend(batches[1..], last);
      assert (batches + [last])[1..] == batches[1..] + [last];
    }
  }

  /** stringBatches: consecutive batches, all full but perhaps the last, none empty. */
  method StringBatches(values: seq<string>, size: nat) returns (result: seq<seq<string>>)
    requires size > 0
    ensures Flatten(result) == values
    ensures forall i | 0 <= i < |result| :: 0 < |result[i]| <= size && (i < |result| - 1 ==> |result[i]| == size)
  {
    result := [];
    var start := 0;
    while start < |values|
      invariant Flatten(result) == values[..if start < |values| then start else |values|]
      invariant forall i | 0 <= i < |result| ::
                  0 < |result[i]| <= size && ((i < |result| - 1 || start <= |values|) ==> |result[i]| == size)
    {
      var end := if start + size < |values| then start + size else |values|;
      FlattenAppend(result, values[start..end]);
      assert values[..start] + values[start..end] == values[..end];
      result := result + [values[start..end]];
      start := start + size;
    }
    assert values[..|values|] == values;
  }
}
