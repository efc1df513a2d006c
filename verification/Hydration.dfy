/** Hydrating many games at once (loadGamesByIDs in internal/catalog/read_models.go).
    Edition slices live in an explicit memory: appending may copy a slice to new
    cells, which leaves pointers into the old ones stale. */
module Hydration {
  import opened Catalog
  import opened ReadModel
  import opened Sorting
  import opened Text
  import opened Wrappers

  /*************** memory ***************/

  type Addr = nat

  /** A Game under construction; its Editions slice is a list of cells. */
  datatype Shell = Shell(row: GameRow, titles: map<string, string>, media: seq<MediaRow>, editions: seq<Addr>)

  function EmptyShell(g: string): Shell {
    Shell(GameRow(g, "", "", ""), map[], [], [])
  }

  function Bare(r: EditionRow): EditionView {
    EditionView(r, map[], [], [], "")
  }

  function BareAll(rows: seq<EditionRow>): seq<EditionView> {
    seq(|rows|, i requires 0 <= i < |rows| => Bare(rows[i]))
  }

  datatype Memory = Memory(games: map<string, Shell>, cells: map<Addr, EditionView>, next: Addr)

  ghost predicate InCells(cells: map<Addr, EditionView>, slice: seq<Addr>) {
    forall i | 0 <= i < |slice| :: slice[i] in cells
  }

  /** Every slice element is a cell, and no cell lies beyond the next free address. */
  ghost predicate Sound(m: Memory) {
    && (forall g | g in m.games :: InCells(m.cells, m.games[g].editions))
    && (forall a | a in m.cells :: a < m.next)
  }

  ghost function View(cells: map<Addr, EditionView>, slice: seq<Addr>): seq<EditionView>
    requires InCells(cells, slice)
  {
    seq(|slice|, i requires 0 <= i < |slice| => cells[slice[i]])
  }

  /** Cells that existed keep their contents. */
  ghost predicate Extends(cells: map<Addr, EditionView>, cells': map<Addr, EditionView>) {
    forall a | a in cells :: a in cells' && cells'[a] == cells[a]
  }

  /** A slice reallocation: every element is copied to a new cell. */
  method Reallocate(cells: map<Addr, EditionView>, slice: seq<Addr>, next: Addr)
    returns (cells': map<Addr, EditionView>, slice': seq<Addr>, next': Addr)
    requires InCells(cells, slice) && forall a | a in cells :: a < next
    ensures InCells(cells', slice') && forall a | a in cells' :: a < next'
    ensures Extends(cells, cells') && View(cells', slice') == View(cells, slice)
  {
    cells', slice', next' := cells, [], next;
    for i := 0 to |slice|
      invariant |slice'| == i && InCells(cells', slice') && forall a | a in cells' :: a < next'
      invariant Extends(cells, cells')
      invariant forall j | 0 <= j < i :: cells'[slice'[j]] == cells[slice[j]]
    {
      cells', slice', next' := cells'[next' := cells[slice[i]]], slice' + [next'], next' + 1;
    }
  }

  /** append(games[g].Editions, e): in place, or into a new copy of the whole slice. */
  method Append(m: Memory, g: string, e: EditionView) returns (m': Memory)
    requires Sound(m) && g in m.games
    ensures Sound(m') && Extends(m.cells, m'.cells)
    ensures g in m'.games && m'.games == m.games[g := m.games[g].(editions := m'.games[g].editions)]
    ensures View(m'.cells, m'.games[g].editions) == View(m.cells, m.games[g].editions) + [e]
  {
    var cells, slice, next := m.cells, m.games[g].editions, m.next;
    if * {
      cells, slice, next := Reallocate(cells, slice, next);
    }
    m' := Memory(m.games[g := m.games[g].(editions := slice + [next])], cells[next := e], next + 1);
    AppendedView(cells, slice, next, e, View(m.cells, m.games[g].editions));
    assert m'.games[g].editions == slice + [next];
  }

  lemma AppendedView(cells: map<Addr, EditionView>, slice: seq<Addr>, next: Addr, e: EditionView,
                     view: seq<EditionView>)
    requires InCells(cells, slice) && next !in cells && View(cells, slice) == view
    ensures InCells(cells[next := e], slice + [next]) && View(cells[next := e], slice + [next]) == view + [e]
  {
    var v := View(cells[next := e], slice + [next]);
    assert forall i | 0 <= i < |slice| :: v[i] == View(cells, slice)[i];
  }

  lemma ViewExtends(cells: map<Addr, EditionView>, cells': map<Addr, EditionView>, slice: seq<Addr>)
    requires InCells(cells, slice) && Extends(cells, cells')
    ensures InCells(cells', slice) && View(cells', slice) == View(cells, slice)
  {
  }

  lemma {:induction false} FilterAppend<R>(rows: seq<R>, r: R, keep: R -> bool)
    ensures Filter(rows + [r], keep) == Filter(rows, keep) + if keep(r) then [r] else []
  {
    if rows == [] {
      assert rows + [r] == [r] && [r][1..] == [];
    } else {
      FilterAppend(rows[1..], r, keep);
      assert (rows + [r])[1..] == rows[1..] + [r];
    }
  }

  lemma FilterNext<R>(rows: seq<R>, i: nat, keep: R -> bool)
    requires i < |rows|
    ensures Filter(rows[..i + 1], keep) == Filter(rows[..i], keep) + if keep(rows[i]) then [rows[i]] else []
  {
    assert rows[..i + 1] == rows[..i] + [rows[i]];
    FilterAppend(rows[..i], rows[i], keep);
  }

  function InGames(batch: seq<string>): EditionRow -> bool { (r: EditionRow) => r.game in batch }

  function InEditions(batch: seq<string>): ArtifactRow -> bool { (r: ArtifactRow) => r.edition in batch }

  function MediaInGames(batch: seq<string>): MediaRow -> bool
  {
    (r: MediaRow) => r.owner.GameOwner? && r.owner.game in batch
  }

  function MediaInEditions(batch: seq<string>): MediaRow -> bool
  {
    (r: MediaRow) => r.owner.EditionOwner? && r.owner.edition in batch
  }

  /** A game's edition slice after some rows were appended. */
  ghost predicate Grown(before: Memory, after: Memory, g: string, rows: seq<EditionRow>)
    requires Sound(before) && Sound(after) && g in before.games && g in after.games
  {
    && after.games[g] == before.games[g].(editions := after.games[g].editions)
    && View(after.cells, after.games[g].editions) == View(before.cells, before.games[g].editions) + BareAll(rows)
    && (rows == [] ==> after.games[g] == before.games[g])
  }

  lemma GrownBy(before: Memory, mid: Memory, after: Memory, g: string, rows: seq<EditionRow>, r: EditionRow)
    requires Sound(before) && Sound(mid) && Sound(after) && g in before.games && g in mid.games && g in after.games
    requires r.game in mid.games
    requires Extends(mid.cells, after.cells) && Grown(before, mid, g, rows)
    requires r.game in after.games
    requires after.games == mid.games[r.game := mid.games[r.game].(editions := after.games[r.game].editions)]
    requires View(after.cells, after.games[r.game].editions) == View(mid.cells, mid.games[r.game].editions) + [Bare(r)]
    ensures Grown(before, after, g, rows + if r.game == g then [r] else [])
  {
    if r.game == g {
      assert BareAll(rows + [r]) == BareAll(rows) + [Bare(r)];
    } else {
      ViewExtends(mid.cells, after.cells, mid.games[g].editions);
      assert rows + [] == rows;
    }
  }

  /** The appending half of loadEditions. */
  method AppendEditions(m: Memory, rows: seq<EditionRow>) returns (m': Memory)
    requires Sound(m) && forall i | 0 <= i < |rows| :: rows[i].game in m.games
    ensures Sound(m') && m'.games.Keys == m.games.Keys && Extends(m.cells, m'.cells)
    ensures forall g | g in m.games :: Grown(m, m', g, Filter(rows, EditionOf(g)))
  {
    m' := m;
    forall g | g in m.games ensures Grown(m, m, g, Filter(rows[..0], EditionOf(g))) {
      assert View(m.cells, m.games[g].editions) + BareAll([]) == View(m.cells, m.games[g].editions);
    }
    for i := 0 to |rows|
      invariant Sound(m') && m'.games.Keys == m.games.Keys && Extends(m.cells, m'.cells)
      invariant forall g | g in m.games :: Grown(m, m', g, Filter(rows[..i], EditionOf(g)))
    {
      var next := Append(m', rows[i].game, Bare(rows[i]));
      forall g | g in m.games ensures Grown(m, next, g, Filter(rows[..i + 1], EditionOf(g))) {
        GrownBy(m, m', next, g, Filter(rows[..i], EditionOf(g)), rows[i]);
        FilterNext(rows, i, EditionOf(g));
      }
      m' := next;
    }
    assert rows[..|rows|] == rows;
  }

  /*************** pointers ***************/

  /** Each pointer leads to the cell of its own edition. */
  ghost predicate PointersRight(cells: map<Addr, EditionView>, pointers: map<string, Addr>) {
    forall e | e in pointers :: pointers[e] in cells && cells[pointers[e]].row.id == e
  }

  /** The slice's elements are the cells the pointers lead to. */
  ghost predicate Covered(cells: map<Addr, EditionView>, pointers: map<string, Addr>, slice: seq<Addr>)
    requires InCells(cells, slice)
  {
    forall i | 0 <= i < |slice| :: cells[slice[i]].row.id in pointers && pointers[cells[slice[i]].row.id] == slice[i]
  }

  ghost predicate DistinctIds(cells: map<Addr, EditionView>, slice: seq<Addr>)
    requires InCells(cells, slice)
  {
    forall i, j | 0 <= i < |slice| && 0 <= j < |slice| && cells[slice[i]].row.id == cells[slice[j]].row.id :: i == j
  }

  /** Takes the address of every element, now that the slice no longer moves. */
  method TakePointers(cells: map<Addr, EditionView>, slice: seq<Addr>, pointers: map<string, Addr>)
    returns (after: map<string, Addr>)
    requires InCells(cells, slice) && DistinctIds(cells, slice) && PointersRight(cells, pointers)
    ensures PointersRight(cells, after) && Covered(cells, after, slice)
    ensures forall e | e in after :: e in pointers || exists i :: 0 <= i < |slice| && cells[slice[i]].row.id == e
    ensures forall e | e in pointers ::
              e in after && (after[e] == pointers[e] || exists i :: 0 <= i < |slice| && cells[slice[i]].row.id == e)
  {
    after := pointers;
    for i := 0 to |slice|
      invariant PointersRight(cells, after)
      invariant forall j | 0 <= j < i :: cells[slice[j]].row.id in after && after[cells[slice[j]].row.id] == slice[j]
      invariant forall e | e in after :: e in pointers || exists j :: 0 <= j < i && cells[slice[j]].row.id == e
      invariant forall e | e in pointers ::
                  e in after && (after[e] == pointers[e] || exists j :: 0 <= j < i && cells[slice[j]].row.id == e)
    {
      after := after[cells[slice[i]].row.id := slice[i]];
    }
  }

  function EditionBatchColumns(r: EditionRow): seq<Atom> { [Text(r.game)] + EditionColumns(r) }

  function ArtifactBatchColumns(r: ArtifactRow): seq<Atom> { [Text(r.edition)] + ArtifactColumns(r) }

  function MediaBatchColumns(r: MediaRow): seq<Atom> {
    [Text(match r.owner case GameOwner(g) => g case EditionOwner(e) => e)] + MediaColumns(r)
  }

  lemma SameHead(a: Atom, x: seq<Atom>, y: seq<Atom>)
    requires ListLe([a] + x, [a] + y)
    ensures ListLe(x, y)
  {
    assert ([a] + x)[1..] == x && ([a] + y)[1..] == y;
  }

  lemma {:induction false} FilterNothing<R>(rows: seq<R>, keep: R -> bool)
    requires forall i | 0 <= i < |rows| :: !keep(rows[i])
    ensures Filter(rows, keep) == []
  {
    if rows != [] { FilterNothing(rows[1..], keep); }
  }

  /** What a batched edition query holds for one game. */
  lemma EditionsInBatch(db: Database, batch: seq<string>, g: string)
    requires Keyed(db)
    ensures Filter(Query(db.editions, InGames(batch), EditionBatchColumns), EditionOf(g)) == if g in batch
            then EditionRowsOf(db, g) else []
  {
    var rows := Query(db.editions, InGames(batch), EditionBatchColumns);
    if g in batch {
      forall x, y | EditionOf(g)(x) && EditionOf(g)(y) && By(EditionBatchColumns)(x, y)
        ensures By(EditionColumns)(x, y) {
        assert EditionBatchColumns(x) == [Text(g)] + EditionColumns(x)
          && EditionBatchColumns(y) == [Text(g)] + EditionColumns(y);
        SameHead(Text(g), EditionColumns(x), EditionColumns(y));
      }
      assert OrderTells(db.editions, EditionColumns) by {
        forall i, j | 0 <= i < |db.editions| && 0 <= j < |db.editions|
          && EditionColumns(db.editions[i]) == EditionColumns(db.editions[j])
          ensures db.editions[i] == db.editions[j]
        {
          assert EditionColumns(db.editions[i])[2] == EditionColumns(db.editions[j])[2];
        }
      }
      BatchedQuery(db.editions, InGames(batch), EditionOf(g), EditionBatchColumns, EditionColumns);
    } else {
      QueryKeeps(db.editions, InGames(batch), EditionBatchColumns);
      FilterNothing(rows, EditionOf(g));
    }
  }

  /** A query returns rows of the table that meet its condition. */
  lemma QueryKeeps<R(!new)>(rows: seq<R>, keep: R -> bool, order: R -> seq<Atom>)
    ensures var q := Query(rows, keep, order); forall i | 0 <= i < |q| :: keep(q[i]) && q[i] in rows
  {
    var q := Query(rows, keep, order);
    forall i | 0 <= i < |q| ensures keep(q[i]) && q[i] in rows {
      QueryCounts(rows, keep, order, q[i]);
      assert q[i] in multiset(q);
      assert q[i] in multiset(rows);
    }
  }

  ghost predicate ViewRight(db: Database, m: Memory, g: string)
    requires Sound(m)
  {
    g in m.games && View(m.cells, m.games[g].editions) == BareAll(EditionRowsOf(db, g))
  }

  ghost predicate Indexed(db: Database, m: Memory, pointers: map<string, Addr>, g: string)
    requires Sound(m)
  {
    ViewRight(db, m, g) && Covered(m.cells, pointers, m.games[g].editions)
  }

  lemma ViewRows(db: Database, m: Memory, g: string, i: nat)
    requires Sound(m) && ViewRight(db, m, g) && i < |m.games[g].editions|
    ensures |EditionRowsOf(db, g)| == |m.games[g].editions|
    ensures var r := m.cells[m.games[g].editions[i]].row;
            r == EditionRowsOf(db, g)[i] && r.game == g && r in db.editions
  {
    QueryKeeps(db.editions, EditionOf(g), EditionColumns);
    assert View(m.cells, m.games[g].editions)[i] == BareAll(EditionRowsOf(db, g))[i];
  }

  lemma {:induction false} QueryDistinct(db: Database, g: string)
    requires Keyed(db)
    ensures forall i, j | 0 <= i < |EditionRowsOf(db, g)| && 0 <= j < |EditionRowsOf(db, g)|
            && EditionRowsOf(db, g)[i].id == EditionRowsOf(db, g)[j].id :: i == j
  {
    var q := EditionRowsOf(db, g);
    QueryKeeps(db.editions, EditionOf(g), EditionColumns);
    forall i, j | 0 <= i < j < |q| ensures q[i].id != q[j].id {
      QueryCounts(db.editions, EditionOf(g), EditionColumns, q[i]);
      assert q[i] in db.editions && q[j] in db.editions;
      if q[i].id == q[j].id {
        assert q[i] == q[j];
        TwiceCounted(q, i, j);
        OnceCounted(db.editions, q[i]);
      }
    }
  }

  lemma TwiceCounted<R(!new)>(s: seq<R>, i: nat, j: nat)
    requires i < j < |s| && s[i] == s[j]
    ensures multiset(s)[s[i]] >= 2
  {
    assert s == s[..j] + [s[j]] + s[j + 1..];
    assert s[i] in s[..j];
    assert multiset(s) == multiset(s[..j]) + multiset{s[j]} + multiset(s[j + 1..]);
  }

  predicate IdsDiffer(rows: seq<EditionRow>) {
    forall i, j | 0 <= i < j < |rows| :: rows[i].id != rows[j].id
  }

  lemma TailIdsDiffer(rows: seq<EditionRow>)
    requires rows != [] && IdsDiffer(rows)
    ensures IdsDiffer(rows[1..]) && rows[0] !in rows[1..]
  {
  }

  lemma {:induction false} OnceCounted(rows: seq<EditionRow>, r: EditionRow)
    requires IdsDiffer(rows)
    ensures multiset(rows)[r] <= 1
  {
    if rows != [] {
      TailIdsDiffer(rows);
      OnceCounted(rows[1..], r);
      assert rows == [rows[0]] + rows[1..];
    }
  }

  /** Two games never share an edition id, so indexing one leaves the other indexed. */
  lemma StaysIndexed(db: Database, m: Memory, pointers: map<string, Addr>, after: map<string, Addr>, g: string,
                     h: string)
    requires Keyed(db) && Sound(m) && Indexed(db, m, pointers, g) && ViewRight(db, m, h) && g != h
    requires forall e | e in pointers :: e in after && (after[e] == pointers[e]
               || exists i :: 0 <= i < |m.games[h].editions| && m.cells[m.games[h].editions[i]].row.id == e)
    ensures Indexed(db, m, after, g)
  {
    var slice := m.games[g].editions;
    forall k | 0 <= k < |slice|
      ensures m.cells[slice[k]].row.id in after && after[m.cells[slice[k]].row.id] == slice[k] {
      ViewRows(db, m, g, k);
      forall i | 0 <= i < |m.games[h].editions|
        ensures m.cells[m.games[h].editions[i]].row.id != m.cells[slice[k]].row.id {
        ViewRows(db, m, h, i);
      }
    }
  }

  lemma IndexedExtends(db: Database, m: Memory, m': Memory, pointers: map<string, Addr>, g: string)
    requires Sound(m) && Sound(m') && Extends(m.cells, m'.cells) && Indexed(db, m, pointers, g)
    requires g in m'.games && m'.games[g] == m.games[g]
    ensures Indexed(db, m', pointers, g)
  {
    ViewExtends(m.cells, m'.cells, m.games[g].editions);
  }

  lemma IdsAreDistinct(db: Database, m: Memory, g: string)
    requires Keyed(db) && Sound(m) && ViewRight(db, m, g)
    ensures DistinctIds(m.cells, m.games[g].editions)
  {
    var slice := m.games[g].editions;
    QueryDistinct(db, g);
    forall i, j | 0 <= i < |slice| && 0 <= j < |slice| && m.cells[slice[i]].row.id == m.cells[slice[j]].row.id
      ensures i == j {
      ViewRows(db, m, g, i);
      ViewRows(db, m, g, j);
    }
  }

  lemma LoadedView(db: Database, batch: seq<string>, m: Memory, m': Memory, g: string)
    requires Keyed(db) && Sound(m) && Sound(m') && g in batch && g in m.games && g in m'.games
    requires m.games[g].editions == []
    requires Grown(m, m', g, Filter(Query(db.editions, InGames(batch), EditionBatchColumns), EditionOf(g)))
    ensures ViewRight(db, m', g)
  {
    EditionsInBatch(db, batch, g);
    assert View(m.cells, m.games[g].editions) + BareAll(EditionRowsOf(db, g)) == BareAll(EditionRowsOf(db, g));
  }

  lemma UntouchedGame(db: Database, batch: seq<string>, m: Memory, m': Memory, g: string)
    requires Keyed(db) && Sound(m) && Sound(m') && g !in batch && g in m.games && g in m'.games
    requires Grown(m, m', g, Filter(Query(db.editions, InGames(batch), EditionBatchColumns), EditionOf(g)))
    ensures m'.games[g] == m.games[g]
  {
    EditionsInBatch(db, batch, g);
  }

  /** loadEditions: appends every row first, takes addresses afterwards. */
  method LoadEditions(db: Database, batch: seq<string>, m: Memory, pointers: map<string, Addr>, ghost done: set<string>)
    returns (m': Memory, pointers': map<string, Addr>)
    requires Keyed(db) && Sound(m) && PointersRight(m.cells, pointers)
    requires forall g | g in batch :: g in m.games && m.games[g].editions == [] && g !in done
    requires forall g | g in done :: Indexed(db, m, pointers, g)
    ensures Sound(m') && m'.games.Keys == m.games.Keys && PointersRight(m'.cells, pointers')
    ensures forall g | g in m.games :: m'.games[g] == m.games[g].(editions := m'.games[g].editions)
    ensures forall g | g in m.games && g !in batch :: m'.games[g] == m.games[g]
    ensures forall g | g in done || g in batch :: Indexed(db, m', pointers', g)
  {
    var rows := Query(db.editions, InGames(batch), EditionBatchColumns);
    QueryKeeps(db.editions, InGames(batch), EditionBatchColumns);
    m' := AppendEditions(m, rows);
    forall g | g in m.games && g !in batch ensures m'.games[g] == m.games[g] { UntouchedGame(db, batch, m, m', g); }
    forall g | g in batch ensures ViewRight(db, m', g) { LoadedView(db, batch, m, m', g); }
    forall g | g in done ensures Indexed(db, m', pointers, g) { IndexedExtends(db, m, m', pointers, g); }
    pointers' := IndexBatch(db, batch, m', pointers, done);
  }

  /** The second half of loadEditions. */
  method IndexBatch(db: Database, batch: seq<string>, m: Memory, pointers: map<string, Addr>, ghost done: set<string>)
    returns (after: map<string, Addr>)
    requires Keyed(db) && Sound(m) && PointersRight(m.cells, pointers)
    requires forall g | g in batch :: ViewRight(db, m, g)
    requires forall g | g in done :: Indexed(db, m, pointers, g)
    ensures PointersRight(m.cells, after)
    ensures forall g | g in done || g in batch :: Indexed(db, m, after, g)
  {
    after := pointers;
    for k := 0 to |batch|
      invariant PointersRight(m.cells, after)
      invariant forall g | g in done || g in batch[..k] :: Indexed(db, m, after, g)
    {
      var h := batch[k];
      assert h in batch;
      IdsAreDistinct(db, m, h);
      var next := TakePointers(m.cells, m.games[h].editions, after);
      forall g | g in done || g in batch[..k + 1] ensures Indexed(db, m, next, g) {
        if g != h { StaysIndexed(db, m, after, next, g, h); }
      }
      after := next;
    }
    assert batch[..|batch|] == batch;
  }

  /*************** game columns ***************/

  /** The query finds the rows that exist; a game without one keeps its empty columns. */
  method LoadGameRows(db: Database, batch: seq<string>, games: map<string, Shell>) returns (after: map<string, Shell>)
    requires forall g | g in batch :: g in games && games[g] == EmptyShell(g)
    ensures after.Keys == games.Keys
    ensures forall g | g in games :: after[g] == if g in batch then games[g].(row := RowOf(db, g)) else games[g]
  {
    after := games;
    var pending := set g | g in batch && g in db.games;
    while pending != {}
      invariant after.Keys == games.Keys && forall g | g in pending :: g in batch && g in db.games
      invariant forall g | g in games ::
                  after[g] == if g in batch && g !in pending then games[g].(row := RowOf(db, g)) else games[g]
      decreases pending
    {
      var g :| g in pending;
      after, pending := after[g := after[g].(row := db.games[g])], pending - {g};
    }
  }

  /** The titles among these rows, as loadTitles collects them. */
  function TitlesAmong(db: Database, rows: set<TitleKey>, owner: Owner): map<string, string> {
    map k | k in rows && k in db.titles && k.owner == owner :: k.locale := db.titles[k]
  }

  lemma TitlesAmongNext(db: Database, rows: set<TitleKey>, k: TitleKey, owner: Owner)
    requires k in db.titles && k !in rows
    ensures TitlesAmong(db, rows + {k}, owner) == if k.owner == owner
            then TitlesAmong(db, rows, owner)[k.locale := db.titles[k]] else TitlesAmong(db, rows, owner)
  {
    var (a, b) := (TitlesAmong(db, rows, owner), TitlesAmong(db, rows + {k}, owner));
    forall l ensures l in b <==> l in a || (k.owner == owner && l == k.locale) {
      assert TitleKey(owner, l) in rows + {k} <==> TitleKey(owner, l) in rows || TitleKey(owner, l) == k;
    }
  }

  lemma AllTitles(db: Database, rows: set<TitleKey>, owner: Owner)
    requires forall k | k in db.titles && k.owner == owner :: k in rows
    ensures TitlesAmong(db, rows, owner) == TitlesOf(db, owner)
  {
    forall l ensures l in TitlesAmong(db, rows, owner) <==> l in TitlesOf(db, owner) {
      assert TitleKey(owner, l) in db.titles ==> TitleKey(owner, l) in rows;
    }
  }

  lemma NoTitles(db: Database, rows: set<TitleKey>, owner: Owner)
    requires forall k | k in rows :: k.owner != owner
    ensures TitlesAmong(db, rows, owner) == map[]
  {
  }

  /** One game's titles after some rows were read. */
  predicate TitlesRead(db: Database, before: Shell, after: Shell, rows: set<TitleKey>, g: string) {
    after == before.(titles := before.titles + TitlesAmong(db, rows, GameOwner(g)))
  }

  lemma TitlesReadNext(db: Database, before: Shell, after: Shell, rows: set<TitleKey>, k: TitleKey, g: string)
    requires TitlesRead(db, before, after, rows, g) && k in db.titles && k !in rows
    ensures TitlesRead(db, before,
                       if k.owner == GameOwner(g) then after.(titles := after.titles[k.locale := db.titles[k]])
                         else after, rows + {k}, g)
  {
    TitlesAmongNext(db, rows, k, GameOwner(g));
  }

  lemma TitlesReadNone(db: Database, shell: Shell, rows: set<TitleKey>, g: string)
    requires forall k | k in rows :: k.owner != GameOwner(g)
    ensures TitlesRead(db, shell, shell, rows, g)
  {
    NoTitles(db, rows, GameOwner(g));
    assert shell.titles + map[] == shell.titles;
  }

  lemma TitlesReadAll(db: Database, before: Shell, after: Shell, rows: set<TitleKey>, g: string)
    requires TitlesRead(db, before, after, rows, g) && forall k | k in db.titles && k.owner == GameOwner(g) :: k in rows
    ensures after == before.(titles := before.titles + TitlesOf(db, GameOwner(g)))
  {
    AllTitles(db, rows, GameOwner(g));
  }

  lemma TitlesReadUnique(db: Database, before: Shell, after: Shell, rows: set<TitleKey>, g: string)
    requires TitlesRead(db, before, after, rows, g) && forall k | k in rows :: k.owner != GameOwner(g)
    ensures after == before
  {
    TitlesReadNone(db, before, rows, g);
  }

  function GameTitleRows(db: Database, batch: seq<string>): set<TitleKey> {
    set k | k in db.titles && k.owner.GameOwner? && k.owner.game in batch
  }

  ghost predicate AllTitlesRead(db: Database, before: map<string, Shell>, after: map<string, Shell>,
                                rows: set<TitleKey>)
  {
    after.Keys == before.Keys && forall g | g in before :: TitlesRead(db, before[g], after[g], rows, g)
  }

  function PutGameTitle(db: Database, games: map<string, Shell>, k: TitleKey): map<string, Shell>
    requires k in db.titles && k.owner.GameOwner? && k.owner.game in games
  {
    var g := k.owner.game;
    games[g := games[g].(titles := games[g].titles[k.locale := db.titles[k]])]
  }

  lemma AllTitlesNext(db: Database, before: map<string, Shell>, after: map<string, Shell>, rows: set<TitleKey>,
                      k: TitleKey)
    requires AllTitlesRead(db, before, after, rows) && k in db.titles && k !in rows && k.owner.GameOwner?
    requires k.owner.game in before
    ensures AllTitlesRead(db, before, PutGameTitle(db, after, k), rows + {k})
  {
    var next := PutGameTitle(db, after, k);
    forall g | g in before ensures TitlesRead(db, before[g], next[g], rows + {k}, g) {
      TitlesReadNext(db, before[g], after[g], rows, k, g);
    }
  }

  lemma AllTitlesStart(db: Database, games: map<string, Shell>)
    ensures AllTitlesRead(db, games, games, {})
  {
    forall g | g in games ensures TitlesRead(db, games[g], games[g], {}, g) { TitlesReadNone(db, games[g], {}, g); }
  }

  lemma AllTitlesEnd(db: Database, batch: seq<string>, before: map<string, Shell>, after: map<string, Shell>)
    requires AllTitlesRead(db, before, after, GameTitleRows(db, batch))
    ensures forall g | g in before && g in batch ::
              after[g] == before[g].(titles := before[g].titles + TitlesOf(db, GameOwner(g)))
    ensures forall g | g in before && g !in batch :: after[g] == before[g]
  {
    forall g | g in before && g in batch
      ensures after[g] == before[g].(titles := before[g].titles + TitlesOf(db, GameOwner(g))) {
      TitlesReadAll(db, before[g], after[g], GameTitleRows(db, batch), g);
    }
    forall g | g in before && g !in batch ensures after[g] == before[g] {
      TitlesReadUnique(db, before[g], after[g], GameTitleRows(db, batch), g);
    }
  }

  /** The row loop of loadGameTitles; the rows come in no particular order. */
  method ReadGameTitles(db: Database, rows: set<TitleKey>, games: map<string, Shell>)
    returns (after: map<string, Shell>)
    requires forall k | k in rows :: k in db.titles && k.owner.GameOwner? && k.owner.game in games
    ensures AllTitlesRead(db, games, after, rows)
  {
    after := games;
    var pending := rows;
    ghost var done: set<TitleKey> := {};
    AllTitlesStart(db, games);
    while pending != {}
      invariant pending <= rows && done !! pending && done + pending == rows
      invariant AllTitlesRead(db, games, after, done)
      decreases pending
    {
      var k :| k in pending;
      AllTitlesNext(db, games, after, done, k);
      after := PutGameTitle(db, after, k);
      pending, done := pending - {k}, done + {k};
    }
    assert done == rows;
  }

  /** loadGameTitles. */
  method LoadGameTitles(db: Database, batch: seq<string>, games: map<string, Shell>) returns (after: map<string, Shell>)
    requires forall g | g in batch :: g in games
    ensures after.Keys == games.Keys
    ensures forall g | g in games && g in batch ::
              after[g] == games[g].(titles := games[g].titles + TitlesOf(db, GameOwner(g)))
    ensures forall g | g in games && g !in batch :: after[g] == games[g]
  {
    after := ReadGameTitles(db, GameTitleRows(db, batch), games);
    AllTitlesEnd(db, batch, games, after);
  }

  /** What a batched media query holds for one owner. */
  lemma MediaInBatch(db: Database, batch: MediaRow -> bool, owner: Owner)
    requires Keyed(db) && forall r: MediaRow | r.owner == owner :: batch(r)
    ensures Filter(Query(db.media, batch, MediaBatchColumns), MediaOf(owner)) == MediaFor(db, owner)
  {
    var id := match owner case GameOwner(g) => g case EditionOwner(e) => e;
    forall x, y | MediaOf(owner)(x) && MediaOf(owner)(y) && By(MediaBatchColumns)(x, y) ensures By(MediaColumns)(x, y) {
      assert MediaBatchColumns(x) == [Text(id)] + MediaColumns(x)
        && MediaBatchColumns(y) == [Text(id)] + MediaColumns(y);
      SameHead(Text(id), MediaColumns(x), MediaColumns(y));
    }
    assert OrderTells(db.media, MediaColumns) by {
      forall i, j | 0 <= i < |db.media| && 0 <= j < |db.media| && MediaColumns(db.media[i]) == MediaColumns(db.media[j])
        ensures db.media[i] == db.media[j]
      {
        assert MediaColumns(db.media[i])[3] == MediaColumns(db.media[j])[3];
      }
    }
    BatchedQuery(db.media, batch, MediaOf(owner), MediaBatchColumns, MediaColumns);
  }

  lemma NoMediaInBatch(db: Database, batch: MediaRow -> bool, owner: Owner)
    requires forall r: MediaRow | batch(r) :: r.owner != owner
    ensures Filter(Query(db.media, batch, MediaBatchColumns), MediaOf(owner)) == []
  {
    QueryKeeps(db.media, batch, MediaBatchColumns);
    FilterNothing(Query(db.media, batch, MediaBatchColumns), MediaOf(owner));
  }

  lemma ArtifactsInBatch(db: Database, batch: seq<string>, e: string)
    requires Keyed(db)
    ensures Filter(Query(db.artifacts, InEditions(batch), ArtifactBatchColumns), ArtifactOf(e)) == if e in batch
            then ArtifactRowsOf(db, e) else []
  {
    if e in batch {
      forall x, y | ArtifactOf(e)(x) && ArtifactOf(e)(y) && By(ArtifactBatchColumns)(x, y)
        ensures By(ArtifactColumns)(x, y) {
        assert ArtifactBatchColumns(x) == [Text(e)] + ArtifactColumns(x)
          && ArtifactBatchColumns(y) == [Text(e)] + ArtifactColumns(y);
        SameHead(Text(e), ArtifactColumns(x), ArtifactColumns(y));
      }
      assert OrderTells(db.artifacts, ArtifactColumns) by {
        forall i, j | 0 <= i < |db.artifacts| && 0 <= j < |db.artifacts|
          && ArtifactColumns(db.artifacts[i]) == ArtifactColumns(db.artifacts[j])
          ensures db.artifacts[i] == db.artifacts[j]
        {
          assert ArtifactColumns(db.artifacts[i])[1] == ArtifactColumns(db.artifacts[j])[1];
        }
      }
      BatchedQuery(db.artifacts, InEditions(batch), ArtifactOf(e), ArtifactBatchColumns, ArtifactColumns);
    } else {
      QueryKeeps(db.artifacts, InEditions(batch), ArtifactBatchColumns);
      FilterNothing(Query(db.artifacts, InEditions(batch), ArtifactBatchColumns), ArtifactOf(e));
    }
  }

  ghost predicate GameMediaRead(before: map<string, Shell>, after: map<string, Shell>, rows: seq<MediaRow>) {
    after.Keys == before.Keys
    && forall g | g in before :: after[g] == before[g].(media := before[g].media + Filter(rows, MediaOf(GameOwner(g))))
  }

  lemma GameMediaNext(before: map<string, Shell>, after: map<string, Shell>, rows: seq<MediaRow>, i: nat)
    requires i < |rows| && rows[i].owner.GameOwner? && rows[i].owner.game in before
    requires GameMediaRead(before, after, rows[..i])
    ensures var g := rows[i].owner.game;
      GameMediaRead(before, after[g := after[g].(media := after[g].media + [rows[i]])], rows[..i + 1])
  {
    forall g | g in before ensures before[g].media + Filter(rows[..i + 1], MediaOf(GameOwner(g))) ==
                                   after[g].media + if g == rows[i].owner.game then [rows[i]] else []
    {
      FilterNext(rows, i, MediaOf(GameOwner(g)));
    }
  }

  /** loadGameMedia. */
  method LoadGameMedia(db: Database, batch: seq<string>, games: map<string, Shell>) returns (after: map<string, Shell>)
    requires Keyed(db) && forall g | g in batch :: g in games
    ensures after.Keys == games.Keys
    ensures forall g | g in games && g in batch ::
              after[g] == games[g].(media := games[g].media + MediaFor(db, GameOwner(g)))
    ensures forall g | g in games && g !in batch :: after[g] == games[g]
  {
    var rows := Query(db.media, MediaInGames(batch), MediaBatchColumns);
    QueryKeeps(db.media, MediaInGames(batch), MediaBatchColumns);
    after := AppendGameMedia(rows, games);
    forall g | g in games && g in batch
      ensures after[g] == games[g].(media := games[g].media + MediaFor(db, GameOwner(g))) {
      MediaInBatch(db, MediaInGames(batch), GameOwner(g));
    }
    forall g | g in games && g !in batch ensures after[g] == games[g] {
      NoMediaInBatch(db, MediaInGames(batch), GameOwner(g));
      assert games[g].media + [] == games[g].media;
    }
  }

  method AppendGameMedia(rows: seq<MediaRow>, games: map<string, Shell>) returns (after: map<string, Shell>)
    requires forall i | 0 <= i < |rows| :: rows[i].owner.GameOwner? && rows[i].owner.game in games
    ensures GameMediaRead(games, after, rows)
  {
    after := games;
    assert forall g | g in games :: games[g].media + Filter(rows[..0], MediaOf(GameOwner(g))) == games[g].media;
    for i := 0 to |rows|
      invariant GameMediaRead(games, after, rows[..i])
    {
      GameMediaNext(games, after, rows, i);
      var g := rows[i].owner.game;
      after := after[g := after[g].(media := after[g].media + [rows[i]])];
    }
    assert rows[..|rows|] == rows;
  }

  /*************** edition columns, through the pointers ***************/

  /** One cell after some rows of each kind were written through its pointer. */
  function WithTitles(v: EditionView, titles: map<string, string>): EditionView {
    v.(titles := v.titles + titles)
  }

  function WithArtifacts(v: EditionView, rows: seq<ArtifactRow>): EditionView {
    v.(artifacts := v.artifacts + rows)
  }

  function WithMedia(v: EditionView, rows: seq<MediaRow>): EditionView {
    v.(media := v.media + rows)
  }

  ghost predicate EditionTitlesRead(db: Database, before: map<Addr, EditionView>, after: map<Addr, EditionView>,
                                    pointers: map<string, Addr>, rows: set<TitleKey>)
    requires PointersRight(before, pointers)
  {
    after.Keys == before.Keys
    && forall e | e in pointers ::
         after[pointers[e]] == WithTitles(before[pointers[e]], TitlesAmong(db, rows, EditionOwner(e)))
  }

  ghost predicate ArtifactsRead(before: map<Addr, EditionView>, after: map<Addr, EditionView>,
                                pointers: map<string, Addr>, rows: seq<ArtifactRow>)
    requires PointersRight(before, pointers)
  {
    after.Keys == before.Keys
    && forall e | e in pointers :: after[pointers[e]] == WithArtifacts(before[pointers[e]], Filter(rows, ArtifactOf(e)))
  }

  ghost predicate EditionMediaRead(before: map<Addr, EditionView>, after: map<Addr, EditionView>,
                                   pointers: map<string, Addr>, rows: seq<MediaRow>)
    requires PointersRight(before, pointers)
  {
    after.Keys == before.Keys
    && forall e | e in pointers ::
         after[pointers[e]] == WithMedia(before[pointers[e]], Filter(rows, MediaOf(EditionOwner(e))))
  }

  lemma MapAppend(base: map<string, string>, more: map<string, string>, l: string, v: string)
    ensures base + more[l := v] == (base + more)[l := v]
  {
  }

  lemma ViewTitlesNext(db: Database, before: EditionView, after: EditionView, rows: set<TitleKey>, k: TitleKey,
                       e: string)
    requires after == WithTitles(before, TitlesAmong(db, rows, EditionOwner(e))) && k in db.titles && k !in rows
    ensures (if k.owner == EditionOwner(e) then after.(titles := after.titles[k.locale := db.titles[k]]) else after)
            == WithTitles(before, TitlesAmong(db, rows + {k}, EditionOwner(e)))
  {
    TitlesAmongNext(db, rows, k, EditionOwner(e));
    MapAppend(before.titles, TitlesAmong(db, rows, EditionOwner(e)), k.locale, db.titles[k]);
  }

  lemma TitleThrough(db: Database, before: map<Addr, EditionView>, after: map<Addr, EditionView>,
                     pointers: map<string, Addr>, rows: set<TitleKey>, k: TitleKey)
    requires PointersRight(before, pointers) && EditionTitlesRead(db, before, after, pointers, rows)
    requires k in db.titles && k !in rows && k.owner.EditionOwner? && k.owner.edition in pointers
    ensures var a := pointers[k.owner.edition];
      EditionTitlesRead(db, before, after[a := after[a].(titles := after[a].titles[k.locale := db.titles[k]])],
                        pointers, rows + {k})
  {
    var a := pointers[k.owner.edition];
    var next := after[a := after[a].(titles := after[a].titles[k.locale := db.titles[k]])];
    forall e | e in pointers
      ensures next[pointers[e]] == WithTitles(before[pointers[e]], TitlesAmong(db, rows + {k}, EditionOwner(e))) {
      assert pointers[e] == a <==> e == k.owner.edition;
      ViewTitlesNext(db, before[pointers[e]], after[pointers[e]], rows, k, e);
    }
  }

  lemma ArtifactThrough(before: map<Addr, EditionView>, after: map<Addr, EditionView>, pointers: map<string, Addr>,
                        rows: seq<ArtifactRow>, i: nat)
    requires PointersRight(before, pointers) && i < |rows| && rows[i].edition in pointers
    requires ArtifactsRead(before, after, pointers, rows[..i])
    ensures var a := pointers[rows[i].edition];
      ArtifactsRead(before, after[a := after[a].(artifacts := after[a].artifacts + [rows[i]])], pointers, rows[..i + 1])
  {
    var a := pointers[rows[i].edition];
    var next := after[a := after[a].(artifacts := after[a].artifacts + [rows[i]])];
    forall e | e in pointers
      ensures next[pointers[e]] == WithArtifacts(before[pointers[e]], Filter(rows[..i + 1], ArtifactOf(e))) {
      FilterNext(rows, i, ArtifactOf(e));
      assert pointers[e] == a <==> e == rows[i].edition;
    }
  }

  lemma MediaThrough(before: map<Addr, EditionView>, after: map<Addr, EditionView>, pointers: map<string, Addr>,
                     rows: seq<MediaRow>, i: nat)
    requires PointersRight(before, pointers) && i < |rows| && rows[i].owner.EditionOwner?
    requires rows[i].owner.edition in pointers
    requires EditionMediaRead(before, after, pointers, rows[..i])
    ensures var a := pointers[rows[i].owner.edition];
      EditionMediaRead(before, after[a := after[a].(media := after[a].media + [rows[i]])], pointers, rows[..i + 1])
  {
    var a := pointers[rows[i].owner.edition];
    var next := after[a := after[a].(media := after[a].media + [rows[i]])];
    forall e | e in pointers
      ensures next[pointers[e]] == WithMedia(before[pointers[e]], Filter(rows[..i + 1], MediaOf(EditionOwner(e)))) {
      FilterNext(rows, i, MediaOf(EditionOwner(e)));
      assert pointers[e] == a <==> e == rows[i].owner.edition;
    }
  }

  function EditionTitleRows(db: Database, batch: seq<string>): set<TitleKey> {
    set k | k in db.titles && k.owner.EditionOwner? && k.owner.edition in batch
  }

  method ReadEditionTitles(db: Database, rows: set<TitleKey>, cells: map<Addr, EditionView>,
                           pointers: map<string, Addr>)
    returns (after: map<Addr, EditionView>)
    requires PointersRight(cells, pointers)
    requires forall k | k in rows :: k in db.titles && k.owner.EditionOwner? && k.owner.edition in pointers
    ensures EditionTitlesRead(db, cells, after, pointers, rows)
  {
    after := cells;
    var pending := rows;
    ghost var done: set<TitleKey> := {};
    forall e | e in pointers
      ensures cells[pointers[e]] == WithTitles(cells[pointers[e]], TitlesAmong(db, done, EditionOwner(e))) {
      NoTitles(db, done, EditionOwner(e));
      assert cells[pointers[e]].titles + map[] == cells[pointers[e]].titles;
    }
    while pending != {}
      invariant pending <= rows && done !! pending && done + pending == rows
      invariant EditionTitlesRead(db, cells, after, pointers, done)
      decreases pending
    {
      var k :| k in pending;
      TitleThrough(db, cells, after, pointers, done, k);
      var a := pointers[k.owner.edition];
      after := after[a := after[a].(titles := after[a].titles[k.locale := db.titles[k]])];
      pending, done := pending - {k}, done + {k};
    }
    assert done == rows;
  }

  /** The row loop of loadEditionArtifacts. */
  method AppendArtifacts(rows: seq<ArtifactRow>, cells: map<Addr, EditionView>, pointers: map<string, Addr>)
    returns (after: map<Addr, EditionView>)
    requires PointersRight(cells, pointers) && forall i | 0 <= i < |rows| :: rows[i].edition in pointers
    ensures ArtifactsRead(cells, after, pointers, rows)
  {
    after := cells;
    assert forall e | e in pointers ::
        cells[pointers[e]].artifacts + Filter(rows[..0], ArtifactOf(e)) == cells[pointers[e]].artifacts;
    for i := 0 to |rows|
      invariant ArtifactsRead(cells, after, pointers, rows[..i])
    {
      ArtifactThrough(cells, after, pointers, rows, i);
      var a := pointers[rows[i].edition];
      after := after[a := after[a].(artifacts := after[a].artifacts + [rows[i]])];
    }
    assert rows[..|rows|] == rows;
  }

  /** The row loop of loadEditionMedia. */
  method AppendEditionMedia(rows: seq<MediaRow>, cells: map<Addr, EditionView>, pointers: map<string, Addr>)
    returns (after: map<Addr, EditionView>)
    requires PointersRight(cells, pointers) && forall i | 0 <= i < |rows| ::
               rows[i].owner.EditionOwner? && rows[i].owner.edition in pointers
    ensures EditionMediaRead(cells, after, pointers, rows)
  {
    after := cells;
    assert forall e | e in pointers ::
        cells[pointers[e]].media + Filter(rows[..0], MediaOf(EditionOwner(e))) == cells[pointers[e]].media;
    for i := 0 to |rows|
      invariant EditionMediaRead(cells, after, pointers, rows[..i])
    {
      MediaThrough(cells, after, pointers, rows, i);
      var a := pointers[rows[i].owner.edition];
      after := after[a := after[a].(media := after[a].media + [rows[i]])];
    }
    assert rows[..|rows|] == rows;
  }

  /*************** one batch of games ***************/

  /** A game's own columns are loaded. */
  predicate HeaderRight(db: Database, shell: Shell, g: string) {
    shell.row == RowOf(db, g) && shell.titles == TitlesOf(db, GameOwner(g)) && shell.media == MediaFor(db, GameOwner(g))
  }

  lemma HeaderOf(db: Database, g: string, rowed: Shell, titled: Shell, filled: Shell)
    requires rowed == EmptyShell(g).(row := RowOf(db, g))
    requires titled == rowed.(titles := rowed.titles + TitlesOf(db, GameOwner(g)))
    requires filled == titled.(media := titled.media + MediaFor(db, GameOwner(g)))
    ensures HeaderRight(db, filled, g) && filled.editions == []
  {
    assert map[] + TitlesOf(db, GameOwner(g)) == TitlesOf(db, GameOwner(g));
    assert [] + MediaFor(db, GameOwner(g)) == MediaFor(db, GameOwner(g));
  }

  /** The first three loads of the batch loop. */
  method LoadHeaders(db: Database, batch: seq<string>, games: map<string, Shell>) returns (after: map<string, Shell>)
    requires Keyed(db) && forall g | g in batch :: g in games && games[g] == EmptyShell(g)
    ensures after.Keys == games.Keys
    ensures forall g | g in batch :: HeaderRight(db, after[g], g) && after[g].editions == []
    ensures forall g | g in games && g !in batch :: after[g] == games[g]
  {
    var rows := LoadGameRows(db, batch, games);
    var titled := LoadGameTitles(db, batch, rows);
    after := LoadGameMedia(db, batch, titled);
    forall g | g in batch ensures HeaderRight(db, after[g], g) && after[g].editions == [] {
      HeaderOf(db, g, rows[g], titled[g], after[g]);
    }
  }

  method LoadGameBatch(db: Database, batch: seq<string>, m: Memory, pointers: map<string, Addr>,
                       ghost done: set<string>)
    returns (m': Memory, pointers': map<string, Addr>)
    requires Keyed(db) && Sound(m) && PointersRight(m.cells, pointers)
    requires forall g | g in batch :: g in m.games && g !in done && m.games[g] == EmptyShell(g)
    requires forall g | g in done :: Indexed(db, m, pointers, g)
    ensures Sound(m') && m'.games.Keys == m.games.Keys && PointersRight(m'.cells, pointers')
    ensures forall g | g in m.games && g !in batch :: m'.games[g] == m.games[g]
    ensures forall g | g in batch :: HeaderRight(db, m'.games[g], g)
    ensures forall g | g in done || g in batch :: Indexed(db, m', pointers', g)
  {
    var games := LoadHeaders(db, batch, m.games);
    var mid := m.(games := games);
    forall g | g in done ensures Indexed(db, mid, pointers, g) { IndexedExtends(db, m, mid, pointers, g); }
    m', pointers' := LoadEditions(db, batch, mid, pointers, done);
  }

  /*************** one batch of editions ***************/

  /** A cell with everything its edition has. */
  function Complete(db: Database, v: EditionView, e: string): EditionView {
    v.(titles := v.titles + TitlesOf(db, EditionOwner(e)), artifacts := v.artifacts + ArtifactRowsOf(db, e),
       media := v.media + MediaFor(db, EditionOwner(e)))
  }

  lemma TitlesInBatch(db: Database, batch: seq<string>, e: string)
    ensures TitlesAmong(db, EditionTitleRows(db, batch), EditionOwner(e)) == if e in batch
            then TitlesOf(db, EditionOwner(e)) else map[]
  {
    if e in batch {
      AllTitles(db, EditionTitleRows(db, batch), EditionOwner(e));
    } else {
      NoTitles(db, EditionTitleRows(db, batch), EditionOwner(e));
    }
  }

  lemma CellOfBatch(db: Database, batch: seq<string>, v: EditionView, e: string)
    requires Keyed(db)
    ensures var titled := WithTitles(v, TitlesAmong(db, EditionTitleRows(db, batch), EditionOwner(e)));
      var filled :=
        WithArtifacts(titled, Filter(Query(db.artifacts, InEditions(batch), ArtifactBatchColumns), ArtifactOf(e)));
      WithMedia(filled, Filter(Query(db.media, MediaInEditions(batch), MediaBatchColumns), MediaOf(EditionOwner(e))))
      == if e in batch then Complete(db, v, e) else v
  {
    TitlesInBatch(db, batch, e);
    ArtifactsInBatch(db, batch, e);
    if e in batch {
      MediaInBatch(db, MediaInEditions(batch), EditionOwner(e));
    } else {
      NoMediaInBatch(db, MediaInEditions(batch), EditionOwner(e));
      assert v.titles + map[] == v.titles && v.artifacts + [] == v.artifacts && v.media + [] == v.media;
    }
  }

  lemma StillRight(before: map<Addr, EditionView>, after: map<Addr, EditionView>, pointers: map<string, Addr>)
    requires PointersRight(before, pointers) && after.Keys == before.Keys
    requires forall e | e in pointers :: after[pointers[e]].row == before[pointers[e]].row
    ensures PointersRight(after, pointers)
  {
  }

  /** The body of the second batch loop. */
  method LoadEditionBatch(db: Database, batch: seq<string>, cells: map<Addr, EditionView>, pointers: map<string, Addr>)
    returns (after: map<Addr, EditionView>)
    requires Keyed(db) && PointersRight(cells, pointers) && forall e | e in batch :: e in pointers
    ensures after.Keys == cells.Keys && PointersRight(after, pointers)
    ensures forall e | e in pointers ::
              after[pointers[e]] == if e in batch then Complete(db, cells[pointers[e]], e) else cells[pointers[e]]
  {
    var titled := ReadEditionTitles(db, EditionTitleRows(db, batch), cells, pointers);
    StillRight(cells, titled, pointers);
    QueryKeeps(db.artifacts, InEditions(batch), ArtifactBatchColumns);
    var filled := AppendArtifacts(Query(db.artifacts, InEditions(batch), ArtifactBatchColumns), titled, pointers);
    StillRight(titled, filled, pointers);
    QueryKeeps(db.media, MediaInEditions(batch), MediaBatchColumns);
    after := AppendEditionMedia(Query(db.media, MediaInEditions(batch), MediaBatchColumns), filled, pointers);
    StillRight(filled, after, pointers);
    forall e | e in pointers
      ensures after[pointers[e]] == if e in batch then Complete(db, cells[pointers[e]], e) else cells[pointers[e]] {
      CellOfBatch(db, batch, cells[pointers[e]], e);
    }
  }

  /*************** all batches ***************/

  lemma Associative<T>(x: seq<T>, y: seq<T>, z: seq<T>)
    ensures (x + y) + z == x + (y + z)
  {
  }

  lemma FrontIs<T>(a: seq<seq<T>>, b: seq<seq<T>>)
    requires a != []
    ensures Flatten(a + b) == a[0] + Flatten(a[1..] + b)
  {
    FlattenCons(a[0], a[1..] + b);
    assert a + b == [a[0]] + (a[1..] + b);
  }

  lemma {:induction false} FlattenConcat<T>(a: seq<seq<T>>, b: seq<seq<T>>)
    ensures Flatten(a + b) == Flatten(a) + Flatten(b)
  {
    if a == [] {
      assert a + b == b;
    } else {
      FlattenConcat(a[1..], b);
      FrontIs(a, b);
      Associative(a[0], Flatten(a[1..]), Flatten(b));
    }
  }

  lemma FlattenCons<T>(x: seq<T>, rest: seq<seq<T>>)
    ensures Flatten([x] + rest) == x + Flatten(rest)
  {
    assert ([x] + rest)[1..] == rest;
  }

  /** Batch k is the part of the list right after the earlier batches. */
  lemma BatchAt<T>(batches: seq<seq<T>>, values: seq<T>, k: nat)
    requires Flatten(batches) == values && k < |batches|
    ensures var n := |Flatten(batches[..k])|;
      && n + |batches[k]| <= |values| && Flatten(batches[..k]) == values[..n]
         && batches[k] == values[n..n + |batches[k]|]
      && Flatten(batches[..k + 1]) == values[..n + |batches[k]|]
  {
    assert batches == batches[..k] + ([batches[k]] + batches[k + 1..]);
    FlattenConcat(batches[..k], [batches[k]] + batches[k + 1..]);
    assert ([batches[k]] + batches[k + 1..])[1..] == batches[k + 1..];
    assert batches[..k + 1] == batches[..k] + [batches[k]];
    FlattenAppend(batches[..k], batches[k]);
  }

  predicate Distinct<T(==)>(values: seq<T>) {
    forall i, j | 0 <= i < j < |values| :: values[i] != values[j]
  }

  lemma LaterIsNew<T>(values: seq<T>, n: nat, m: nat, x: T)
    requires Distinct(values) && n <= m <= |values| && x in values[n..m]
    ensures x in values && x !in values[..n]
  {
    var i :| 0 <= i < m - n && values[n..m][i] == x;
    assert values[n + i] == x;
  }

  const READ_BATCH_SIZE := 200

  /** No id comes in two batches; within one batch it may come again. */
  predicate OnceBatched(ids: seq<string>) {
    forall i, j | 0 <= i < j < |ids| && ids[i] == ids[j] :: i / READ_BATCH_SIZE == j / READ_BATCH_SIZE
  }

  lemma NextBatchIsNew(ids: seq<string>, k: nat, next: nat, g: string)
    requires OnceBatched(ids) && k * READ_BATCH_SIZE <= next <= |ids| && next <= (k + 1) * READ_BATCH_SIZE
    requires g in ids[k * READ_BATCH_SIZE..next]
    ensures g in ids && g !in ids[..k * READ_BATCH_SIZE]
  {
    var n := k * READ_BATCH_SIZE;
    var j :| 0 <= j < next - n && ids[n..next][j] == g;
    assert ids[n + j] == g && (n + j) / READ_BATCH_SIZE == k;
    forall i | 0 <= i < n ensures ids[i] != g { assert i / READ_BATCH_SIZE < k; }
  }

  /** How far the first batch loop has come. */
  ghost predicate GamesLoaded(db: Database, ids: seq<string>, n: nat, m: Memory, pointers: map<string, Addr>)
    requires Sound(m) && n <= |ids|
  {
    && (forall g | g in ids :: g in m.games)
    && PointersRight(m.cells, pointers)
    && (forall g | g in ids[..n] :: HeaderRight(db, m.games[g], g) && Indexed(db, m, pointers, g))
    && (forall g | g in ids && g !in ids[..n] :: m.games[g] == EmptyShell(g))
  }

  /** The next batch holds games that were not loaded yet. */
  lemma BatchIsNew(db: Database, ids: seq<string>, k: nat, next: nat, m: Memory, pointers: map<string, Addr>)
    requires Sound(m) && OnceBatched(ids) && k * READ_BATCH_SIZE <= next <= |ids| && next <= (k + 1) * READ_BATCH_SIZE
    requires GamesLoaded(db, ids, k * READ_BATCH_SIZE, m, pointers)
    ensures forall g | g in ids[k * READ_BATCH_SIZE..next] ::
              g in m.games && g !in ids[..k * READ_BATCH_SIZE] && m.games[g] == EmptyShell(g)
  {
    forall g | g in ids[k * READ_BATCH_SIZE..next] ensures g in ids && g !in ids[..k * READ_BATCH_SIZE] {
      NextBatchIsNew(ids, k, next, g);
    }
  }

  lemma BatchIsLoaded(db: Database, ids: seq<string>, n: nat, next: nat, m: Memory, pointers: map<string, Addr>,
                      m': Memory, pointers': map<string, Addr>)
    requires Sound(m) && Sound(m') && n <= next <= |ids| && GamesLoaded(db, ids, n, m, pointers)
    requires m'.games.Keys == m.games.Keys && PointersRight(m'.cells, pointers')
    requires forall g | g in m.games && g !in ids[n..next] :: m'.games[g] == m.games[g]
    requires forall g | g in ids[n..next] :: g in m.games && HeaderRight(db, m'.games[g], g)
    requires forall g | g in ids[..next] :: g in m.games && Indexed(db, m', pointers', g)
    ensures GamesLoaded(db, ids, next, m', pointers')
  {
    assert ids[..next] == ids[..n] + ids[n..next];
  }

  method LoadAllGames(db: Database, ids: seq<string>) returns (m: Memory, pointers: map<string, Addr>)
    requires Keyed(db) && OnceBatched(ids)
    ensures Sound(m) && GamesLoaded(db, ids, |ids|, m, pointers)
  {
    m, pointers := Memory(map g | g in ids :: EmptyShell(g), map[], 0), map[];
    var batches := StringBatches(ids, READ_BATCH_SIZE);
    ghost var n := 0;
    for k := 0 to |batches|
      invariant n == |Flatten(batches[..k])| && n <= |ids| && Sound(m)
      invariant k < |batches| ==> n == k * READ_BATCH_SIZE
      invariant GamesLoaded(db, ids, n, m, pointers)
    {
      BatchAt(batches, ids, k);
      ghost var next := n + |batches[k]|;
      m, pointers := LoadNextGames(db, ids, k, next, batches[k], m, pointers);
      n := next;
    }
    assert batches[..|batches|] == batches;
  }

  /** One round of the batch loop. */
  method LoadNextGames(db: Database, ghost ids: seq<string>, ghost k: nat, ghost next: nat, batch: seq<string>,
                       m: Memory, pointers: map<string, Addr>)
    returns (m': Memory, pointers': map<string, Addr>)
    requires Keyed(db) && Sound(m) && OnceBatched(ids) && k * READ_BATCH_SIZE <= next <= |ids|
    requires next <= (k + 1) * READ_BATCH_SIZE
    requires batch == ids[k * READ_BATCH_SIZE..next] && GamesLoaded(db, ids, k * READ_BATCH_SIZE, m, pointers)
    ensures Sound(m') && GamesLoaded(db, ids, next, m', pointers')
  {
    BatchIsNew(db, ids, k, next, m, pointers);
    m', pointers' := LoadNewGames(db, ids, k * READ_BATCH_SIZE, next, batch, m, pointers);
  }

  method LoadNewGames(db: Database, ghost ids: seq<string>, ghost n: nat, ghost next: nat, batch: seq<string>,
                      m: Memory, pointers: map<string, Addr>)
    returns (m': Memory, pointers': map<string, Addr>)
    requires Keyed(db) && Sound(m) && n <= next <= |ids| && batch == ids[n..next]
    requires GamesLoaded(db, ids, n, m, pointers)
    requires forall g | g in batch :: g in m.games && g !in ids[..n] && m.games[g] == EmptyShell(g)
    ensures Sound(m') && GamesLoaded(db, ids, next, m', pointers')
  {
    ghost var done := set g | g in ids[..n];
    m', pointers' := LoadGameBatch(db, batch, m, pointers, done);
    assert ids[..next] == ids[..n] + batch;
    BatchIsLoaded(db, ids, n, next, m, pointers, m', pointers');
  }

  /** The keys of the pointer map, in whatever order it is walked. */
  method ListKeys(pointers: map<string, Addr>) returns (keys: seq<string>)
    ensures Distinct(keys) && forall e :: e in keys <==> e in pointers
  {
    keys := [];
    var pending := pointers.Keys;
    while pending != {}
      invariant pending <= pointers.Keys && Distinct(keys)
      invariant forall e :: e in keys <==> e in pointers && e !in pending
      decreases pending
    {
      var e :| e in pending;
      keys, pending := keys + [e], pending - {e};
    }
  }

  /** How far the second batch loop has come. */
  ghost predicate CellsLoaded(db: Database, done: seq<string>, before: map<Addr, EditionView>,
                              after: map<Addr, EditionView>, pointers: map<string, Addr>)
    requires PointersRight(before, pointers)
  {
    after.Keys == before.Keys && PointersRight(after, pointers)
    && forall e | e in pointers ::
         after[pointers[e]] == if e in done then Complete(db, before[pointers[e]], e) else before[pointers[e]]
  }

  method LoadAllEditions(db: Database, cells: map<Addr, EditionView>, pointers: map<string, Addr>)
    returns (after: map<Addr, EditionView>)
    requires Keyed(db) && PointersRight(cells, pointers)
    ensures after.Keys == cells.Keys && forall e | e in pointers ::
              after[pointers[e]] == Complete(db, cells[pointers[e]], e)
  {
    after := cells;
    var keys := ListKeys(pointers);
    var batches := StringBatches(keys, READ_BATCH_SIZE);
    ghost var n := 0;
    for k := 0 to |batches|
      invariant n == |Flatten(batches[..k])| && n <= |keys|
      invariant CellsLoaded(db, keys[..n], cells, after, pointers)
    {
      BatchAt(batches, keys, k);
      ghost var next := n + |batches[k]|;
      forall e | e in batches[k] ensures e in pointers && e !in keys[..n] { LaterIsNew(keys, n, next, e); }
      after := LoadEditionBatch(db, batches[k], after, pointers);
      assert keys[..next] == keys[..n] + batches[k];
      n := next;
    }
    assert batches[..|batches|] == batches && keys[..|keys|] == keys;
  }

  /*************** the result ***************/

  function Displayed(v: EditionView, locale: string): EditionView {
    v.(displayTitle := ResolveTitle(locale, v.row.title, v.titles))
  }

  /** The game copied out of memory, display titles filled in. */
  function Finished(shell: Shell, cells: map<Addr, EditionView>, locale: string): GameView
    requires forall i | 0 <= i < |shell.editions| :: shell.editions[i] in cells
  {
    GameView(shell.row, shell.titles, ResolveTitle(locale, shell.row.title, shell.titles), shell.media,
             seq(|shell.editions|, i requires 0 <= i < |shell.editions| => Displayed(cells[shell.editions[i]], locale)))
  }

  lemma FinishedEdition(db: Database, r: EditionRow, locale: string)
    ensures Displayed(Complete(db, Bare(r), r.id), locale) == ReadEdition(db, r, locale)
  {
    assert map[] + TitlesOf(db, EditionOwner(r.id)) == TitlesOf(db, EditionOwner(r.id));
    assert [] + ArtifactRowsOf(db, r.id) == ArtifactRowsOf(db, r.id)
      && [] + MediaFor(db, EditionOwner(r.id)) == MediaFor(db, EditionOwner(r.id));
  }

  /** A slice element after the second loop. */
  lemma CellIs(db: Database, m: Memory, cells: map<Addr, EditionView>, pointers: map<string, Addr>, g: string, i: nat)
    requires Sound(m) && PointersRight(m.cells, pointers) && Indexed(db, m, pointers, g) && i < |m.games[g].editions|
    requires cells.Keys == m.cells.Keys && forall e | e in pointers ::
               cells[pointers[e]] == Complete(db, m.cells[pointers[e]], e)
    ensures |EditionRowsOf(db, g)| == |m.games[g].editions|
    ensures var r := EditionRowsOf(db, g)[i]; cells[m.games[g].editions[i]] == Complete(db, Bare(r), r.id)
  {
    assert |View(m.cells, m.games[g].editions)| == |BareAll(EditionRowsOf(db, g))|;
    assert View(m.cells, m.games[g].editions)[i] == BareAll(EditionRowsOf(db, g))[i];
  }

  lemma FinishedIsReadGame(db: Database, m: Memory, cells: map<Addr, EditionView>, pointers: map<string, Addr>,
                           g: string, locale: string)
    requires Sound(m) && PointersRight(m.cells, pointers) && Indexed(db, m, pointers, g)
    requires HeaderRight(db, m.games[g], g)
    requires cells.Keys == m.cells.Keys && forall e | e in pointers ::
               cells[pointers[e]] == Complete(db, m.cells[pointers[e]], e)
    ensures Finished(m.games[g], cells, locale) == ReadGame(db, g, RowOf(db, g), locale)
  {
    var finished := Finished(m.games[g], cells, locale);
    var rows := EditionRowsOf(db, g);
    assert |View(m.cells, m.games[g].editions)| == |BareAll(rows)|;
    forall i | 0 <= i < |rows| ensures finished.editions[i] == ReadEditions(db, rows, locale)[i] {
      CellIs(db, m, cells, pointers, g, i);
      FinishedEdition(db, rows[i], locale);
    }
    assert finished.editions == ReadEditions(db, rows, locale);
  }

  /** loadGamesByIDs returns, in order, what GetGame returns for each id. Where GetGame
      finds no game, it returns one without columns of its own. Its callers pass distinct
      ids; all that matters is that no id comes in two batches. */
  method LoadGamesByIDs(db: Database, ids: seq<string>, locale: string) returns (items: seq<GameView>)
    requires Keyed(db) && OnceBatched(ids)
    ensures |items| == |ids| && forall i | 0 <= i < |ids| :: items[i] == ReadGame(db, ids[i], RowOf(db, ids[i]), locale)
    ensures forall i | 0 <= i < |ids| && ids[i] in db.games :: GetGame(db, ids[i], locale) == Some(items[i])
    ensures forall i | 0 <= i < |ids| :: GameShown(db, ids[i], locale, items[i])
  {
    if |ids| == 0 { return []; }
    var m, pointers := LoadAllGames(db, ids);
    var cells := LoadAllEditions(db, m.cells, pointers);
    assert ids[..|ids|] == ids;
    items := FinishAll(ids, m, cells, locale);
    forall i | 0 <= i < |ids| ensures items[i] == ReadGame(db, ids[i], RowOf(db, ids[i]), locale) {
      assert ids[i] in ids;
      FinishedIsReadGame(db, m, cells, pointers, ids[i], locale);
    }
    forall i | 0 <= i < |ids| ensures GameShown(db, ids[i], locale, items[i]) { ReadGameShows(db, ids[i], locale); }
  }

  /** The last loop, in the order of the ids. */
  method FinishAll(ids: seq<string>, m: Memory, cells: map<Addr, EditionView>, locale: string)
    returns (items: seq<GameView>)
    requires Sound(m) && cells.Keys == m.cells.Keys && forall g | g in ids :: g in m.games
    ensures |items| == |ids| && forall i | 0 <= i < |ids| :: items[i] == Finished(m.games[ids[i]], cells, locale)
  {
    items := [];
    for i := 0 to |ids|
      invariant |items| == i && forall j | 0 <= j < i :: items[j] == Finished(m.games[ids[j]], cells, locale)
    {
      items := items + [Finished(m.games[ids[i]], cells, locale)];
    }
  }
}
