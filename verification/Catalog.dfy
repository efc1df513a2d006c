/** The catalog's games, editions and what hangs off them. Every store call is one
    transaction: it works on a copy of the tables and either commits it or leaves
    the tables alone. `games.primary_edition_id` and `localized_titles` have no
    foreign key, so their consistency rests on these calls alone. */
module Catalog {
  import opened Sorting
  import opened Text
  import opened Wrappers

  datatype Game = Game(title: string, platform: string, primary: string)

  /** `columns` stands for the columns no call here looks at. */
  datatype Edition = Edition(game: string, title: string, sortOrder: int, columns: seq<string>)

  datatype Artifact = Artifact(edition: string, path: string, sourcePath: string, sha256: string, columns: seq<string>)

  datatype Owner = GameOwner(game: string) | EditionOwner(edition: string)

  datatype Media = Media(owner: Owner, columns: seq<string>)

  datatype TitleKey = TitleKey(owner: Owner, locale: string)

  datatype Title = Title(text: string, sortTitle: string)

  datatype MemberKey = MemberKey(series: string, game: string)

  datatype Member = Member(relation: string, sortOrder: int)

  datatype Tables = Tables(
    games: map<string, Game>, editions: map<string, Edition>, artifacts: map<string, Artifact>,
      media: map<string, Media>,
    titles: map<TitleKey, Title>, series: set<string>, members: map<MemberKey, Member>)

  datatype Error = Invalid | NotFound | PlatformMismatch | Stale | Refused

  /*************** what every call keeps ***************/

  predicate Alive(t: Tables, owner: Owner) {
    match owner
    case GameOwner(g) => g in t.games
    case EditionOwner(e) => e in t.editions
  }

  /** The foreign keys, which the database enforces. */
  ghost predicate ForeignKeys(t: Tables) {
    && (forall e | e in t.editions :: t.editions[e].game in t.games)
    && (forall a | a in t.artifacts :: t.artifacts[a].edition in t.editions)
    && (forall m | m in t.media :: Alive(t, t.media[m].owner))
    && (forall k | k in t.members :: k.game in t.games && k.series in t.series)
  }

  predicate PrimaryRight(t: Tables, g: string)
    requires g in t.games
  {
    if t.games[g].primary == "" then forall e | e in t.editions :: t.editions[e].game != g
    else t.games[g].primary in t.editions && t.editions[t.games[g].primary].game == g
  }

  /** A game's primary edition is empty exactly when it has none, and else one of its own. */
  ghost predicate PrimariesRight(t: Tables) {
    forall g | g in t.games :: PrimaryRight(t, g)
  }

  /** Every localized title has a live owner. */
  ghost predicate TitlesLive(t: Tables) {
    forall k | k in t.titles :: Alive(t, k.owner)
  }

  ghost predicate Consistent(t: Tables) {
    && ForeignKeys(t) && PrimariesRight(t) && TitlesLive(t)
    && "" !in t.editions && "" !in t.games
  }

  /*************** localized titles ***************/

  predicate Usable(input: map<string, string>, locale: string) {
    locale in input && !Blank(locale) && !Blank(input[locale])
  }

  function RowKey(owner: Owner, locale: string): TitleKey {
    TitleKey(owner, TrimSpace(locale))
  }

  function Row(text: string): Title {
    Title(TrimSpace(text), "")
  }

  /** Two rows for one locale, or one that is there already. */
  ghost predicate Clashes(titles: map<TitleKey, Title>, owner: Owner, input: map<string, string>) {
    || (exists l :: Usable(input, l) && RowKey(owner, l) in titles)
    || (exists l, l' :: Usable(input, l) && Usable(input, l') && l != l' && RowKey(owner, l) == RowKey(owner, l'))
  }

  /** The rows putTitles adds to the ones there were. */
  ghost predicate TitlesPut(before: map<TitleKey, Title>, after: map<TitleKey, Title>, owner: Owner,
                            input: map<string, string>)
  {
    && (forall l | Usable(input, l) :: RowKey(owner, l) in after && after[RowKey(owner, l)] == Row(input[l]))
    && (forall k | k in before :: k in after && after[k] == before[k])
    && (forall k | k in after && k !in before :: exists l :: Usable(input, l) && k == RowKey(owner, l))
  }

  /** `origin` remembers which entry each new row came from. */
  ghost predicate PutSoFar(before: map<TitleKey, Title>, after: map<TitleKey, Title>, owner: Owner,
                           input: map<string, string>,
                           walked: set<string>, origin: map<TitleKey, string>) {
    && (forall k | k in after :: if k in origin then k !in before else k in before && after[k] == before[k])
    && before.Keys + origin.Keys <= after.Keys
    && (forall k | k in origin :: origin[k] in walked && Usable(input, origin[k]) && k == RowKey(owner, origin[k])
                                  && k in after && after[k] == Row(input[origin[k]]))
    && (forall l | l in walked && Usable(input, l) :: RowKey(owner, l) in origin && origin[RowKey(owner, l)] == l)
  }

  lemma PutOne(before: map<TitleKey, Title>, after: map<TitleKey, Title>, owner: Owner, input: map<string, string>,
               walked: set<string>, origin: map<TitleKey, string>, l: string)
    requires PutSoFar(before, after, owner, input, walked, origin) && l !in walked && Usable(input, l)
    ensures RowKey(owner, l) in after ==> Clashes(before, owner, input)
    ensures RowKey(owner, l) !in after ==>
              PutSoFar(before, after[RowKey(owner, l) := Row(input[l])], owner, input, walked + {l},
                       origin[RowKey(owner, l) := l])
  {
    var k := RowKey(owner, l);
    if k in after && k in origin {
      assert Usable(input, origin[k]) && origin[k] != l && RowKey(owner, origin[k]) == k;
    }
  }

  lemma PutSkip(before: map<TitleKey, Title>, after: map<TitleKey, Title>, owner: Owner, input: map<string, string>,
                walked: set<string>, origin: map<TitleKey, string>, l: string)
    requires PutSoFar(before, after, owner, input, walked, origin) && !Usable(input, l)
    ensures PutSoFar(before, after, owner, input, walked + {l}, origin)
  {
  }

  lemma PutAll(before: map<TitleKey, Title>, after: map<TitleKey, Title>, owner: Owner, input: map<string, string>,
               origin: map<TitleKey, string>)
    requires PutSoFar(before, after, owner, input, input.Keys, origin)
    ensures TitlesPut(before, after, owner, input) && !Clashes(before, owner, input)
  {
  }

  /** A title that is not blank is stored without outer white space, under its locale without
      outer white space; no other one is. */
  ghost predicate TitlesStored(before: map<TitleKey, Title>, after: map<TitleKey, Title>, owner: Owner,
                               input: map<string, string>)
  {
    && (forall l | l in input && TrimSpace(l) != "" && TrimSpace(input[l]) != "" ::
          && TitleKey(owner, TrimSpace(l)) in after
          && after[TitleKey(owner, TrimSpace(l))] == Title(TrimSpace(input[l]), ""))
    && (forall k | k in after && k !in before :: k.owner == owner && k.locale != "" && after[k].text != "")
  }

  lemma PutIsStored(before: map<TitleKey, Title>, after: map<TitleKey, Title>, owner: Owner, input: map<string, string>)
    requires TitlesPut(before, after, owner, input)
    ensures TitlesStored(before, after, owner, input)
  {
    forall l | l in input && TrimSpace(l) != "" && TrimSpace(input[l]) != ""
      ensures && TitleKey(owner, TrimSpace(l)) in after
              && after[TitleKey(owner, TrimSpace(l))] == Title(TrimSpace(input[l]), "") {
      assert Usable(input, l);
    }
    forall k | k in after && k !in before ensures k.owner == owner && k.locale != "" && after[k].text != "" {
      var l :| Usable(input, l) && k == RowKey(owner, l);
    }
  }

  /** putTitles, whatever order the map is walked in. */
  method PutTitles(titles: map<TitleKey, Title>, owner: Owner, input: map<string, string>)
    returns (ok: bool, after: map<TitleKey, Title>)
    ensures ok <==> !Clashes(titles, owner, input)
    ensures ok ==> TitlesPut(titles, after, owner, input) && TitlesStored(titles, after, owner, input)
  {
    ok, after := true, titles;
    var pending := input.Keys;
    ghost var walked: set<string>, origin: map<TitleKey, string> := {}, map[];
    while pending != {}
      invariant pending !! walked && pending + walked == input.Keys
      invariant PutSoFar(titles, after, owner, input, walked, origin)
      decreases pending
    {
      var l :| l in pending;
      pending := pending - {l};
      if Usable(input, l) {
        PutOne(titles, after, owner, input, walked, origin, l);
        var key := RowKey(owner, l);
        if key in after { return false, after; }
        after, origin := after[key := Row(input[l])], origin[key := l];
      } else {
        PutSkip(titles, after, owner, input, walked, origin, l);
      }
      walked := walked + {l};
    }
    assert walked == input.Keys;
    PutAll(titles, after, owner, input, origin);
    PutIsStored(titles, after, owner, input);
  }

  /*************** the first remaining edition ***************/

  /** ORDER BY sort_order, lower(default_title), id. */
  predicate SortsBefore(t: Tables, a: string, b: string)
    requires a in t.editions && b in t.editions
  {
    var (x, y) := (t.editions[a], t.editions[b]);
    if x.sortOrder != y.sortOrder then x.sortOrder < y.sortOrder
    else if Lower(x.title) != Lower(y.title) then Le(Lower(x.title), Lower(y.title))
    else Le(a, b)
  }

  /** The columns of that ORDER BY. */
  function OrderColumns(t: Tables, e: string): seq<Atom>
    requires e in t.editions
  {
    [Int(t.editions[e].sortOrder), Text(Lower(t.editions[e].title)), Text(e)]
  }

  lemma SortsByColumns(t: Tables, a: string, b: string)
    requires a in t.editions && b in t.editions
    ensures SortsBefore(t, a, b) <==> ListLe(OrderColumns(t, a), OrderColumns(t, b))
  {
    var (x, y) := (t.editions[a], t.editions[b]);
    var (v, w) := ([Text(Lower(x.title)), Text(a)], [Text(Lower(y.title)), Text(b)]);
    assert OrderColumns(t, a) == [Int(x.sortOrder)] + v && OrderColumns(t, b) == [Int(y.sortOrder)] + w;
    FirstColumn(Int(x.sortOrder), v, Int(y.sortOrder), w);
    TwoTexts(Lower(x.title), a, Lower(y.title), b);
    LeTotal(Lower(x.title), Lower(y.title));
  }

  predicate IsEditionOf(t: Tables, e: string, g: string) {
    e in t.editions && t.editions[e].game == g
  }

  /** What a game's primary edition becomes when the old one goes: the first of the
      remaining ones, or nothing. */
  ghost predicate IsFirst(t: Tables, g: string, e: string) {
    if e == "" then forall x :: !IsEditionOf(t, x, g)
    else IsEditionOf(t, e, g) && forall x | IsEditionOf(t, x, g) :: SortsBefore(t, e, x)
  }

  lemma BeforeIsOrder(t: Tables, a: string, b: string, c: string)
    requires a in t.editions && b in t.editions && c in t.editions
    ensures SortsBefore(t, a, b) || SortsBefore(t, b, a)
    ensures SortsBefore(t, a, b) && SortsBefore(t, b, c) ==> SortsBefore(t, a, c)
  {
    var (x, y, z) := (Lower(t.editions[a].title), Lower(t.editions[b].title), Lower(t.editions[c].title));
    LeTotal(x, y);
    LeTotal(y, z);
    LeTotal(a, b);
    LeTotal(x, z);
    if Le(x, y) && Le(y, z) { LeTransitive(x, y, z); }
    if Le(a, b) && Le(b, c) { LeTransitive(a, b, c); }
  }

  /** SELECT id FROM editions WHERE game_id=? ORDER BY … LIMIT 1, with '' for no row. */
  method FirstEdition(t: Tables, g: string) returns (first: string)
    requires "" !in t.editions
    ensures IsFirst(t, g, first)
  {
    first := "";
    var pending := t.editions.Keys;
    while pending != {}
      invariant pending <= t.editions.Keys
      invariant first != "" ==> IsEditionOf(t, first, g)
      invariant forall x | IsEditionOf(t, x, g) && x !in pending :: first != "" && SortsBefore(t, first, x)
      decreases pending
    {
      var e :| e in pending;
      if t.editions[e].game == g && (first == "" || SortsBefore(t, e, first)) {
        forall x | IsEditionOf(t, x, g) && x !in pending ensures SortsBefore(t, e, x) {
          BeforeIsOrder(t, e, first, x);
        }
        BeforeIsOrder(t, e, e, e);
        first := e;
      } else if t.editions[e].game == g {
        BeforeIsOrder(t, e, first, first);
      }
      pending := pending - {e};
    }
  }

  /*************** statements ***************/

  function TitlesWithout(titles: map<TitleKey, Title>, owner: Owner): map<TitleKey, Title> {
    map k | k in titles && k.owner != owner :: titles[k]
  }

  function WithoutTitles(t: Tables, owner: Owner): Tables {
    t.(titles := TitlesWithout(t.titles, owner))
  }

  function MembersWithout(members: map<MemberKey, Member>, g: string): map<MemberKey, Member> {
    map k | k in members && k.game != g :: members[k]
  }

  /** DELETE FROM editions with its cascades. */
  function WithoutEditions(t: Tables, dead: set<string>): Tables {
    t.(editions := t.editions - dead,
       artifacts := map a | a in t.artifacts && t.artifacts[a].edition !in dead :: t.artifacts[a],
       media := map m | m in t.media && !(t.media[m].owner.EditionOwner? && t.media[m].owner.edition in dead) ::
           t.media[m])
  }

  function EditionsOf(t: Tables, g: string): set<string> {
    set e | e in t.editions && t.editions[e].game == g
  }

  /** DELETE FROM games with its cascades. */
  function WithoutGame(t: Tables, g: string): Tables {
    var u := WithoutEditions(t, EditionsOf(t, g));
    u.(games := u.games - {g},
       media := map m | m in u.media && u.media[m].owner != GameOwner(g) :: u.media[m],
       members := MembersWithout(u.members, g))
  }

  /** SET primary_edition_id = CASE WHEN primary_edition_id = '' THEN e ELSE primary_edition_id END */
  function FillPrimary(games: map<string, Game>, g: string, e: string): map<string, Game> {
    if g in games && games[g].primary == "" then games[g := games[g].(primary := e)] else games
  }

  /** SET primary_edition_id = CASE WHEN primary_edition_id = e THEN first ELSE primary_edition_id END */
  function ReplacePrimary(games: map<string, Game>, g: string, e: string, first: string): map<string, Game> {
    if g in games && games[g].primary == e then games[g := games[g].(primary := first)] else games
  }

  /** A game that loses `e` has `first` as its primary edition if `e` was that, else keeps its own;
      every other game stays as it is. */
  ghost predicate PrimaryPasses(before: map<string, Game>, after: map<string, Game>, g: string, e: string,
                                first: string)
  {
    && after.Keys == before.Keys && g in before
    && (before[g].primary == e ==> after[g] == before[g].(primary := first))
    && (before[g].primary != e ==> after[g] == before[g])
    && forall h | h in before && h != g :: after[h] == before[h]
  }

  /** ... and a game that gets `e` has it as its primary edition only if it had none. */
  ghost predicate PrimaryMoves(before: map<string, Game>, after: map<string, Game>, source: string, target: string,
                               e: string, first: string)
  {
    && after.Keys == before.Keys && source in before && target in before && source != target
    && (before[source].primary == e ==> after[source] == before[source].(primary := first))
    && (before[source].primary != e ==> after[source] == before[source])
    && (before[target].primary == "" ==> after[target] == before[target].(primary := e))
    && (before[target].primary != "" ==> after[target] == before[target])
    && forall h | h in before && h != source && h != target :: after[h] == before[h]
  }

  /** A new edition is primary only in a game that had none. */
  ghost predicate PrimaryFills(before: map<string, Game>, after: map<string, Game>, g: string, e: string) {
    && after.Keys == before.Keys && g in before
    && (before[g].primary == "" ==> after[g] == before[g].(primary := e))
    && (before[g].primary != "" ==> after[g] == before[g])
    && forall h | h in before && h != g :: after[h] == before[h]
  }

  /** Exactly the rows of these owners are gone: the owners, and what belongs to them. */
  ghost predicate Gone(before: Tables, after: Tables, owners: set<Owner>) {
    && after.editions.Keys == (set e | e in before.editions && EditionOwner(e) !in owners)
    && after.artifacts.Keys == (set a | a in before.artifacts && EditionOwner(before.artifacts[a].edition) !in owners)
    && after.media.Keys == (set m | m in before.media && before.media[m].owner !in owners)
    && after.titles.Keys == (set k | k in before.titles && k.owner !in owners)
    && after.members.Keys == (set k | k in before.members && GameOwner(k.game) !in owners)
    && after.games.Keys == (set g | g in before.games && GameOwner(g) !in owners)
    && Untouched(before, after)
  }

  /** What is left of these tables is as it was; games are told elsewhere. */
  ghost predicate Untouched(before: Tables, after: Tables) {
    && (forall e | e in after.editions && e in before.editions :: after.editions[e] == before.editions[e])
    && (forall a | a in after.artifacts && a in before.artifacts :: after.artifacts[a] == before.artifacts[a])
    && (forall m | m in after.media && m in before.media :: after.media[m] == before.media[m])
    && (forall k | k in after.titles && k in before.titles :: after.titles[k] == before.titles[k])
    && (forall k | k in after.members && k in before.members :: after.members[k] == before.members[k])
    && after.series == before.series
  }

  /*************** why the calls keep the catalog consistent ***************/

  /** A new edition with no primary competitor becomes the primary one. */
  function WithEdition(t: Tables, e: string, row: Edition): Tables {
    t.(editions := t.editions[e := row], games := FillPrimary(t.games, row.game, e))
  }

  lemma AddPrimary(before: Tables, e: string, row: Edition, g: string)
    requires g in before.games && PrimaryRight(before, g) && e != "" && e !in before.editions
    ensures PrimaryRight(WithEdition(before, e, row), g)
  {
    if g == row.game { assert IsEditionOf(WithEdition(before, e, row), e, g); }
  }

  lemma AddKeeps(before: Tables, e: string, row: Edition)
    requires Consistent(before) && e != "" && e !in before.editions && row.game in before.games
    ensures Consistent(WithEdition(before, e, row))
  {
    var after := WithEdition(before, e, row);
    assert PrimariesRight(after) by {
      forall g | g in after.games ensures PrimaryRight(after, g) { AddPrimary(before, e, row, g); }
    }
    assert ForeignKeys(after) && TitlesLive(after) by { SameKeys(before, after); }
  }

  /** The foreign keys and title owners do not depend on which edition is primary. */
  lemma SameKeys(before: Tables, after: Tables)
    requires ForeignKeys(before) && TitlesLive(before)
    requires after.games.Keys == before.games.Keys && before.editions.Keys <= after.editions.Keys
    requires after == before.(games := after.games, editions := after.editions)
    requires forall e | e in after.editions :: after.editions[e].game in after.games
    ensures ForeignKeys(after) && TitlesLive(after)
  {
    assert forall o: Owner :: Alive(before, o) ==> Alive(after, o);
  }

  /** What MoveEdition commits, `first` being the source game's next primary edition. */
  function Moved(t: Tables, e: string, target: string, first: string): Tables
    requires e in t.editions
  {
    var source := t.editions[e].game;
    t.(editions := t.editions[e := t.editions[e].(game := target)],
       games := FillPrimary(ReplacePrimary(t.games, source, e, first), target, e))
  }

  lemma MovedMeans(t: Tables, e: string, target: string, first: string)
    requires e in t.editions && t.editions[e].game in t.games && target in t.games && target != t.editions[e].game
    ensures var u := Moved(t, e, target, first);
            && PrimaryMoves(t.games, u.games, t.editions[e].game, target, e, first)
            && u == t.(games := u.games, editions := t.editions[e := t.editions[e].(game := target)])
  {
  }

  lemma MovePrimary(before: Tables, e: string, target: string, first: string, g: string)
    requires g in before.games && PrimaryRight(before, g) && e in before.editions && e != ""
    requires target != before.editions[e].game
    requires IsFirst(Moved(before, e, target, first), before.editions[e].game, first)
    ensures PrimaryRight(Moved(before, e, target, first), g)
  {
    var after := Moved(before, e, target, first);
    var source := before.editions[e].game;
    if g == target {
      assert IsEditionOf(after, e, target);
    } else if g == source {
      assert before.games[g].primary != "";
      if before.games[g].primary == e && first == "" {
        assert forall x | x in after.editions :: !IsEditionOf(after, x, source);
      }
    }
  }

  lemma MoveKeeps(before: Tables, e: string, target: string, first: string)
    requires Consistent(before) && e in before.editions && target in before.games && target != before.editions[e].game
    requires IsFirst(Moved(before, e, target, first), before.editions[e].game, first)
    ensures Consistent(Moved(before, e, target, first))
  {
    var after := Moved(before, e, target, first);
    assert PrimariesRight(after) by {
      forall g | g in after.games ensures PrimaryRight(after, g) { MovePrimary(before, e, target, first, g); }
    }
    assert ForeignKeys(after) && TitlesLive(after) by { SameKeys(before, after); }
  }

  /** What DeleteEdition commits. */
  function Deleted(t: Tables, e: string, first: string): Tables
    requires e in t.editions
  {
    var u := WithoutEditions(WithoutTitles(t, EditionOwner(e)), {e});
    u.(games := ReplacePrimary(u.games, t.editions[e].game, e, first))
  }

  lemma DeletedMeans(t: Tables, e: string, first: string)
    requires ForeignKeys(t) && e in t.editions
    ensures var u := Deleted(t, e, first);
            Gone(t, u, {EditionOwner(e)}) && PrimaryPasses(t.games, u.games, t.editions[e].game, e, first)
  {
  }

  lemma DeletePrimary(before: Tables, e: string, first: string, g: string)
    requires g in before.games && PrimaryRight(before, g) && e in before.editions && e != ""
    requires IsFirst(Deleted(before, e, first), before.editions[e].game, first)
    ensures PrimaryRight(Deleted(before, e, first), g)
  {
    var after := Deleted(before, e, first);
    if g == before.editions[e].game && before.games[g].primary == e && first == "" {
      assert forall x | x in after.editions :: !IsEditionOf(after, x, g);
    }
  }

  lemma DeleteKeysAndTitles(before: Tables, e: string, first: string)
    requires ForeignKeys(before) && TitlesLive(before) && e in before.editions
    ensures ForeignKeys(Deleted(before, e, first)) && TitlesLive(Deleted(before, e, first))
  {
  }

  lemma DeleteKeeps(before: Tables, e: string, first: string)
    requires Consistent(before) && e in before.editions
    requires IsFirst(Deleted(before, e, first), before.editions[e].game, first)
    ensures Consistent(Deleted(before, e, first))
  {
    var after := Deleted(before, e, first);
    assert PrimariesRight(after) by {
      forall g | g in after.games ensures PrimaryRight(after, g) { DeletePrimary(before, e, first, g); }
    }
    DeleteKeysAndTitles(before, e, first);
  }

  /** What DeleteGame commits. */
  function GameDeleted(t: Tables, g: string): Tables {
    var gone := EditionsOf(t, g);
    var u := t.(titles := map k | k in t.titles && k.owner != GameOwner(g)
                && !(k.owner.EditionOwner? && k.owner.edition in gone) :: t.titles[k]);
    WithoutGame(u, g)
  }

  /** A game and its editions. */
  function GameOwners(t: Tables, g: string): set<Owner> {
    {GameOwner(g)} + set e | e in t.editions && t.editions[e].game == g :: EditionOwner(e)
  }

  lemma GameDeletedMeans(t: Tables, g: string)
    ensures var u := GameDeleted(t, g);
            Gone(t, u, GameOwners(t, g)) && forall h | h in u.games :: u.games[h] == t.games[h]
  {
  }

  lemma GameDeleteForeignKeys(before: Tables, g: string)
    requires ForeignKeys(before)
    ensures ForeignKeys(GameDeleted(before, g))
  {
  }

  lemma GameDeleteTitles(before: Tables, g: string)
    requires TitlesLive(before)
    ensures TitlesLive(GameDeleted(before, g))
  {
  }

  lemma GameDeletePrimary(before: Tables, g: string, h: string)
    requires h in before.games && h != g && PrimaryRight(before, h)
    ensures PrimaryRight(GameDeleted(before, g), h)
  {
  }

  lemma GameDeleteKeeps(before: Tables, g: string)
    requires Consistent(before)
    ensures Consistent(GameDeleted(before, g))
  {
    var after := GameDeleted(before, g);
    assert PrimariesRight(after) by {
      forall h | h in after.games ensures PrimaryRight(after, h) { GameDeletePrimary(before, g, h); }
    }
    GameDeleteForeignKeys(before, g);
    GameDeleteTitles(before, g);
  }

  /** Adding titles of a live owner keeps every title owned. */
  lemma TitlesPutLive(t: Tables, after: map<TitleKey, Title>, owner: Owner, input: map<string, string>)
    requires TitlesLive(t) && Alive(t, owner) && TitlesPut(t.titles, after, owner, input)
    ensures TitlesLive(t.(titles := after))
  {
    forall k | k in after ensures Alive(t, k.owner) {
      if k !in t.titles { assert k.owner == owner; }
    }
  }
}
