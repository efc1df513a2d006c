/** Merging one game into another (internal/catalog/game_merge.go): the ordered
    updates with their final cascading delete, and the preview that predicts them. */
module GameMerge {
  import opened Catalog
  import opened Text
  import opened Wrappers

  /*************** the result, in one step ***************/

  function MergedMedia(m: Media, target: string, source: string): Media {
    if m.owner == GameOwner(source) then m.(owner := GameOwner(target)) else m
  }

  function MovedMedia(media: map<string, Media>, target: string, source: string): map<string, Media> {
    map m | m in media :: MergedMedia(media[m], target, source)
  }

  function MovedEditions(editions: map<string, Edition>, target: string, source: string): map<string, Edition> {
    map e | e in editions :: if editions[e].game == source then editions[e].(game := target) else editions[e]
  }

  function PrimaryAfter(games: map<string, Game>, target: string, source: string): string
    requires target in games && source in games
  {
    if games[target].primary == "" then games[source].primary else games[target].primary
  }

  function GamesAfter(games: map<string, Game>, target: string, source: string): map<string, Game>
    requires target in games && source in games
  {
    games[target := games[target].(primary := PrimaryAfter(games, target, source))] - {source}
  }

  /** The merge seen as one assignment per table. */
  function Merged(t: Tables, target: string, source: string): Tables
    requires target in t.games && source in t.games
  {
    Tables(
      GamesAfter(t.games, target, source),
      MovedEditions(t.editions, target, source),
      t.artifacts,
      MovedMedia(t.media, target, source),
      TitlesWithout(t.titles, GameOwner(source)) + NewTitles(t.titles, target, source),
      t.series,
      MembersWithout(t.members, source) + NewMembers(t.members, target, source))
  }

  /** The source game's titles in locales the target has none for. */
  function NewTitles(titles: map<TitleKey, Title>, target: string, source: string): map<TitleKey, Title> {
    map l | l in Locales(titles, source) - Locales(titles, target) :: TitleKey(GameOwner(target), l) :=
      titles[TitleKey(GameOwner(source), l)]
  }

  function NewMembers(members: map<MemberKey, Member>, target: string, source: string): map<MemberKey, Member> {
    map s | s in SeriesOf(members, source) - SeriesOf(members, target) :: MemberKey(s, target) :=
      members[MemberKey(s, source)]
  }

  /** The locales of a game's own titles. */
  function Locales(titles: map<TitleKey, Title>, g: string): (ls: set<string>)
    ensures forall l :: l in ls <==> TitleKey(GameOwner(g), l) in titles
  {
    var ls := set k | k in titles && k.owner == GameOwner(g) :: k.locale;
    assert forall l | TitleKey(GameOwner(g), l) in titles :: TitleKey(GameOwner(g), l).locale in ls;
    ls
  }

  function SeriesOf(members: map<MemberKey, Member>, g: string): (ss: set<string>)
    ensures forall s :: s in ss <==> MemberKey(s, g) in members
  {
    var ss := set k | k in members && k.game == g :: k.series;
    assert forall s | MemberKey(s, g) in members :: MemberKey(s, g).series in ss;
    ss
  }

  /*************** the statements ***************/

  function MoveEditions(t: Tables, target: string, source: string): Tables {
    t.(editions := MovedEditions(t.editions, target, source))
  }

  /** INSERT OR IGNORE … SELECT: existing target rows win. */
  function CopyTitles(t: Tables, target: string, source: string): Tables {
    t.(titles := NewTitles(t.titles, target, source) + t.titles)
  }

  function MoveMedia(t: Tables, target: string, source: string): Tables {
    t.(media := MovedMedia(t.media, target, source))
  }

  function CopyMembers(t: Tables, target: string, source: string): Tables {
    t.(members := NewMembers(t.members, target, source) + t.members)
  }

  /** mergeGamesTx: moves first, the cascading delete last. */
  method MergeGamesTx(t: Tables, target: string, source: string) returns (r: Result<Tables, Error>)
    requires target != source
    ensures r == Err(NotFound) <==> target !in t.games || source !in t.games
    ensures r == Err(PlatformMismatch) <==>
              target in t.games && source in t.games && t.games[target].platform != t.games[source].platform
    ensures r.Ok? <==> target in t.games && source in t.games && t.games[target].platform == t.games[source].platform
    ensures r.Ok? ==> r.value == Merged(t, target, source)
  {
    if target !in t.games || source !in t.games { return Err(NotFound); }
    if t.games[target].platform != t.games[source].platform { return Err(PlatformMismatch); }
    var u := MoveEditions(t, target, source);
    u := CopyTitles(u, target, source);
    u := MoveMedia(u, target, source);
    u := CopyMembers(u, target, source);
    var primary := u.games[target].primary;
    if primary == "" && u.games[source].primary != "" { primary := u.games[source].primary; }
    u := u.(games := u.games[target := u.games[target].(primary := primary)]);
    u := WithoutTitles(u, GameOwner(source));
    u := WithoutGame(u, source);
    StatementsMerge(t, target, source, primary, u);
    return Ok(u);
  }

  /** By the time the source game is deleted nothing hangs off it any more, so the
      cascade takes nothing along. */
  lemma CascadeTakesNothing(w: Tables, source: string)
    requires forall e | e in w.editions :: w.editions[e].game != source
    requires forall m | m in w.media :: w.media[m].owner != GameOwner(source)
    ensures WithoutGame(w, source) == w.(games := w.games - {source}, members := MembersWithout(w.members, source))
  {
    assert EditionsOf(w, source) == {};
    var u := WithoutEditions(w, {});
    assert u.artifacts == w.artifacts && u.media == w.media && u.editions == w.editions;
    assert (map m | m in u.media && u.media[m].owner != GameOwner(source) :: u.media[m]) == w.media;
  }

  lemma TitlesMerge(titles: map<TitleKey, Title>, target: string, source: string)
    requires target != source
    ensures TitlesWithout(NewTitles(titles, target, source) + titles, GameOwner(source))
            == TitlesWithout(titles, GameOwner(source)) + NewTitles(titles, target, source)
  {
  }

  lemma MembersMerge(members: map<MemberKey, Member>, target: string, source: string)
    requires target != source
    ensures MembersWithout(NewMembers(members, target, source) + members, source)
            == MembersWithout(members, source) + NewMembers(members, target, source)
  {
  }

  /** After the moves the source game owns nothing. */
  lemma NothingLeft(t: Tables, target: string, source: string)
    requires target != source
    ensures forall e | e in t.editions :: MovedEditions(t.editions, target, source)[e].game != source
    ensures forall m | m in t.media :: MovedMedia(t.media, target, source)[m].owner != GameOwner(source)
  {
  }

  lemma StatementsMerge(t: Tables, target: string, source: string, primary: string, u: Tables)
    requires target != source && target in t.games && source in t.games
    requires primary == PrimaryAfter(t.games, target, source)
    requires var v :=
             CopyMembers(MoveMedia(CopyTitles(MoveEditions(t, target, source), target, source), target, source),
                         target, source);
      u == WithoutGame(WithoutTitles(v.(games := v.games[target := v.games[target].(primary := primary)]),
                                     GameOwner(source)), source)
    ensures u == Merged(t, target, source)
  {
    var v := CopyMembers(MoveMedia(CopyTitles(MoveEditions(t, target, source), target, source), target, source),
                         target, source);
    var w := WithoutTitles(v.(games := v.games[target := v.games[target].(primary := primary)]), GameOwner(source));
    NothingLeft(t, target, source);
    CascadeTakesNothing(w, source);
    TitlesMerge(t.titles, target, source);
    MembersMerge(t.members, target, source);
  }

  /*************** what the merge keeps ***************/

  function Into(g: string, target: string, source: string): string {
    if g == source then target else g
  }

  /** The merge row by row. */
  ghost predicate EditionShape(t: Tables, after: Tables, target: string, source: string) {
    && after.editions.Keys == t.editions.Keys
    && (forall e | e in t.editions ::
          after.editions[e] == t.editions[e].(game := Into(t.editions[e].game, target, source)))
  }

  ghost predicate MediaShape(t: Tables, after: Tables, target: string, source: string) {
    && after.artifacts == t.artifacts && after.media.Keys == t.media.Keys
    && (forall m | m in t.media :: after.media[m] == MergedMedia(t.media[m], target, source))
  }

  ghost predicate GameShape(t: Tables, after: Tables, target: string, source: string)
    requires target in t.games && source in t.games && target != source
  {
    && after.games.Keys == t.games.Keys - {source}
    && (forall g | g in after.games && g != target :: after.games[g] == t.games[g])
    && after.games[target] == t.games[target].(primary := PrimaryAfter(t.games, target, source))
  }

  /** What is there afterwards under one title key: the target's own titles win. */
  predicate TitleShape(before: map<TitleKey, Title>, after: map<TitleKey, Title>, target: string, source: string,
                       k: TitleKey)
  {
    if k.owner == GameOwner(source) then k !in after
    else if k in before then k in after && after[k] == before[k]
    else if k.owner == GameOwner(target) && TitleKey(GameOwner(source), k.locale) in before
      then k in after && after[k] == before[TitleKey(GameOwner(source), k.locale)]
    else k !in after
  }

  predicate MemberShape(before: map<MemberKey, Member>, after: map<MemberKey, Member>, target: string, source: string,
                        k: MemberKey)
  {
    if k.game == source then k !in after
    else if k in before then k in after && after[k] == before[k]
    else if k.game == target && MemberKey(k.series, source) in before
      then k in after && after[k] == before[MemberKey(k.series, source)]
    else k !in after
  }

  ghost predicate TitlesShape(t: Tables, after: Tables, target: string, source: string) {
    forall k :: TitleShape(t.titles, after.titles, target, source, k)
  }

  ghost predicate MembersShape(t: Tables, after: Tables, target: string, source: string) {
    after.series == t.series && forall k :: MemberShape(t.members, after.members, target, source, k)
  }

  lemma MergedTitle(titles: map<TitleKey, Title>, target: string, source: string, k: TitleKey)
    requires target != source
    ensures TitleShape(titles, TitlesWithout(titles, GameOwner(source)) + NewTitles(titles, target, source), target,
                       source, k)
  {
    assert k in NewTitles(titles, target, source) <==>
           k.owner == GameOwner(target) && k.locale in Locales(titles, source) - Locales(titles, target);
  }

  lemma MergedMember(members: map<MemberKey, Member>, target: string, source: string, k: MemberKey)
    requires target != source
    ensures MemberShape(members, MembersWithout(members, source) + NewMembers(members, target, source), target,
                        source, k)
  {
  }

  lemma GamesAfterAre(games: map<string, Game>, target: string, source: string)
    requires target != source && target in games && source in games
    ensures var after := GamesAfter(games, target, source);
      && after.Keys == games.Keys - {source} && target in after
      && (forall g | g in after && g != target :: after[g] == games[g])
      && after[target] == games[target].(primary := PrimaryAfter(games, target, source))
  {
    var filled := games[target := games[target].(primary := PrimaryAfter(games, target, source))];
    var after := filled - {source};
    assert after.Keys == filled.Keys - {source};
    assert forall g | g in after :: after[g] == filled[g];
  }

  lemma MergedGames(t: Tables, target: string, source: string)
    requires target != source && target in t.games && source in t.games
    ensures GameShape(t, Merged(t, target, source), target, source)
  {
    GamesAfterAre(t.games, target, source);
  }

  lemma MergedEditions(t: Tables, target: string, source: string)
    requires target != source && target in t.games && source in t.games
    ensures EditionShape(t, Merged(t, target, source), target, source)
  {
  }

  lemma MergedArtwork(t: Tables, target: string, source: string)
    requires target != source && target in t.games && source in t.games
    ensures MediaShape(t, Merged(t, target, source), target, source)
  {
  }

  lemma MergedTitles(t: Tables, target: string, source: string)
    requires target != source && target in t.games && source in t.games
    ensures TitlesShape(t, Merged(t, target, source), target, source)
  {
    forall k ensures TitleShape(t.titles, Merged(t, target, source).titles, target, source, k) {
      MergedTitle(t.titles, target, source, k);
    }
  }

  lemma MergedMembers(t: Tables, target: string, source: string)
    requires target != source && target in t.games && source in t.games
    ensures MembersShape(t, Merged(t, target, source), target, source)
  {
    forall k ensures MemberShape(t.members, Merged(t, target, source).members, target, source, k) {
      MergedMember(t.members, target, source, k);
    }
  }

  /** The merge changes exactly this: editions, artwork, titles and memberships of the
      source game go to the target, whose own titles and memberships win. */
  ghost predicate MergeShape(t: Tables, after: Tables, target: string, source: string)
    requires target in t.games && source in t.games && target != source
  {
    && GameShape(t, after, target, source) && EditionShape(t, after, target, source)
       && MediaShape(t, after, target, source)
    && TitlesShape(t, after, target, source) && MembersShape(t, after, target, source)
  }

  lemma MergedIs(t: Tables, target: string, source: string)
    requires target != source && target in t.games && source in t.games
    ensures MergeShape(t, Merged(t, target, source), target, source)
  {
    MergedGames(t, target, source);
    MergedEditions(t, target, source);
    MergedArtwork(t, target, source);
    MergedTitles(t, target, source);
    MergedMembers(t, target, source);
  }

  lemma MergeForeignKeys(t: Tables, after: Tables, target: string, source: string)
    requires ForeignKeys(t) && target != source && target in t.games && source in t.games
    requires GameShape(t, after, target, source) && EditionShape(t, after, target, source)
    requires MediaShape(t, after, target, source)
    requires MembersShape(t, after, target, source)
    ensures ForeignKeys(after)
  {
    forall k | k in after.members ensures k.game in after.games && k.series in after.series {
      assert MemberShape(t.members, after.members, target, source, k);
    }
  }

  lemma MergeTitles(t: Tables, after: Tables, target: string, source: string)
    requires TitlesLive(t) && target != source && target in t.games && source in t.games
    requires GameShape(t, after, target, source) && EditionShape(t, after, target, source)
    requires TitlesShape(t, after, target, source)
    ensures TitlesLive(after)
  {
    forall k | k in after.titles ensures Alive(after, k.owner) {
      assert TitleShape(t.titles, after.titles, target, source, k);
    }
  }

  lemma MergePrimary(t: Tables, after: Tables, target: string, source: string, g: string)
    requires target != source && target in t.games && source in t.games && g in t.games && g != source
    requires PrimaryRight(t, g) && PrimaryRight(t, target) && PrimaryRight(t, source)
    requires GameShape(t, after, target, source) && EditionShape(t, after, target, source)
    ensures PrimaryRight(after, g)
  {
  }

  lemma MergeKeeps(t: Tables, target: string, source: string)
    requires Consistent(t) && target != source && target in t.games && source in t.games
    ensures Consistent(Merged(t, target, source))
  {
    var after := Merged(t, target, source);
    MergedIs(t, target, source);
    assert PrimariesRight(after) by {
      forall g | g in after.games ensures PrimaryRight(after, g) { MergePrimary(t, after, target, source, g); }
    }
    MergeForeignKeys(t, after, target, source);
    MergeTitles(t, after, target, source);
  }

  function ArtifactsOf(t: Tables, g: string): set<string> {
    set a | a in t.artifacts && t.artifacts[a].edition in t.editions && t.editions[t.artifacts[a].edition].game == g
  }

  function GameMedia(t: Tables, g: string): set<string> {
    set m | m in t.media && t.media[m].owner == GameOwner(g)
  }

  function EditionMedia(t: Tables, g: string): set<string> {
    set m | m in t.media && t.media[m].owner.EditionOwner? && t.media[m].owner.edition in t.editions
            && t.editions[t.media[m].owner.edition].game == g
  }

  /** The target ends up with all editions, artifacts and artwork of both games. */
  lemma MergeConserves(t: Tables, after: Tables, target: string, source: string)
    requires target != source
    requires EditionShape(t, after, target, source) && MediaShape(t, after, target, source)
    ensures EditionsOf(after, target) == EditionsOf(t, target) + EditionsOf(t, source)
    ensures ArtifactsOf(after, target) == ArtifactsOf(t, target) + ArtifactsOf(t, source)
    ensures GameMedia(after, target) == GameMedia(t, target) + GameMedia(t, source)
    ensures EditionMedia(after, target) == EditionMedia(t, target) + EditionMedia(t, source)
  {
  }
}
