/** The store calls on games and editions (internal/catalog/library_store.go and
    import_store.go), as transactions on one set of tables. */
module CatalogStore {
  import opened Catalog
  import opened GameMerge
  import opened MergePreview
  import opened Text
  import opened Wrappers

  datatype NewGame = NewGame(title: string, platform: string, titles: map<string, string>)

  /** `valid` says whether edition_type passes its check. */
  datatype NewEdition = NewEdition(id: string, game: string, title: string, sortOrder: int, columns: seq<string>,
                                   titles: map<string, string>, valid: bool)

  /** `inLibrary` says where the file is stored; `valid`, whether role, disc index, size and storage
      kind pass their checks. */
  datatype NewArtifact = NewArtifact(id: string, edition: string, path: string, sourcePath: string, sha256: string,
                                     missing: bool, inLibrary: bool, columns: seq<string>, valid: bool)

  datatype NewMedia = NewMedia(id: string, game: string, edition: string, columns: seq<string>, valid: bool)

  datatype NewMembership = NewMembership(series: string, title: string, relation: string, sortOrder: int, valid: bool)

  datatype Imported = Imported(game: NewGame, gameId: string, edition: NewEdition,
                               editionTitles: Option<map<string, string>>,
                               artifacts: seq<NewArtifact>, media: seq<NewMedia>, memberships: seq<NewMembership>)

  function Named(id: string, newId: string): string {
    if id == "" then newId else id
  }

  function ArtifactRow(edition: string, a: NewArtifact): Artifact {
    Artifact(edition, a.path, if a.sourcePath == "" && a.inLibrary then a.path else a.sourcePath, a.sha256, a.columns)
  }

  /** The unique keys of the artifacts table. */
  predicate ArtifactFree(artifacts: map<string, Artifact>, a: NewArtifact) {
    && a.id !in artifacts
    && forall k | k in artifacts :: artifacts[k].path != a.path && (a.sha256 != "" ==> artifacts[k].sha256 != a.sha256)
  }

  /** Exactly the listed rows were added. */
  ghost predicate ArtifactsAdded(before: map<string, Artifact>, after: map<string, Artifact>, edition: string,
                                 added: seq<NewArtifact>)
  {
    && (forall k | k in before :: k in after && after[k] == before[k])
    && (forall i | 0 <= i < |added| ::
          added[i].id in after && added[i].id !in before && after[added[i].id] == ArtifactRow(edition, added[i]))
    && (forall k | k in after && k !in before :: exists i :: 0 <= i < |added| && added[i].id == k)
  }

  /** The unique keys of two new artifacts. */
  predicate Separable(a: NewArtifact, b: NewArtifact) {
    a.id != b.id && a.path != b.path && (a.sha256 != "" ==> a.sha256 != b.sha256)
  }

  /** All of them can be inserted. */
  ghost predicate ArtifactsFit(artifacts: map<string, Artifact>, added: seq<NewArtifact>) {
    && (forall i | 0 <= i < |added| :: added[i].valid && ArtifactFree(artifacts, added[i]))
    && (forall i, j | 0 <= i < j < |added| :: Separable(added[i], added[j]))
  }

  /** The keys taken so far are those from before and those of the rows just inserted. */
  lemma FreeAfter(before: map<string, Artifact>, after: map<string, Artifact>, edition: string, done: seq<NewArtifact>,
                  a: NewArtifact)
    requires ArtifactsAdded(before, after, edition, done)
    ensures ArtifactFree(after, a) <==> ArtifactFree(before, a) && forall i | 0 <= i < |done| :: Separable(done[i], a)
  {
    if ArtifactFree(before, a) && forall i | 0 <= i < |done| :: Separable(done[i], a) {
      forall k | k in after
        ensures k != a.id && after[k].path != a.path && (a.sha256 != "" ==> after[k].sha256 != a.sha256) {
        if k !in before {
          var i :| 0 <= i < |done| && done[i].id == k;
          assert Separable(done[i], a);
        }
      }
    }
    if ArtifactFree(after, a) {
      forall k | k in before ensures before[k].path != a.path && (a.sha256 != "" ==> before[k].sha256 != a.sha256) {
        assert after[k] == before[k];
      }
      forall i | 0 <= i < |done| ensures Separable(done[i], a) { assert done[i].id in after; }
    }
  }

  lemma FitNext(artifacts: map<string, Artifact>, done: seq<NewArtifact>, a: NewArtifact)
    requires ArtifactsFit(artifacts, done)
    ensures ArtifactsFit(artifacts, done + [a]) <==>
              a.valid && ArtifactFree(artifacts, a) && forall i | 0 <= i < |done| :: Separable(done[i], a)
  {
    var more := done + [a];
    assert more[|done|] == a && forall i | 0 <= i < |done| :: more[i] == done[i];
  }

  lemma FitPrefix(artifacts: map<string, Artifact>, added: seq<NewArtifact>, n: nat)
    requires n <= |added|
    ensures ArtifactsFit(artifacts, added) ==> ArtifactsFit(artifacts, added[..n])
  {
  }

  /** One more row either is inserted, or keeps the whole list from fitting. */
  lemma InsertOne(before: map<string, Artifact>, after: map<string, Artifact>, edition: string,
                  added: seq<NewArtifact>, n: nat)
    requires n < |added| && ArtifactsAdded(before, after, edition, added[..n]) && ArtifactsFit(before, added[..n])
    ensures if added[n].valid && ArtifactFree(after, added[n])
            then ArtifactsAdded(before, after[added[n].id := ArtifactRow(edition, added[n])], edition,
                                added[..n + 1]) && ArtifactsFit(before, added[..n + 1])
            else !ArtifactsFit(before, added)
  {
    assert added[..n] + [added[n]] == added[..n + 1];
    FreeAfter(before, after, edition, added[..n], added[n]);
    FitNext(before, added[..n], added[n]);
    FitPrefix(before, added, n + 1);
    if added[n].valid && ArtifactFree(after, added[n]) {
      ArtifactsStep(before, after, edition, added[..n], added[n]);
    }
  }

  method InsertArtifacts(artifacts: map<string, Artifact>, edition: string, added: seq<NewArtifact>)
    returns (ok: bool, after: map<string, Artifact>)
    ensures ok <==> ArtifactsFit(artifacts, added)
    ensures ok ==> ArtifactsAdded(artifacts, after, edition, added)
  {
    ok, after := true, artifacts;
    for i := 0 to |added|
      invariant ArtifactsAdded(artifacts, after, edition, added[..i]) && ArtifactsFit(artifacts, added[..i])
    {
      InsertOne(artifacts, after, edition, added, i);
      if !added[i].valid || !ArtifactFree(after, added[i]) { return false, after; }
      after := after[added[i].id := ArtifactRow(edition, added[i])];
    }
    assert added[..|added|] == added;
  }

  lemma ArtifactsStep(before: map<string, Artifact>, after: map<string, Artifact>, edition: string,
                      done: seq<NewArtifact>, a: NewArtifact)
    requires ArtifactsAdded(before, after, edition, done) && a.id !in after
    ensures ArtifactsAdded(before, after[a.id := ArtifactRow(edition, a)], edition, done + [a])
  {
    var after' := after[a.id := ArtifactRow(edition, a)];
    forall k | k in after' && k !in before ensures exists i :: 0 <= i < |done + [a]| && (done + [a])[i].id == k {
      if k == a.id {
        assert (done + [a])[|done|].id == k;
      } else {
        var i :| 0 <= i < |done| && done[i].id == k;
        assert (done + [a])[i].id == k;
      }
    }
  }

  function MediaOwner(edition: string, m: NewMedia): Option<Owner> {
    if m.game == "" && m.edition == "" then Some(EditionOwner(edition))
    else if m.game == "" then Some(EditionOwner(m.edition))
    else if m.edition == "" then Some(GameOwner(m.game))
    else None
  }

  /** New media rows have live owners and new ids. */
  ghost predicate MediaAdded(t: Tables, after: map<string, Media>, edition: string, added: seq<NewMedia>) {
    && (forall k | k in t.media :: k in after && after[k] == t.media[k])
    && (forall i | 0 <= i < |added| ::
          && MediaOwner(edition, added[i]).Some? && Alive(t, MediaOwner(edition, added[i]).value)
          && added[i].id in after && after[added[i].id] == Media(MediaOwner(edition, added[i]).value, added[i].columns))
    && (forall k | k in after && k !in t.media :: exists i :: 0 <= i < |added| && added[i].id == k)
  }

  /** The row names one live owner and a free id. */
  predicate MediaFits(t: Tables, edition: string, m: NewMedia) {
    var owner := MediaOwner(edition, m);
    m.valid && owner.Some? && Alive(t, owner.value) && m.id !in t.media
  }

  ghost predicate AllMediaFit(t: Tables, edition: string, added: seq<NewMedia>) {
    && (forall i | 0 <= i < |added| :: MediaFits(t, edition, added[i]))
    && (forall i, j | 0 <= i < j < |added| :: added[i].id != added[j].id)
  }

  lemma MediaFitNext(t: Tables, after: map<string, Media>, edition: string, done: seq<NewMedia>, m: NewMedia)
    requires AllMediaFit(t, edition, done) && MediaAdded(t, after, edition, done)
    ensures AllMediaFit(t, edition, done + [m]) <==> MediaFits(t, edition, m) && m.id !in after
  {
    var more := done + [m];
    assert more[|done|] == m && forall i | 0 <= i < |done| :: more[i] == done[i] && done[i].id in after;
    if m.id in after && m.id !in t.media {
      var i :| 0 <= i < |done| && done[i].id == m.id;
      assert more[i].id == more[|done|].id;
    }
  }

  lemma MediaFitPrefix(t: Tables, edition: string, added: seq<NewMedia>, n: nat)
    requires n <= |added|
    ensures AllMediaFit(t, edition, added) ==> AllMediaFit(t, edition, added[..n])
  {
  }

  lemma OneMoreMedia(t: Tables, after: map<string, Media>, edition: string, done: seq<NewMedia>, m: NewMedia)
    requires AllMediaFit(t, edition, done) && MediaAdded(t, after, edition, done)
    ensures AllMediaFit(t, edition, done + [m]) <==> MediaFits(t, edition, m) && m.id !in after
    ensures MediaFits(t, edition, m) && m.id !in after ==>
              MediaAdded(t, after[m.id := Media(MediaOwner(edition, m).value, m.columns)], edition, done + [m])
  {
    MediaFitNext(t, after, edition, done, m);
    if MediaFits(t, edition, m) && m.id !in after { MediaStep(t, after, edition, done, m); }
  }

  method InsertMedia(t: Tables, edition: string, added: seq<NewMedia>) returns (ok: bool, after: map<string, Media>)
    ensures ok <==> AllMediaFit(t, edition, added)
    ensures ok ==> MediaAdded(t, after, edition, added)
  {
    ok, after := true, t.media;
    for i := 0 to |added|
      invariant MediaAdded(t, after, edition, added[..i]) && AllMediaFit(t, edition, added[..i])
    {
      OneMoreMedia(t, after, edition, added[..i], added[i]);
      assert added[..i] + [added[i]] == added[..i + 1];
      MediaFitPrefix(t, edition, added, i + 1);
      var owner := MediaOwner(edition, added[i]);
      if owner.None? || !added[i].valid || !Alive(t, owner.value) || added[i].id in after { return false, after; }
      assert MediaFits(t, edition, added[i]);
      after := after[added[i].id := Media(owner.value, added[i].columns)];
    }
    assert added[..|added|] == added;
  }

  lemma MediaStep(t: Tables, after: map<string, Media>, edition: string, done: seq<NewMedia>, m: NewMedia)
    requires MediaAdded(t, after, edition, done) && m.id !in after && MediaOwner(edition, m).Some?
    requires Alive(t, MediaOwner(edition, m).value)
    ensures MediaAdded(t, after[m.id := Media(MediaOwner(edition, m).value, m.columns)], edition, done + [m])
  {
    var after' := after[m.id := Media(MediaOwner(edition, m).value, m.columns)];
    forall k | k in after' && k !in t.media ensures exists i :: 0 <= i < |done + [m]| && (done + [m])[i].id == k {
      if k == m.id {
        assert (done + [m])[|done|].id == k;
      } else {
        var i :| 0 <= i < |done| && done[i].id == k;
        assert (done + [m])[i].id == k;
      }
    }
  }

  function KeyOf(game: string, m: NewMembership): MemberKey {
    MemberKey(TrimSpace(m.series), game)
  }

  /** Existing memberships are kept as they are; new ones are this game's. */
  ghost predicate MembershipsAdded(t: Tables, series: set<string>, after: map<MemberKey, Member>, game: string,
                                   added: seq<NewMembership>)
  {
    && t.series <= series
    && (forall k | k in t.members :: k in after && after[k] == t.members[k])
    && (forall i | 0 <= i < |added| :: KeyOf(game, added[i]) in after)
    && (forall k | k in after && k !in t.members ::
          k.game == game && k.series in series && FromList(after[k], k, game, added))
  }

  /** The row comes from the first entry for its key. */
  ghost predicate FromList(row: Member, key: MemberKey, game: string, added: seq<NewMembership>) {
    exists i :: 0 <= i < |added| && KeyOf(game, added[i]) == key && row == Member(added[i].relation, added[i].sortOrder)
                && forall j | 0 <= j < i :: KeyOf(game, added[j]) != key
  }

  lemma FromLonger(row: Member, key: MemberKey, game: string, done: seq<NewMembership>, m: NewMembership)
    requires FromList(row, key, game, done)
    ensures FromList(row, key, game, done + [m])
  {
    var i :| 0 <= i < |done| && KeyOf(game, done[i]) == key && row == Member(done[i].relation, done[i].sortOrder)
             && forall j | 0 <= j < i :: KeyOf(game, done[j]) != key;
    assert (done + [m])[i] == done[i];
  }

  lemma FromLast(key: MemberKey, game: string, done: seq<NewMembership>, m: NewMembership)
    requires KeyOf(game, m) == key && forall j | 0 <= j < |done| :: KeyOf(game, done[j]) != key
    ensures FromList(Member(m.relation, m.sortOrder), key, game, done + [m])
  {
    assert (done + [m])[|done|] == m;
  }

  /** INSERT OR IGNORE. */
  function Joined(members: map<MemberKey, Member>, game: string, m: NewMembership): map<MemberKey, Member> {
    var key := KeyOf(game, m);
    if key in members then members else members[key := Member(m.relation, m.sortOrder)]
  }

  lemma MembershipStep(t: Tables, series: set<string>, after: map<MemberKey, Member>, game: string,
                       done: seq<NewMembership>, m: NewMembership)
    requires MembershipsAdded(t, series, after, game, done)
    ensures MembershipsAdded(t, series + {KeyOf(game, m).series}, Joined(after, game, m), game, done + [m])
  {
    var k := KeyOf(game, m);
    var after' := Joined(after, game, m);
    forall x | x in after' && x !in t.members ensures FromList(after'[x], x, game, done + [m]) {
      if x in after {
        FromLonger(after[x], x, game, done, m);
      } else {
        FromLast(x, game, done, m);
      }
    }
  }

  lemma MembershipNext(t: Tables, series: set<string>, after: map<MemberKey, Member>, game: string,
                       added: seq<NewMembership>, n: nat)
    requires n < |added| && MembershipsAdded(t, series, after, game, added[..n])
    ensures MembershipsAdded(t, series + {KeyOf(game, added[n]).series}, Joined(after, game, added[n]), game,
                             added[..n + 1])
  {
    assert added[..n] + [added[n]] == added[..n + 1];
    MembershipStep(t, series, after, game, added[..n], added[n]);
  }

  predicate MembershipFits(m: NewMembership) {
    !Blank(m.series) && !Blank(m.title) && m.valid
  }

  /** The first `n` entries fit and are inserted. */
  ghost predicate Inserting(t: Tables, game: string, added: seq<NewMembership>, n: nat, series: set<string>,
                            after: map<MemberKey, Member>)
    requires n <= |added|
  {
    MembershipsAdded(t, series, after, game, added[..n]) && forall j | 0 <= j < n :: MembershipFits(added[j])
  }

  lemma InsertingNext(t: Tables, game: string, added: seq<NewMembership>, n: nat, series: set<string>,
                      after: map<MemberKey, Member>)
    requires n < |added| && Inserting(t, game, added, n, series, after) && MembershipFits(added[n])
    ensures Inserting(t, game, added, n + 1, series + {KeyOf(game, added[n]).series}, Joined(after, game, added[n]))
  {
    MembershipNext(t, series, after, game, added, n);
  }

  lemma NothingInserted(t: Tables, game: string, added: seq<NewMembership>)
    ensures Inserting(t, game, added, 0, t.series, t.members)
  {
  }

  lemma AllInserted(t: Tables, game: string, added: seq<NewMembership>, series: set<string>,
                    after: map<MemberKey, Member>)
    requires Inserting(t, game, added, |added|, series, after)
    ensures MembershipsAdded(t, series, after, game, added)
    ensures forall i | 0 <= i < |added| :: MembershipFits(added[i])
  {
    assert added[..|added|] == added;
  }

  method InsertMemberships(t: Tables, game: string, added: seq<NewMembership>)
    returns (ok: bool, series: set<string>, after: map<MemberKey, Member>)
    ensures ok <==> forall i | 0 <= i < |added| :: MembershipFits(added[i])
    ensures ok ==> MembershipsAdded(t, series, after, game, added)
  {
    ok, series, after := true, t.series, t.members;
    NothingInserted(t, game, added);
    for i := 0 to |added|
      invariant Inserting(t, game, added, i, series, after)
    {
      if !MembershipFits(added[i]) { return false, series, after; }
      InsertingNext(t, game, added, i, series, after);
      series, after := series + {KeyOf(game, added[i]).series}, Joined(after, game, added[i]);
    }
    AllInserted(t, game, added, series, after);
  }

  lemma NewGameKeeps(before: Tables, after: Tables, g: string)
    requires Consistent(before) && g !in before.games && g != ""
    requires after == before.(games := after.games) && after.games.Keys == before.games.Keys + {g}
    requires after.games[g].primary == "" && forall h | h in before.games :: after.games[h] == before.games[h]
    ensures Consistent(after)
  {
    forall h | h in after.games ensures PrimaryRight(after, h) {
      if h in before.games { assert PrimaryRight(before, h); }
    }
    SameKeysAndMore(before, after);
  }

  lemma SameKeysAndMore(before: Tables, after: Tables)
    requires ForeignKeys(before) && TitlesLive(before)
    requires after == before.(games := after.games) && before.games.Keys <= after.games.Keys
    ensures ForeignKeys(after) && TitlesLive(after)
  {
    assert forall o: Owner :: Alive(before, o) ==> Alive(after, o);
  }

  lemma RenameKeeps(before: Tables, after: Tables, g: string)
    requires Consistent(before) && g in before.games
    requires after == before.(games := after.games) && after.games.Keys == before.games.Keys
    requires forall h | h in before.games :: after.games[h].primary == before.games[h].primary
    ensures Consistent(after)
  {
    forall h | h in after.games ensures PrimaryRight(after, h) { assert PrimaryRight(before, h); }
    SameKeysAndMore(before, after);
  }

  lemma WithoutTitlesKeeps(t: Tables, owner: Owner)
    requires Consistent(t)
    ensures Consistent(WithoutTitles(t, owner))
  {
    SamePrimaries(t, WithoutTitles(t, owner));
  }

  /** Primaries depend only on games and editions. */
  lemma SamePrimaries(before: Tables, after: Tables)
    requires PrimariesRight(before) && after.games == before.games && after.editions == before.editions
    ensures PrimariesRight(after)
  {
    forall h | h in after.games ensures PrimaryRight(after, h) { assert PrimaryRight(before, h); }
  }

  lemma TitlesKeep(t: Tables, titles: map<TitleKey, Title>, owner: Owner, input: map<string, string>)
    requires Consistent(t) && Alive(t, owner) && TitlesPut(t.titles, titles, owner, input)
    ensures Consistent(t.(titles := titles))
  {
    SamePrimaries(t, t.(titles := titles));
    TitlesPutLive(t, titles, owner, input);
  }

  function EditionRow(input: NewEdition): Edition {
    Edition(input.game, TrimSpace(input.title), input.sortOrder, input.columns)
  }

  /** The edition has the fields it was given, its title without outer white space. */
  predicate NewRow(t: Tables, e: string, input: NewEdition) {
    && e in t.editions && t.editions[e].game == input.game && t.editions[e].title == TrimSpace(input.title)
    && t.editions[e].sortOrder == input.sortOrder && t.editions[e].columns == input.columns
  }

  /** The artifact belongs to the edition; its source path is its path if it has no other and is
      stored in the library. */
  predicate HangsBelow(t: Tables, e: string, a: NewArtifact) {
    && a.id in t.artifacts && t.artifacts[a.id].edition == e && t.artifacts[a.id].path == a.path
    && t.artifacts[a.id].sha256 == a.sha256 && t.artifacts[a.id].columns == a.columns
    && t.artifacts[a.id].sourcePath == if a.sourcePath != "" then a.sourcePath else if a.inLibrary then a.path else ""
  }

  /** The one new edition with its titles, primary if the game had none; nothing else. */
  ghost predicate EditionAdded(before: Tables, after: Tables, e: string, row: Edition, titles: map<string, string>) {
    && e !in before.editions && row.game in before.games
    && PrimaryFills(before.games, after.games, row.game, e)
    && after == before.(editions := before.editions[e := row], games := after.games, titles := after.titles)
    && TitlesPut(before.titles, after.titles, EditionOwner(e), titles)
  }

  /** Its id is free, its game exists, and its titles clash with none. */
  ghost predicate EditionFits(t: Tables, e: string, row: Edition, titles: map<string, string>) {
    e !in t.editions && row.game in t.games && !Clashes(t.titles, EditionOwner(e), titles)
  }

  /** The inserts every new edition starts with. */
  method InsertEdition(t: Tables, e: string, row: Edition, titles: map<string, string>)
    returns (ok: bool, after: Tables)
    requires Consistent(t) && e != ""
    ensures ok <==> EditionFits(t, e, row, titles)
    ensures ok ==> EditionAdded(t, after, e, row, titles) && Consistent(after)
  {
    ok, after := false, t;
    if e in t.editions || row.game !in t.games { return; }
    after := after.(editions := after.editions[e := row]);
    var put, rows := PutTitles(after.titles, EditionOwner(e), titles);
    if !put { return; }
    after := after.(titles := rows);
    after := after.(games := FillPrimary(after.games, row.game, e));
    AddKeeps(t, e, row);
    TitlesKeep(WithEdition(t, e, row), rows, EditionOwner(e), titles);
    assert after == WithEdition(t, e, row).(titles := rows);
    ok := true;
  }

  lemma ArtifactsKeep(t: Tables, artifacts: map<string, Artifact>, e: string, added: seq<NewArtifact>)
    requires Consistent(t) && e in t.editions && ArtifactsAdded(t.artifacts, artifacts, e, added)
    ensures Consistent(t.(artifacts := artifacts))
  {
    SamePrimaries(t, t.(artifacts := artifacts));
    forall a | a in artifacts ensures artifacts[a].edition in t.editions {
      if a !in t.artifacts {
        var i :| 0 <= i < |added| && added[i].id == a;
      }
    }
  }

  lemma EditionRowKeeps(before: Tables, after: Tables)
    requires Consistent(before) && after == before.(editions := after.editions)
    requires after.editions.Keys == before.editions.Keys
    requires forall e | e in before.editions :: after.editions[e].game == before.editions[e].game
    ensures Consistent(after)
  {
    forall g | g in after.games ensures PrimaryRight(after, g) { assert PrimaryRight(before, g); }
    SameKeys(before, after);
  }

  /** Which edition comes first depends on the editions only. */
  lemma SameFirst(t: Tables, u: Tables, g: string, first: string)
    requires t.editions == u.editions && IsFirst(t, g, first)
    ensures IsFirst(u, g, first)
  {
    forall x | IsEditionOf(u, x, g) && first != "" ensures SortsBefore(u, first, x) {
      assert IsEditionOf(t, x, g);
    }
    if first == "" {
      assert forall x :: IsEditionOf(u, x, g) ==> IsEditionOf(t, x, g);
    }
  }

  lemma PrimaryKeeps(t: Tables, g: string, e: string)
    requires Consistent(t) && IsEditionOf(t, e, g)
    ensures g in t.games && Consistent(t.(games := t.games[g := t.games[g].(primary := e)]))
  {
    var after := t.(games := t.games[g := t.games[g].(primary := e)]);
    forall h | h in after.games ensures PrimaryRight(after, h) { assert PrimaryRight(t, h); }
    SameKeysAndMore(t, after);
  }

  /** An artifact with this path, source path or content is catalogued already. */
  ghost predicate Duplicate(artifacts: map<string, Artifact>, a: NewArtifact) {
    exists k :: k in artifacts && SameFile(artifacts[k], a)
  }

  predicate SameFile(row: Artifact, a: NewArtifact) {
    row.path == a.path || (a.sourcePath != "" && row.sourcePath == a.sourcePath)
      || (a.sha256 != "" && row.sha256 == a.sha256)
  }

  /** A duplicate comes before any artifact without a path. */
  ghost predicate DuplicateFound(artifacts: map<string, Artifact>, added: seq<NewArtifact>) {
    exists i :: 0 <= i < |added| && Duplicate(artifacts, added[i]) && forall j | 0 <= j <= i :: !Blank(added[j].path)
  }

  /** The duplicate check, artifact by artifact. */
  method CheckArtifacts(artifacts: map<string, Artifact>, added: seq<NewArtifact>) returns (fine: bool, duplicate: bool)
    ensures fine && duplicate <==> DuplicateFound(artifacts, added)
    ensures fine && !duplicate <==>
              forall i | 0 <= i < |added| :: !Blank(added[i].path) && !Duplicate(artifacts, added[i])
  {
    for i := 0 to |added|
      invariant forall j | 0 <= j < i :: !Blank(added[j].path) && !Duplicate(artifacts, added[j])
    {
      if Blank(added[i].path) {
        assert !DuplicateFound(artifacts, added);
        return false, false;
      }
      if exists k :: k in artifacts && SameFile(artifacts[k], added[i]) {
        assert Duplicate(artifacts, added[i]);
        return true, true;
      }
    }
    return true, false;
  }

  function ImportedTitles(input: Imported): map<string, string> {
    if input.editionTitles.Some? then input.editionTitles.value else input.game.titles
  }

  function ImportedRow(input: Imported, g: string): Edition {
    Edition(g, TrimSpace(if Blank(input.edition.title) then input.game.title else input.edition.title), 0,
            input.edition.columns)
  }

  /** An existing game of the same platform is kept as it is; else one is created. */
  ghost predicate GameEnsured(before: Tables, after: Tables, g: string, input: NewGame) {
    if g in before.games then after == before && before.games[g].platform == TrimSpace(input.platform)
    else
      && after == before.(games := before.games[g := Game(TrimSpace(input.title), TrimSpace(input.platform), "")],
                          titles := after.titles)
      && TitlesPut(before.titles, after.titles, GameOwner(g), input.titles)
  }

  method EnsureGame(t: Tables, g: string, input: NewGame) returns (ok: bool, after: Tables)
    requires Consistent(t) && g != "" && (g in t.games ==> t.games[g].platform == TrimSpace(input.platform))
    ensures ok <==> g in t.games || !Clashes(t.titles, GameOwner(g), input.titles)
    ensures ok ==> GameEnsured(t, after, g, input) && Consistent(after)
  {
    ok, after := true, t;
    if g in t.games { return; }
    after := t.(games := t.games[g := Game(TrimSpace(input.title), TrimSpace(input.platform), "")]);
    NewGameKeeps(t, after, g);
    var put, rows := PutTitles(after.titles, GameOwner(g), input.titles);
    if !put { return false, after; }
    TitlesKeep(after, rows, GameOwner(g), input.titles);
    after := after.(titles := rows);
  }

  predicate ImportNamed(input: Imported) {
    !Blank(input.game.title) && !Blank(input.game.platform) && input.edition.valid
  }

  ghost predicate NoDuplicate(artifacts: map<string, Artifact>, added: seq<NewArtifact>) {
    forall i | 0 <= i < |added| :: !Blank(added[i].path) && !Duplicate(artifacts, added[i])
  }

  predicate SamePlatform(t: Tables, g: string, input: NewGame) {
    g in t.games ==> t.games[g].platform == TrimSpace(input.platform)
  }

  /** The owner exists once the game `g` and its new edition `e` do. */
  predicate AliveWith(t: Tables, g: string, e: string, o: Owner) {
    Alive(t, o) || o == GameOwner(g) || o == EditionOwner(e)
  }

  ghost predicate ImportedMediaFit(t: Tables, g: string, e: string, added: seq<NewMedia>) {
    && (forall i | 0 <= i < |added| ::
          added[i].valid && MediaOwner(e, added[i]).Some? && AliveWith(t, g, e, MediaOwner(e, added[i]).value)
            && added[i].id !in t.media)
    && (forall i, j | 0 <= i < j < |added| :: added[i].id != added[j].id)
  }

  /** Everything an import needs, before anything is inserted. */
  ghost predicate Importable(t: Tables, g: string, e: string, input: Imported) {
    && ImportNamed(input) && NoDuplicate(t.artifacts, input.artifacts) && SamePlatform(t, g, input.game)
    && (g in t.games || !Clashes(t.titles, GameOwner(g), input.game.titles))
    && e !in t.editions && !Clashes(t.titles, EditionOwner(e), ImportedTitles(input))
    && ArtifactsFit(t.artifacts, input.artifacts) && ImportedMediaFit(t, g, e, input.media)
    && forall i | 0 <= i < |input.memberships| :: MembershipFits(input.memberships[i])
  }

  /** Titles of the new game do not get in the way of titles of its edition. */
  lemma EditionClashes(before: Tables, base: Tables, g: string, e: string, game: NewGame, titles: map<string, string>)
    requires GameEnsured(before, base, g, game)
    ensures Clashes(base.titles, EditionOwner(e), titles) <==> Clashes(before.titles, EditionOwner(e), titles)
  {
    assert forall l, m :: RowKey(EditionOwner(e), l) != RowKey(GameOwner(g), m);
    assert forall l :: RowKey(EditionOwner(e), l) in base.titles <==> RowKey(EditionOwner(e), l) in before.titles;
  }

  lemma OwnersAfter(before: Tables, base: Tables, mid: Tables, g: string, e: string, game: NewGame, row: Edition,
                    titles: map<string, string>, o: Owner)
    requires GameEnsured(before, base, g, game) && EditionAdded(base, mid, e, row, titles)
    requires row.game == g
    ensures Alive(mid, o) <==> AliveWith(before, g, e, o)
  {
    assert base.games.Keys == before.games.Keys + {g} && mid.games.Keys == base.games.Keys;
    assert mid.editions.Keys == before.editions.Keys + {e};
  }

  lemma ImportedOwners(before: Tables, base: Tables, mid: Tables, g: string, e: string, game: NewGame, row: Edition,
                       titles: map<string, string>, added: seq<NewMedia>)
    requires GameEnsured(before, base, g, game) && EditionAdded(base, mid, e, row, titles) && row.game == g
    ensures AllMediaFit(mid, e, added) <==> ImportedMediaFit(before, g, e, added)
  {
    assert mid.media == before.media;
    forall i | 0 <= i < |added| && MediaOwner(e, added[i]).Some?
      ensures Alive(mid, MediaOwner(e, added[i]).value) <==> AliveWith(before, g, e, MediaOwner(e, added[i]).value)
    {
      OwnersAfter(before, base, mid, g, e, game, row, titles, MediaOwner(e, added[i]).value);
    }
  }

  /** Some catalogued artifact has this path, this source path or this content. */
  ghost predicate Known(artifacts: map<string, Artifact>, a: NewArtifact) {
    || (exists k | k in artifacts :: artifacts[k].path == a.path)
    || (a.sourcePath != "" && exists k | k in artifacts :: artifacts[k].sourcePath == a.sourcePath)
    || (a.sha256 != "" && exists k | k in artifacts :: artifacts[k].sha256 == a.sha256)
  }

  lemma KnownIsDuplicate(artifacts: map<string, Artifact>, a: NewArtifact)
    ensures Known(artifacts, a) <==> Duplicate(artifacts, a)
  {
    if Known(artifacts, a) {
      var k :| k in artifacts && (artifacts[k].path == a.path
                                  || (a.sourcePath != "" && artifacts[k].sourcePath == a.sourcePath)
                                  || (a.sha256 != "" && artifacts[k].sha256 == a.sha256));
      assert SameFile(artifacts[k], a);
    }
    if k :| k in artifacts && SameFile(artifacts[k], a) {
      assert artifacts[k].path == a.path || artifacts[k].sourcePath == a.sourcePath || artifacts[k].sha256 == a.sha256;
    }
  }

  lemma OneHangs(t: Tables, after: map<string, Artifact>, e: string, a: NewArtifact)
    requires ArtifactsAdded(t.artifacts, after, e, [a])
    ensures HangsBelow(t.(artifacts := after), e, a)
  {
    assert [a][0] == a;
  }

  /** The game is there: an old one as it was, but for an empty primary edition. */
  ghost predicate ImportsGame(before: Tables, after: Tables, g: string, e: string, input: Imported) {
    && g in after.games && after.games[g].platform == TrimSpace(input.game.platform)
    && (g !in before.games ==> after.games[g].title == TrimSpace(input.game.title) && after.games[g].primary == e)
    && (g in before.games ==>
          after.games[g] == if before.games[g].primary == "" then before.games[g].(primary := e) else before.games[g])
    && (forall h | h in before.games && h != g :: h in after.games && after.games[h] == before.games[h])
  }

  /** The new edition is there, with its title or else the game's, and its artifacts. */
  ghost predicate ImportsEdition(before: Tables, after: Tables, g: string, e: string, input: Imported) {
    && e !in before.editions && e in after.editions && after.editions[e].game == g
    && after.editions[e].title ==
       TrimSpace(if TrimSpace(input.edition.title) != "" then input.edition.title else input.game.title)
    && after.editions[e].sortOrder == 0 && after.editions[e].columns == input.edition.columns
    && (forall x | x in before.editions :: x in after.editions && after.editions[x] == before.editions[x])
    && (forall i | 0 <= i < |input.artifacts| :: HangsBelow(after, e, input.artifacts[i]))
  }

  /** Media hang off the one owner they name, or else off the new edition; the game is in every
      listed series, as its first entry says if it was not in it before. */
  ghost predicate ImportsLinks(before: Tables, after: Tables, g: string, e: string, input: Imported) {
    && (forall i | 0 <= i < |input.media| ::
          var m := input.media[i];
          && (m.game == "" || m.edition == "") && m.id in after.media && after.media[m.id].columns == m.columns
          && after.media[m.id].owner == if m.game != "" then GameOwner(m.game)
             else EditionOwner(if m.edition != "" then m.edition else e))
    && (forall i | 0 <= i < |input.memberships| ::
          var key := MemberKey(TrimSpace(input.memberships[i].series), g);
          && key.series != "" && TrimSpace(input.memberships[i].title) != "" && input.memberships[i].valid
          && key in after.members && key.series in after.series
          && (key !in before.members && IsFirstFor(input.memberships, i) ==>
                after.members[key] == Member(input.memberships[i].relation, input.memberships[i].sortOrder)))
  }

  /** No earlier entry names this series. */
  predicate IsFirstFor(added: seq<NewMembership>, i: nat)
    requires i < |added|
  {
    forall j | 0 <= j < i :: TrimSpace(added[j].series) != TrimSpace(added[i].series)
  }

  lemma FirstEntryCounts(row: Member, key: MemberKey, g: string, added: seq<NewMembership>, i: nat)
    requires i < |added| && FromList(row, key, g, added) && KeyOf(g, added[i]) == key && IsFirstFor(added, i)
    ensures row == Member(added[i].relation, added[i].sortOrder)
  {
    var k :| 0 <= k < |added| && KeyOf(g, added[k]) == key && row == Member(added[k].relation, added[k].sortOrder)
             && forall j | 0 <= j < k :: KeyOf(g, added[j]) != key;
    assert k == i;
  }

  lemma MembershipLinked(t: Tables, after: Tables, g: string, added: seq<NewMembership>, i: nat)
    requires MembershipsAdded(t, after.series, after.members, g, added) && i < |added| && !Blank(added[i].series)
    requires forall k | k in t.members :: k.series in t.series
    ensures var key := MemberKey(TrimSpace(added[i].series), g);
            && key.series != "" && key in after.members && key.series in after.series
            && (key !in t.members && IsFirstFor(added, i) ==>
                  after.members[key] == Member(added[i].relation, added[i].sortOrder))
  {
    var key := KeyOf(g, added[i]);
    if key !in t.members && IsFirstFor(added, i) { FirstEntryCounts(after.members[key], key, g, added, i); }
  }

  lemma ImportedLinksAre(before: Tables, t: Tables, after: Tables, g: string, e: string, input: Imported)
    requires ForeignKeys(t) && t.members == before.members && ContentsAdded(t, after, g, e, input)
    requires forall i | 0 <= i < |input.memberships| :: MembershipFits(input.memberships[i])
    ensures ImportsLinks(before, after, g, e, input)
  {
    forall i: nat | i < |input.memberships|
      ensures var key := MemberKey(TrimSpace(input.memberships[i].series), g);
              && key.series != "" && key in after.members && key.series in after.series
              && (key !in before.members && IsFirstFor(input.memberships, i) ==>
                    after.members[key] == Member(input.memberships[i].relation, input.memberships[i].sortOrder))
    {
      MembershipLinked(t, after, g, input.memberships, i);
    }
  }

  /** The new edition's titles are stored, or the game's if it has none of its own; those of a new
      game are stored too. */
  ghost predicate ImportsTitles(before: Tables, after: Tables, g: string, e: string, input: Imported) {
    && (forall l | l in input.game.titles && TrimSpace(l) != "" && TrimSpace(input.game.titles[l]) != "" ::
          && (g !in before.games ==> TitleKey(GameOwner(g), TrimSpace(l)) in after.titles)
          && (input.editionTitles.None? ==> TitleKey(EditionOwner(e), TrimSpace(l)) in after.titles))
    && (input.editionTitles.Some? ==>
          forall l | l in input.editionTitles.value && TrimSpace(l) != ""
                     && TrimSpace(input.editionTitles.value[l]) != "" ::
            TitleKey(EditionOwner(e), TrimSpace(l)) in after.titles)
  }

  lemma ImportedTitlesAre(before: Tables, base: Tables, mid: Tables, after: Tables, g: string, e: string,
                          input: Imported)
    requires GameEnsured(before, base, g, input.game)
    requires EditionAdded(base, mid, e, ImportedRow(input, g), ImportedTitles(input))
    requires after.titles == mid.titles
    ensures ImportsTitles(before, after, g, e, input)
  {
    PutIsStored(base.titles, mid.titles, EditionOwner(e), ImportedTitles(input));
    if g !in before.games { PutIsStored(before.titles, base.titles, GameOwner(g), input.game.titles); }
  }

  /** What hangs off games and editions is still there. */
  ghost predicate KeepsRows(before: Tables, after: Tables) {
    && (forall k | k in before.artifacts :: k in after.artifacts && after.artifacts[k] == before.artifacts[k])
    && (forall k | k in before.media :: k in after.media && after.media[k] == before.media[k])
    && (forall k | k in before.titles :: k in after.titles && after.titles[k] == before.titles[k])
    && (forall k | k in before.members :: k in after.members && after.members[k] == before.members[k])
  }

  lemma ImportedGameIs(before: Tables, base: Tables, mid: Tables, after: Tables, g: string, e: string, input: Imported)
    requires GameEnsured(before, base, g, input.game)
    requires EditionAdded(base, mid, e, ImportedRow(input, g), ImportedTitles(input))
    requires ContentsAdded(mid, after, g, e, input)
    ensures ImportsGame(before, after, g, e, input)
  {
    assert after.games == mid.games && PrimaryFills(base.games, mid.games, g, e);
  }

  lemma ListedHang(before: map<string, Artifact>, t: Tables, e: string, added: seq<NewArtifact>)
    requires ArtifactsAdded(before, t.artifacts, e, added)
    ensures forall i | 0 <= i < |added| :: HangsBelow(t, e, added[i])
  {
  }

  lemma ImportedEditionIs(before: Tables, base: Tables, mid: Tables, after: Tables, g: string, e: string,
                          input: Imported)
    requires GameEnsured(before, base, g, input.game)
    requires EditionAdded(base, mid, e, ImportedRow(input, g), ImportedTitles(input))
    requires ContentsAdded(mid, after, g, e, input)
    ensures ImportsEdition(before, after, g, e, input)
  {
    assert base.editions == before.editions && after.editions == base.editions[e := ImportedRow(input, g)];
    ListedHang(mid.artifacts, after, e, input.artifacts);
  }

  lemma ImportKeepsRows(before: Tables, base: Tables, mid: Tables, after: Tables, g: string, e: string, input: Imported)
    requires GameEnsured(before, base, g, input.game)
    requires EditionAdded(base, mid, e, ImportedRow(input, g), ImportedTitles(input))
    requires ContentsAdded(mid, after, g, e, input)
    ensures KeepsRows(before, after)
  {
    assert KeepsRows(before, base);
    assert KeepsRows(base, mid);
    KeepsChain(before, base, mid);
    assert KeepsRows(mid, after);
    KeepsChain(before, mid, after);
  }

  lemma KeepsChain(a: Tables, b: Tables, c: Tables)
    requires KeepsRows(a, b) && KeepsRows(b, c)
    ensures KeepsRows(a, c)
  {
  }

  /** What an import inserts below its new edition. */
  ghost predicate ContentsAdded(t: Tables, after: Tables, g: string, e: string, input: Imported) {
    && ArtifactsAdded(t.artifacts, after.artifacts, e, input.artifacts)
    && MediaAdded(t, after.media, e, input.media)
    && MembershipsAdded(t, after.series, after.members, g, input.memberships)
    && after == t.(artifacts := after.artifacts, media := after.media, series := after.series, members := after.members)
  }

  method InsertContents(t: Tables, g: string, e: string, input: Imported) returns (ok: bool, after: Tables)
    requires Consistent(t) && e in t.editions && g in t.games
    ensures ok <==> ArtifactsFit(t.artifacts, input.artifacts) && AllMediaFit(t, e, input.media)
                    && forall i | 0 <= i < |input.memberships| :: MembershipFits(input.memberships[i])
    ensures ok ==> ContentsAdded(t, after, g, e, input) && Consistent(after)
  {
    var added, artifacts := InsertArtifacts(t.artifacts, e, input.artifacts);
    if !added { return false, t; }
    var hung, media := InsertMedia(t, e, input.media);
    if !hung { return false, t; }
    var joined, series, members := InsertMemberships(t, g, input.memberships);
    if !joined { return false, t; }
    ImportKeeps(t, e, g, artifacts, media, series, members, input);
    return true, t.(artifacts := artifacts, media := media, series := series, members := members);
  }

  lemma ImportKeeps(t: Tables, e: string, g: string, artifacts: map<string, Artifact>, media: map<string, Media>,
                    series: set<string>, members: map<MemberKey, Member>, input: Imported)
    requires Consistent(t) && e in t.editions && g in t.games
    requires ArtifactsAdded(t.artifacts, artifacts, e, input.artifacts)
    requires MediaAdded(t, media, e, input.media) && MembershipsAdded(t, series, members, g, input.memberships)
    ensures Consistent(t.(artifacts := artifacts, media := media, series := series, members := members))
  {
    ArtifactsKeep(t, artifacts, e, input.artifacts);
    var u := t.(artifacts := artifacts);
    MediaKeep(u, media, e, input.media);
    var w := u.(media := media);
    MembersKeep(w, series, members, g, input.memberships);
    assert w.(series := series, members := members) ==
      t.(artifacts := artifacts, media := media, series := series, members := members);
  }

  lemma MediaKeep(t: Tables, media: map<string, Media>, e: string, added: seq<NewMedia>)
    requires Consistent(t) && MediaAdded(t, media, e, added)
    ensures Consistent(t.(media := media))
  {
    SamePrimaries(t, t.(media := media));
    forall m | m in media ensures Alive(t, media[m].owner) {
      if m !in t.media {
        var i :| 0 <= i < |added| && added[i].id == m;
      }
    }
    assert forall o: Owner :: Alive(t, o) <==> Alive(t.(media := media), o);
  }

  lemma MembersKeep(t: Tables, series: set<string>, members: map<MemberKey, Member>, g: string,
                    added: seq<NewMembership>)
    requires Consistent(t) && g in t.games && MembershipsAdded(t, series, members, g, added)
    ensures Consistent(t.(series := series, members := members))
  {
    var u := t.(series := series, members := members);
    SamePrimaries(t, u);
    assert forall o: Owner :: Alive(t, o) <==> Alive(u, o);
  }

  /** The two title deletes of DeleteGame together. */
  lemma TitlesDeletedTogether(t: Tables, g: string, gone: set<string>)
    ensures WithoutTitles(t.(titles := map k | k in t.titles && !(k.owner.EditionOwner? && k.owner.edition in gone) ::
                               t.titles[k]), GameOwner(g)) ==
              t.(titles := map k | k in t.titles && k.owner != GameOwner(g)
                 && !(k.owner.EditionOwner? && k.owner.edition in gone) :: t.titles[k])
  {
  }

  /** The inserts of an import whose checks have passed. */
  method ImportRows(t: Tables, g: string, e: string, input: Imported)
    returns (ok: bool, after: Tables, ghost base: Tables, ghost mid: Tables)
    requires Consistent(t) && g != "" && e != "" && SamePlatform(t, g, input.game)
    requires ImportNamed(input) && NoDuplicate(t.artifacts, input.artifacts)
    ensures ok <==> Importable(t, g, e, input)
    ensures ok ==> Consistent(after) && GameEnsured(t, base, g, input.game)
    ensures ok ==> EditionAdded(base, mid, e, ImportedRow(input, g), ImportedTitles(input))
                   && ContentsAdded(mid, after, g, e, input)
    ensures ok ==> ForeignKeys(mid) && forall i | 0 <= i < |input.memberships| :: MembershipFits(input.memberships[i])
  {
    ok, after, base, mid := false, t, t, t;
    var there, ensured := EnsureGame(t, g, input.game);
    if !there { return; }
    base := ensured;
    EditionClashes(t, ensured, g, e, input.game, ImportedTitles(input));
    var put, added := InsertEdition(ensured, e, ImportedRow(input, g), ImportedTitles(input));
    if !put { return; }
    mid := added;
    ImportedOwners(t, ensured, added, g, e, input.game, ImportedRow(input, g), ImportedTitles(input), input.media);
    ok, after := InsertContents(added, g, e, input);
  }

  /** What those inserts come to. */
  lemma ImportedIs(t: Tables, base: Tables, mid: Tables, after: Tables, g: string, e: string, input: Imported)
    requires GameEnsured(t, base, g, input.game) && ContentsAdded(mid, after, g, e, input)
    requires EditionAdded(base, mid, e, ImportedRow(input, g), ImportedTitles(input))
    requires ForeignKeys(mid) && forall i | 0 <= i < |input.memberships| :: MembershipFits(input.memberships[i])
    ensures ImportsGame(t, after, g, e, input) && ImportsEdition(t, after, g, e, input)
    ensures ImportsTitles(t, after, g, e, input) && ImportsLinks(t, after, g, e, input) && KeepsRows(t, after)
  {
    ImportedGameIs(t, base, mid, after, g, e, input);
    ImportedEditionIs(t, base, mid, after, g, e, input);
    ImportKeepsRows(t, base, mid, after, g, e, input);
    ImportedTitlesAre(t, base, mid, after, g, e, input);
    ImportedLinksAre(t, mid, after, g, e, input);
  }

  class Store {
    var db: Tables

    constructor ()
      ensures Consistent(db) && db.games == map[]
    {
      db := Tables(map[], map[], map[], map[], map[], {}, map[]);
    }

    method CreateGame(id: string, input: NewGame, newId: string, commits: bool) returns (r: Result<string, Error>)
      requires Consistent(db) && newId != ""
      modifies this
      ensures Consistent(db)
      ensures r.Err? ==> db == old(db)
      ensures r.Ok? <==> commits && !Blank(input.title) && !Blank(input.platform)
                         && Named(id, newId) !in old(db).games
                            && !Clashes(old(db).titles, GameOwner(Named(id, newId)), input.titles)
      ensures r.Ok? ==> r.value == Named(id, newId) && r.value !in old(db).games
                        && db == old(db).(games := old(db).games[r.value := Game(TrimSpace(input.title),
                           TrimSpace(input.platform), "")],
                                          titles := db.titles)
                        && TitlesPut(old(db).titles, db.titles, GameOwner(r.value), input.titles)
      ensures r.Ok? ==> r.value == (if id == "" then newId else id)
                        && db.games[r.value] == Game(TrimSpace(input.title), TrimSpace(input.platform), "")
    {
      if Blank(input.title) || Blank(input.platform) { return Err(Invalid); }
      var g := Named(id, newId);
      if g in db.games { return Err(Refused); }
      var t := db.(games := db.games[g := Game(TrimSpace(input.title), TrimSpace(input.platform), "")]);
      NewGameKeeps(db, t, g);
      var ok, titles := PutTitles(t.titles, GameOwner(g), input.titles);
      if !ok || !commits { return Err(Refused); }
      TitlesKeep(t, titles, GameOwner(g), input.titles);
      db := t.(titles := titles);
      return Ok(g);
    }

    method UpdateGame(id: string, input: NewGame, commits: bool) returns (r: Result<(), Error>)
      requires Consistent(db)
      modifies this
      ensures Consistent(db)
      ensures r.Err? ==> db == old(db)
      ensures r.Ok? <==> commits && !Blank(input.title) && !Blank(input.platform) && id in old(db).games
                         && !Clashes(WithoutTitles(old(db), GameOwner(id)).titles, GameOwner(id), input.titles)
      ensures r.Ok? ==> id in old(db).games
                        && db == old(db).(games := old(db).games[id := Game(TrimSpace(input.title),
                           TrimSpace(input.platform), old(db).games[id].primary)],
                                          titles := db.titles)
                        && TitlesPut(WithoutTitles(old(db), GameOwner(id)).titles, db.titles, GameOwner(id),
                                     input.titles)
    {
      if Blank(input.title) || Blank(input.platform) { return Err(Invalid); }
      if id !in db.games { return Err(NotFound); }
      var t := db.(games := db.games[id := Game(TrimSpace(input.title), TrimSpace(input.platform),
                                                db.games[id].primary)]);
      RenameKeeps(db, t, id);
      WithoutTitlesKeeps(t, GameOwner(id));
      t := WithoutTitles(t, GameOwner(id));
      var ok, titles := PutTitles(t.titles, GameOwner(id), input.titles);
      if !ok || !commits { return Err(Refused); }
      TitlesKeep(t, titles, GameOwner(id), input.titles);
      db := t.(titles := titles);
      return Ok(());
    }
  
    /** AddEdition: the first edition of a game becomes its primary one. */
    method AddEdition(input: NewEdition, newId: string, commits: bool) returns (r: Result<string, Error>)
      requires Consistent(db) && newId != ""
      modifies this
      ensures Consistent(db)
      ensures r.Err? ==> db == old(db)
      ensures r.Ok? <==> commits && input.game != "" && !Blank(input.title) && input.valid
                         && EditionFits(old(db), Named(input.id, newId), EditionRow(input), input.titles)
      ensures r.Ok? ==>
                r.value == Named(input.id, newId) && EditionAdded(old(db), db, r.value, EditionRow(input), input.titles)
      ensures r.Ok? ==> r.value == (if input.id == "" then newId else input.id) && NewRow(db, r.value, input)
    {
      if input.game == "" || Blank(input.title) || !input.valid { return Err(Invalid); }
      var e := Named(input.id, newId);
      var ok, t := InsertEdition(db, e, EditionRow(input), input.titles);
      if !ok || !commits { return Err(Refused); }
      db := t;
      return Ok(e);
    }

    /** AddEditionWithArtifact: the edition and its first file, or neither. */
    method AddEditionWithArtifact(input: NewEdition, artifact: NewArtifact, newId: string, commits: bool)
      returns (r: Result<string, Error>)
      requires Consistent(db) && newId != ""
      modifies this
      ensures Consistent(db)
      ensures r.Err? ==> db == old(db)
      ensures r.Ok? <==> commits && input.game != "" && !Blank(input.title) && input.valid
                         && EditionFits(old(db), Named(input.id, newId), EditionRow(input), input.titles)
                         && (artifact.edition == "" || artifact.edition == Named(input.id, newId))
                         && !Blank(artifact.path) && !artifact.missing && !Blank(artifact.sha256)
                            && ArtifactsFit(old(db).artifacts, [artifact])
      ensures r.Ok? ==> r.value == Named(input.id, newId)
                        && EditionAdded(old(db), db.(artifacts := old(db).artifacts), r.value, EditionRow(input),
                                        input.titles)
                        && ArtifactsAdded(old(db).artifacts, db.artifacts, r.value, [artifact]) && !artifact.missing
                           && !Blank(artifact.sha256)
      ensures r.Ok? ==> r.value == (if input.id == "" then newId else input.id) && NewRow(db, r.value, input)
      ensures r.Ok? ==> HangsBelow(db, r.value, artifact)
    {
      if input.game == "" || Blank(input.title) || !input.valid { return Err(Invalid); }
      var e := Named(input.id, newId);
      if (artifact.edition != "" && artifact.edition != e) || Blank(artifact.path) || artifact.missing
        || Blank(artifact.sha256) {
        return Err(Invalid);
      }
      var ok, t := InsertEdition(db, e, EditionRow(input), input.titles);
      if !ok { return Err(Refused); }
      var added, artifacts := InsertArtifacts(t.artifacts, e, [artifact]);
      if !added || !commits { return Err(Refused); }
      ArtifactsKeep(t, artifacts, e, [artifact]);
      OneHangs(t, artifacts, e, artifact);
      db := t.(artifacts := artifacts);
      return Ok(e);
    }

    method UpdateEdition(id: string, input: NewEdition, commits: bool) returns (r: Result<(), Error>)
      requires Consistent(db)
      modifies this
      ensures Consistent(db)
      ensures r.Err? ==> db == old(db)
      ensures r.Ok? <==> commits && !Blank(input.title) && input.valid && id in old(db).editions
                         && !Clashes(WithoutTitles(old(db), EditionOwner(id)).titles, EditionOwner(id), input.titles)
      ensures r.Ok? ==> id in old(db).editions
                        && db == old(db).(editions :=
                                          old(db).editions[id :=
                                                           EditionRow(input).(game := old(db).editions[id].game)],
                                                             titles := db.titles)
                        && TitlesPut(WithoutTitles(old(db), EditionOwner(id)).titles, db.titles, EditionOwner(id),
                                     input.titles)
      ensures r.Ok? ==> id in old(db).editions && NewRow(db, id, input.(game := old(db).editions[id].game))
    {
      if Blank(input.title) || !input.valid { return Err(Invalid); }
      if id !in db.editions { return Err(NotFound); }
      var t := db.(editions := db.editions[id := EditionRow(input).(game := db.editions[id].game)]);
      EditionRowKeeps(db, t);
      WithoutTitlesKeeps(t, EditionOwner(id));
      t := WithoutTitles(t, EditionOwner(id));
      var ok, titles := PutTitles(t.titles, EditionOwner(id), input.titles);
      if !ok || !commits { return Err(Refused); }
      TitlesKeep(t, titles, EditionOwner(id), input.titles);
      db := t.(titles := titles);
      return Ok(());
    }

    /** MoveEdition, within one platform. `first` is the source game's next primary edition. */
    method MoveEdition(e: string, target: string, commits: bool) returns (r: Result<(), Error>, ghost first: string)
      requires Consistent(db)
      modifies this
      ensures Consistent(db)
      ensures r.Err? ==> db == old(db)
      ensures r.Ok? <==> e in old(db).editions && target in old(db).games
                         && old(db).games[old(db).editions[e].game].platform == old(db).games[target].platform
                         && (commits || old(db).editions[e].game == target)
      ensures e in old(db).editions && target in old(db).games ==>
                (r == Err(PlatformMismatch) <==>
                    old(db).games[old(db).editions[e].game].platform != old(db).games[target].platform)
      ensures r.Ok? && old(db).editions[e].game == target ==> db == old(db)
      ensures r.Ok? && old(db).editions[e].game != target ==>
                IsFirst(db, old(db).editions[e].game, first)
      ensures r.Ok? && old(db).editions[e].game != target ==>
                PrimaryMoves(old(db).games, db.games, old(db).editions[e].game, target, e, first)
                && db == old(db).(games := db.games,
                                  editions := old(db).editions[e := old(db).editions[e].(game := target)])
    {
      first := "";
      if e == "" || target == "" { return Err(Invalid), first; }
      if e !in db.editions || target !in db.games { return Err(NotFound), first; }
      var source := db.editions[e].game;
      if db.games[source].platform != db.games[target].platform { return Err(PlatformMismatch), first; }
      if source == target { return Ok(()), first; }
      var t := db.(editions := db.editions[e := db.editions[e].(game := target)]);
      var next := FirstEdition(t, source);
      t := t.(games := ReplacePrimary(t.games, source, e, next));
      t := t.(games := FillPrimary(t.games, target, e));
      if !commits { return Err(Refused), first; }
      SameFirst(db.(editions := t.editions), t, source, next);
      MoveKeeps(db, e, target, next);
      MovedMeans(db, e, target, next);
      db := t;
      return Ok(()), next;
    }

    method SetPrimaryEdition(g: string, e: string, commits: bool) returns (r: Result<(), Error>)
      requires Consistent(db)
      modifies this
      ensures Consistent(db)
      ensures r.Err? ==> db == old(db)
      ensures r.Ok? <==> commits && IsEditionOf(old(db), e, g)
      ensures r.Ok? ==> g in old(db).games
                        && db == old(db).(games := old(db).games[g := old(db).games[g].(primary := e)])
      ensures r == Err(NotFound) <==> !IsEditionOf(old(db), e, g)
    {
      if !(e in db.editions && db.editions[e].game == g) { return Err(NotFound); }
      if !commits { return Err(Refused); }
      PrimaryKeeps(db, g, e);
      db := db.(games := db.games[g := db.games[g].(primary := e)]);
      return Ok(());
    }

    /** DeleteEdition. `first` is the game's next primary edition. */
    method DeleteEdition(e: string, commits: bool) returns (r: Result<(), Error>, ghost first: string)
      requires Consistent(db)
      modifies this
      ensures Consistent(db)
      ensures r.Err? ==> db == old(db)
      ensures r == Err(NotFound) <==> e !in old(db).editions
      ensures r.Ok? <==> commits && e in old(db).editions
      ensures r.Ok? ==> IsFirst(db, old(db).editions[e].game, first) && Gone(old(db), db, {EditionOwner(e)})
      ensures r.Ok? ==> PrimaryPasses(old(db).games, db.games, old(db).editions[e].game, e, first)
    {
      first := "";
      if e !in db.editions { return Err(NotFound), first; }
      var g := db.editions[e].game;
      var t := WithoutTitles(db, EditionOwner(e));
      t := WithoutEditions(t, {e});
      var next := FirstEdition(t, g);
      SameFirst(t, t.(games := ReplacePrimary(t.games, g, e, next)), g, next);
      t := t.(games := ReplacePrimary(t.games, g, e, next));
      if !commits { return Err(Refused), first; }
      DeleteKeeps(db, e, next);
      DeletedMeans(db, e, next);
      db := t;
      return Ok(()), next;
    }

    method DeleteGame(g: string, commits: bool) returns (r: Result<(), Error>)
      requires Consistent(db)
      modifies this
      ensures Consistent(db)
      ensures r.Err? ==> db == old(db)
      ensures r == Err(NotFound) <==> g !in old(db).games
      ensures r.Ok? <==> commits && g in old(db).games
      ensures r.Ok? ==> Gone(old(db), db, GameOwners(old(db), g))
                        && forall h | h in db.games :: db.games[h] == old(db).games[h]
    {
      var gone := EditionsOf(db, g);
      var t := db.(titles := map k | k in db.titles && !(k.owner.EditionOwner? && k.owner.edition in gone) ::
                     db.titles[k]);
      t := WithoutTitles(t, GameOwner(g));
      TitlesDeletedTogether(db, g, gone);
      if g !in t.games { return Err(NotFound); }
      t := WithoutGame(t, g);
      if !commits { return Err(Refused); }
      GameDeleteKeeps(db, g);
      GameDeletedMeans(db, g);
      db := t;
      return Ok(());
    }

    /** importGameTx in its own transaction. `base` is the state once the game is
        there, `mid` the state once its new edition is. */
    method ImportGame(input: Imported, newGameId: string, newEditionId: string, commits: bool)
      returns (r: Result<(string, bool), Error>, ghost base: Tables, ghost mid: Tables)
      requires Consistent(db) && newGameId != "" && newEditionId != ""
      modifies this
      ensures Consistent(db)
      ensures r.Err? || !r.value.1 ==> db == old(db)
      ensures r.Ok? ==> r.value.0 == Named(input.gameId, newGameId)
      ensures r.Ok? && !r.value.1 <==> ImportNamed(input) && DuplicateFound(old(db).artifacts, input.artifacts)
      ensures r == Err(PlatformMismatch) <==> ImportNamed(input) && NoDuplicate(old(db).artifacts, input.artifacts)
                                              && !SamePlatform(old(db), Named(input.gameId, newGameId), input.game)
      ensures r.Ok? && r.value.1 <==>
                commits && Importable(old(db), Named(input.gameId, newGameId), Named(input.edition.id, newEditionId),
                                      input)
      ensures r.Ok? && r.value.1 ==>
                && GameEnsured(old(db), base, r.value.0, input.game)
                && EditionAdded(base, mid, Named(input.edition.id, newEditionId), ImportedRow(input, r.value.0),
                                ImportedTitles(input))
                && ContentsAdded(mid, db, r.value.0, Named(input.edition.id, newEditionId), input)
      ensures r.Ok? && r.value.1 ==>
                var e := if input.edition.id == "" then newEditionId else input.edition.id;
                ImportsGame(old(db), db, r.value.0, e, input) && ImportsEdition(old(db), db, r.value.0, e, input)
                  && ImportsTitles(old(db), db, r.value.0, e, input)
                  && ImportsLinks(old(db), db, r.value.0, e, input) && KeepsRows(old(db), db)
      ensures r.Ok? ==> TrimSpace(input.game.title) != "" && TrimSpace(input.game.platform) != "" && input.edition.valid
      ensures r.Ok? ==> r.value.0 == if input.gameId == "" then newGameId else input.gameId
      ensures r.Ok? ==> (r.value.1 <==> forall a | a in input.artifacts :: !Known(old(db).artifacts, a))
    {
      base, mid := db, db;
      if Blank(input.game.title) || Blank(input.game.platform) || !input.edition.valid {
        return Err(Invalid), base, mid;
      }
      var g := Named(input.gameId, newGameId);
      var e := Named(input.edition.id, newEditionId);
      var fine, duplicate := CheckArtifacts(db.artifacts, input.artifacts);
      forall a | a in input.artifacts ensures Known(db.artifacts, a) <==> Duplicate(db.artifacts, a) {
        KnownIsDuplicate(db.artifacts, a);
      }
      if !fine { return Err(Invalid), base, mid; }
      if duplicate { return Ok((g, false)), base, mid; }
      if g in db.games && db.games[g].platform != TrimSpace(input.game.platform) {
        return Err(PlatformMismatch), base, mid;
      }
      var ok, t;
      ok, t, base, mid := ImportRows(db, g, e, input);
      if !ok || !commits { return Err(Refused), base, mid; }
      ImportedIs(db, base, mid, t, g, e, input);
      db := t;
      return Ok((g, true)), base, mid;
    }

    /** MergeGames, and with `expected` MergeGamesIfFingerprint: the plan is rebuilt
        from `q`, the current rows, inside the merging transaction. */
    method MergeGames(target: string, source: string, expected: Option<string>, q: Snapshot, commits: bool)
      returns (r: Result<(), Error>)
      requires Consistent(db)
      requires target in db.games && source in db.games ==> IsSnapshot(db, target, source, q)
      modifies this
      ensures Consistent(db)
      ensures r.Err? ==> db == old(db)
      ensures r.Ok? <==>
                commits && !Blank(target) && !Blank(source) && target != source && target in old(db).games
                  && source in old(db).games
                         && old(db).games[target].platform == old(db).games[source].platform
                         && (expected.Some? ==>
                               !Blank(expected.value) && PlanOf(target, source, q).fingerprint == expected.value)
      ensures r.Ok? ==> db == Merged(old(db), target, source)
      ensures expected.Some? && !Blank(expected.value) && !Blank(target) && !Blank(source) && target != source ==>
                (r == Err(Stale) <==> target !in old(db).games || source !in old(db).games
                                      || old(db).games[target].platform != old(db).games[source].platform
                                      || PlanOf(target, source, q).fingerprint != expected.value)
    {
      if expected.Some? && Blank(expected.value) { return Err(Invalid); }
      if Blank(target) || Blank(source) || target == source { return Err(Invalid); }
      if expected.Some? {
        var plan := BuildGameMergePlan(db, target, source, q);
        if plan.Err? { return Err(Stale); }
        if plan.value.fingerprint != expected.value { return Err(Stale); }
      }
      var merged := MergeGamesTx(db, target, source);
      if merged.Err? { return Err(merged.error); }
      if !commits { return Err(Refused); }
      MergeKeeps(db, target, source);
      db := merged.value;
      return Ok(());
    }
  }
}
