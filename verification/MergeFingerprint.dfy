/** The merge fingerprint commits to every row the merge can touch: two snapshots
    with one fingerprint are the same snapshot, so what was previewed is what is
    merged. */
module MergeFingerprint {
  import opened Catalog
  import opened Encodings
  import opened MergePreview

  /** The number of other columns in a record, fixed by the schema: for an edition its type,
      version, languages, author, save namespace, serial, product code and title id, ... */
  const EDITION_COLUMNS := 8
  /** ... for an artifact role, disc, size, missing, storage kind and original name, ... */
  const ARTIFACT_COLUMNS := 6
  /** ... for media kind, storage kind, two paths, original name, MIME type, size, digest,
      locale, source type, position, content status and when it was checked. */
  const MEDIA_COLUMNS := 13

  predicate ShapedEdition(r: (string, Edition)) {
    |r.1.columns| == EDITION_COLUMNS
  }

  predicate ShapedArtifact(r: (string, (string, Artifact))) {
    |r.1.1.columns| == ARTIFACT_COLUMNS
  }

  /** No id reads like the marker for SQL's NULL. */
  predicate ShapedMedia(r: (string, (string, Media))) {
    |r.1.1.columns| == MEDIA_COLUMNS && r.1.1.owner != GameOwner("<null>") && r.1.1.owner != EditionOwner("<null>")
  }

  ghost predicate Shaped(q: Snapshot) {
    && (forall i | 0 <= i < |q.editions| :: ShapedEdition(q.editions[i]))
    && (forall i | 0 <= i < |q.artifacts| :: ShapedArtifact(q.artifacts[i]))
    && (forall i | 0 <= i < |q.media| :: ShapedMedia(q.media[i]))
  }

  /*************** one record ***************/

  lemma StrIsInjective(a: string, b: string)
    ensures Str(a) == Str(b) ==> a == b
  {
    assert Str(a)[7..] == a && Str(b)[7..] == b;
  }

  /** A leading minus sign tells negative numbers apart, and the digits give the value. */
  lemma IntegerReads(n: int)
    ensures Integer(n) != "" && (Integer(n)[0] == '-' <==> n < 0)
    ensures n >= 0 ==> (forall i | 0 <= i < |Integer(n)| :: IsDigit(Integer(n)[i])) && Number(Integer(n)) == n
    ensures n < 0 ==> Integer(n)[1..] == Decimal(-n)
  {
    if n >= 0 { DecimalReads(n); }
  }

  lemma DecimalIsInjective(m: nat, n: nat)
    requires Decimal(m) == Decimal(n)
    ensures m == n
  {
    DecimalReads(m);
    DecimalReads(n);
  }

  lemma NumIsInjective(m: int, n: int)
    requires Num(m) == Num(n)
    ensures m == n
  {
    assert Integer(m) == Integer(n) by {
      assert Num(m)[4..] == Integer(m) && Num(n)[4..] == Integer(n);
    }
    IntegerReads(m);
    IntegerReads(n);
    if m < 0 {
      DecimalIsInjective(-m, -n);
    } else {
      DecimalIsInjective(m, n);
    }
  }

  lemma TitleIsInjective(a: (TitleKey, Title), b: (TitleKey, Title))
    requires TitleRecord(a) == TitleRecord(b)
    ensures a == b
  {
    var (x, y) := (TitleRecord(a), TitleRecord(b));
    assert x[1] == OwnerFields(a.0.owner)[0] && x[2] == OwnerFields(a.0.owner)[1];
    assert y[1] == OwnerFields(b.0.owner)[0] && y[2] == OwnerFields(b.0.owner)[1];
    StrIsInjective("game", "edition");
    assert a.0.owner == b.0.owner by {
      match (a.0.owner, b.0.owner)
      case (GameOwner(g), GameOwner(h)) => StrIsInjective(g, h);
      case (EditionOwner(g), EditionOwner(h)) => StrIsInjective(g, h);
      case (_, _) =>
    }
    assert x[3] == Str(a.0.locale) && x[4] == Str(a.1.text) && x[5] == Str(a.1.sortTitle);
    assert y[3] == Str(b.0.locale) && y[4] == Str(b.1.text) && y[5] == Str(b.1.sortTitle);
    StrIsInjective(a.0.locale, b.0.locale);
    StrIsInjective(a.1.text, b.1.text);
    StrIsInjective(a.1.sortTitle, b.1.sortTitle);
  }

  lemma EditionIsInjective(a: (string, Edition), b: (string, Edition))
    requires EditionRecord(a) == EditionRecord(b)
    ensures a == b
  {
    var (x, y) := (EditionRecord(a), EditionRecord(b));
    assert x[1] == Str(a.0) && x[2] == Str(a.1.game) && x[3] == Str(a.1.title) && x[4] == Num(a.1.sortOrder)
      && x[5..] == a.1.columns;
    assert y[1] == Str(b.0) && y[2] == Str(b.1.game) && y[3] == Str(b.1.title) && y[4] == Num(b.1.sortOrder)
      && y[5..] == b.1.columns;
    StrIsInjective(a.0, b.0);
    StrIsInjective(a.1.game, b.1.game);
    StrIsInjective(a.1.title, b.1.title);
    NumIsInjective(a.1.sortOrder, b.1.sortOrder);
  }

  lemma ArtifactIsInjective(a: (string, (string, Artifact)), b: (string, (string, Artifact)))
    requires ArtifactRecord(a) == ArtifactRecord(b)
    ensures a == b
  {
    var (x, y) := (ArtifactRecord(a), ArtifactRecord(b));
    var (u, v) := (a.1.1, b.1.1);
    assert x[1] == Str(a.1.0) && x[2] == Str(a.0) && x[3] == Str(u.edition) && x[4] == Str(u.path)
      && x[5] == Str(u.sourcePath)
           && x[6] == Str(u.sha256) && x[7..] == u.columns;
    assert y[1] == Str(b.1.0) && y[2] == Str(b.0) && y[3] == Str(v.edition) && y[4] == Str(v.path)
      && y[5] == Str(v.sourcePath)
           && y[6] == Str(v.sha256) && y[7..] == v.columns;
    StrIsInjective(a.1.0, b.1.0);
    StrIsInjective(a.0, b.0);
    StrIsInjective(u.edition, v.edition);
    StrIsInjective(u.path, v.path);
    StrIsInjective(u.sourcePath, v.sourcePath);
    StrIsInjective(u.sha256, v.sha256);
  }

  lemma OwnerIsInjective(a: Owner, b: Owner)
    requires a != GameOwner("<null>") && a != EditionOwner("<null>") && b != GameOwner("<null>")
    requires b != EditionOwner("<null>")
    requires Str(if a.GameOwner? then a.game else "<null>") == Str(if b.GameOwner? then b.game else "<null>")
    requires Str(if a.EditionOwner? then a.edition else "<null>") ==
             Str(if b.EditionOwner? then b.edition else "<null>")
    ensures a == b
  {
    StrIsInjective(if a.GameOwner? then a.game else "<null>", if b.GameOwner? then b.game else "<null>");
    StrIsInjective(if a.EditionOwner? then a.edition else "<null>", if b.EditionOwner? then b.edition else "<null>");
  }

  lemma MediaIsInjective(a: (string, (string, Media)), b: (string, (string, Media)))
    requires ShapedMedia(a) && ShapedMedia(b) && MediaRecord(a) == MediaRecord(b)
    ensures a == b
  {
    var (x, y) := (MediaRecord(a), MediaRecord(b));
    assert x[1] == Str(a.1.0) && x[2] == Str(a.0) && x[5..] == a.1.1.columns;
    assert y[1] == Str(b.1.0) && y[2] == Str(b.0) && y[5..] == b.1.1.columns;
    assert x[3] == y[3] && x[4] == y[4];
    StrIsInjective(a.1.0, b.1.0);
    StrIsInjective(a.0, b.0);
    OwnerIsInjective(a.1.1.owner, b.1.1.owner);
  }

  lemma MemberIsInjective(a: (MemberKey, Member), b: (MemberKey, Member))
    requires MemberRecord(a) == MemberRecord(b)
    ensures a == b
  {
    var (x, y) := (MemberRecord(a), MemberRecord(b));
    assert x[1] == y[1] && x[2] == y[2] && x[3] == y[3] && x[4] == y[4];
    StrIsInjective(a.0.series, b.0.series);
    StrIsInjective(a.0.game, b.0.game);
    StrIsInjective(a.1.relation, b.1.relation);
    NumIsInjective(a.1.sortOrder, b.1.sortOrder);
  }

  lemma GameIsInjective(id: string, g: Game, h: Game)
    requires GameRecord(id, g) == GameRecord(id, h)
    ensures g == h
  {
    var (x, y) := (GameRecord(id, g), GameRecord(id, h));
    assert x[2] == y[2] && x[3] == y[3] && x[4] == y[4];
    StrIsInjective(g.title, h.title);
    StrIsInjective(g.platform, h.platform);
    StrIsInjective(g.primary, h.primary);
  }

  /*************** one section ***************/

  /** Every record of the section has this kind and length. */
  ghost predicate Section<R>(rows: seq<R>, record: R -> seq<string>, kind: string, n: nat) {
    forall i | 0 <= i < |rows| :: |record(rows[i])| == n && n > 0 && record(rows[i])[0] == kind
  }

  ghost predicate RecordsDiffer<R>(a: seq<R>, b: seq<R>, record: R -> seq<string>) {
    forall i, j | 0 <= i < |a| && 0 <= j < |b| && record(a[i]) == record(b[j]) :: a[i] == b[j]
  }

  /** What follows a section starts with another kind. */
  predicate OtherKind(x: seq<string>, kind: string) {
    x != [] ==> x[0] != kind
  }

  lemma WrittenHead<R>(rows: seq<R>, record: R -> seq<string>, kind: string, n: nat, x: seq<string>)
    requires Section(rows, record, kind, n) && rows != []
    ensures Written(rows, record) + x == record(rows[0]) + (Written(rows[1..], record) + x)
    ensures (Written(rows, record) + x)[..n] == record(rows[0])
            && (Written(rows, record) + x)[n..] == Written(rows[1..], record) + x
    ensures (Written(rows, record) + x)[0] == kind
  {
  }

  lemma {:induction false} SectionIsInjective<R>(a: seq<R>, b: seq<R>, x: seq<string>, y: seq<string>,
                                                 record: R -> seq<string>, kind: string, n: nat)
    requires Section(a, record, kind, n) && Section(b, record, kind, n) && RecordsDiffer(a, b, record)
    requires OtherKind(x, kind) && OtherKind(y, kind)
    requires Written(a, record) + x == Written(b, record) + y
    ensures a == b && x == y
    decreases |a|
  {
    if a != [] { WrittenHead(a, record, kind, n, x); } else { assert Written(a, record) + x == x; }
    if b != [] { WrittenHead(b, record, kind, n, y); } else { assert Written(b, record) + y == y; }
    if a != [] && b != [] {
      assert record(a[0]) == record(b[0]);
      SectionIsInjective(a[1..], b[1..], x, y, record, kind, n);
      assert a == [a[0]] + a[1..] && b == [b[0]] + b[1..];
    }
  }

  lemma NextKind<R>(rows: seq<R>, record: R -> seq<string>, kind: string, n: nat, x: seq<string>, other: string)
    requires Section(rows, record, kind, n) && kind != other && OtherKind(x, other)
    ensures OtherKind(Written(rows, record) + x, other)
  {
    if rows == [] {
      assert Written(rows, record) + x == x;
    } else {
      WrittenHead(rows, record, kind, n, x);
    }
  }

  /*************** the whole digest ***************/

  function FromMembers(q: Snapshot): seq<string> { Written(q.members, MemberRecord) + [] }

  function FromMedia(q: Snapshot): seq<string> { Written(q.media, MediaRecord) + FromMembers(q) }

  function FromArtifacts(q: Snapshot): seq<string> { Written(q.artifacts, ArtifactRecord) + FromMedia(q) }

  function FromEditions(q: Snapshot): seq<string> { Written(q.editions, EditionRecord) + FromArtifacts(q) }

  function FromTitles(q: Snapshot): seq<string> { Written(q.titles, TitleRecord) + FromEditions(q) }

  lemma Associate(h: seq<string>, a: seq<string>, b: seq<string>, c: seq<string>, d: seq<string>, e: seq<string>)
    ensures h + a + b + c + d + e == h + (a + (b + (c + (d + (e + [])))))
  {
    assert e + [] == e;
    assert c + d + e == c + (d + e);
    assert a + b + (c + (d + e)) == a + (b + (c + (d + e)));
    assert h + a + b + c + d + e == h + (a + b + (c + (d + e)));
  }

  lemma DigestIs(target: string, source: string, q: Snapshot)
    ensures Digest(target, source, q) == Header(target, source, q) + FromTitles(q)
  {
    Associate(Header(target, source, q), Written(q.titles, TitleRecord), Written(q.editions, EditionRecord),
              Written(q.artifacts, ArtifactRecord), Written(q.media, MediaRecord), Written(q.members, MemberRecord));
  }

  lemma HeaderIsInjective(target: string, source: string, q: Snapshot, r: Snapshot, x: seq<string>, y: seq<string>)
    requires Header(target, source, q) + x == Header(target, source, r) + y
    ensures q.target == r.target && q.source == r.source && x == y
  {
    var (a, b) := (Header(target, source, q), Header(target, source, r));
    assert |a| == 13 && |b| == 13;
    assert (a + x)[..13] == a && (b + y)[..13] == b && (a + x)[13..] == x && (b + y)[13..] == y;
    assert a[3..8] == GameRecord(target, q.target) && b[3..8] == GameRecord(target, r.target);
    assert a[8..] == GameRecord(source, q.source) && b[8..] == GameRecord(source, r.source);
    GameIsInjective(target, q.target, r.target);
    GameIsInjective(source, q.source, r.source);
  }

  lemma TitlesEqual(q: Snapshot, r: Snapshot)
    requires Shaped(q) && Shaped(r) && FromTitles(q) == FromTitles(r)
    ensures q.titles == r.titles && FromEditions(q) == FromEditions(r)
  {
    AfterTitles(q);
    AfterTitles(r);
    forall i, j | 0 <= i < |q.titles| && 0 <= j < |r.titles| && TitleRecord(q.titles[i]) == TitleRecord(r.titles[j])
      ensures q.titles[i] == r.titles[j]
    {
      TitleIsInjective(q.titles[i], r.titles[j]);
    }
    SectionIsInjective(q.titles, r.titles, FromEditions(q), FromEditions(r), TitleRecord, "localized_title", 6);
  }

  lemma AfterTitles(q: Snapshot)
    requires Shaped(q)
    ensures Section(q.titles, TitleRecord, "localized_title", 6) && OtherKind(FromEditions(q), "localized_title")
  {
    NoTitleFromArtifacts(q);
    NextKind(q.editions, EditionRecord, "edition", 5 + EDITION_COLUMNS, FromArtifacts(q), "localized_title");
  }

  lemma NoTitleFromArtifacts(q: Snapshot)
    requires Shaped(q)
    ensures OtherKind(FromArtifacts(q), "localized_title")
  {
    NextKind(q.members, MemberRecord, "series_member", 5, [], "localized_title");
    NextKind(q.media, MediaRecord, "media", 5 + MEDIA_COLUMNS, FromMembers(q), "localized_title");
    NextKind(q.artifacts, ArtifactRecord, "artifact", 7 + ARTIFACT_COLUMNS, FromMedia(q), "localized_title");
  }

  lemma EditionsEqual(q: Snapshot, r: Snapshot)
    requires Shaped(q) && Shaped(r) && FromEditions(q) == FromEditions(r)
    ensures q.editions == r.editions && FromArtifacts(q) == FromArtifacts(r)
  {
    AfterEditions(q);
    AfterEditions(r);
    forall i, j | 0 <= i < |q.editions| && 0 <= j < |r.editions|
      && EditionRecord(q.editions[i]) == EditionRecord(r.editions[j])
      ensures q.editions[i] == r.editions[j]
    {
      EditionIsInjective(q.editions[i], r.editions[j]);
    }
    SectionIsInjective(q.editions, r.editions, FromArtifacts(q), FromArtifacts(r), EditionRecord, "edition",
                       5 + EDITION_COLUMNS);
  }

  lemma AfterEditions(q: Snapshot)
    requires Shaped(q)
    ensures Section(q.editions, EditionRecord, "edition", 5 + EDITION_COLUMNS) && OtherKind(FromArtifacts(q), "edition")
  {
    NextKind(q.members, MemberRecord, "series_member", 5, [], "edition");
    NextKind(q.media, MediaRecord, "media", 5 + MEDIA_COLUMNS, FromMembers(q), "edition");
    NextKind(q.artifacts, ArtifactRecord, "artifact", 7 + ARTIFACT_COLUMNS, FromMedia(q), "edition");
  }

  lemma ArtifactsEqual(q: Snapshot, r: Snapshot)
    requires Shaped(q) && Shaped(r) && FromArtifacts(q) == FromArtifacts(r)
    ensures q.artifacts == r.artifacts && FromMedia(q) == FromMedia(r)
  {
    AfterArtifacts(q);
    AfterArtifacts(r);
    forall i, j | 0 <= i < |q.artifacts| && 0 <= j < |r.artifacts|
      && ArtifactRecord(q.artifacts[i]) == ArtifactRecord(r.artifacts[j])
      ensures q.artifacts[i] == r.artifacts[j]
    {
      ArtifactIsInjective(q.artifacts[i], r.artifacts[j]);
    }
    SectionIsInjective(q.artifacts, r.artifacts, FromMedia(q), FromMedia(r), ArtifactRecord, "artifact",
                       7 + ARTIFACT_COLUMNS);
  }

  lemma AfterArtifacts(q: Snapshot)
    requires Shaped(q)
    ensures Section(q.artifacts, ArtifactRecord, "artifact", 7 + ARTIFACT_COLUMNS)
            && OtherKind(FromMedia(q), "artifact")
  {
    NextKind(q.members, MemberRecord, "series_member", 5, [], "artifact");
    NextKind(q.media, MediaRecord, "media", 5 + MEDIA_COLUMNS, FromMembers(q), "artifact");
  }

  lemma MediaEqual(q: Snapshot, r: Snapshot)
    requires Shaped(q) && Shaped(r) && FromMedia(q) == FromMedia(r)
    ensures q.media == r.media && FromMembers(q) == FromMembers(r)
  {
    NextKind(q.members, MemberRecord, "series_member", 5, [], "media");
    NextKind(r.members, MemberRecord, "series_member", 5, [], "media");
    forall i, j | 0 <= i < |q.media| && 0 <= j < |r.media| && MediaRecord(q.media[i]) == MediaRecord(r.media[j])
      ensures q.media[i] == r.media[j]
    {
      MediaIsInjective(q.media[i], r.media[j]);
    }
    SectionIsInjective(q.media, r.media, FromMembers(q), FromMembers(r), MediaRecord, "media", 5 + MEDIA_COLUMNS);
  }

  lemma MembersEqual(q: Snapshot, r: Snapshot)
    requires FromMembers(q) == FromMembers(r)
    ensures q.members == r.members
  {
    forall i, j | 0 <= i < |q.members| && 0 <= j < |r.members|
      && MemberRecord(q.members[i]) == MemberRecord(r.members[j])
      ensures q.members[i] == r.members[j]
    {
      MemberIsInjective(q.members[i], r.members[j]);
    }
    SectionIsInjective(q.members, r.members, [], [], MemberRecord, "series_member", 5);
  }

  /** One fingerprint, one snapshot: the reviewed counters are those of the state the
      merge runs on. */
  lemma FingerprintDecides(target: string, source: string, q: Snapshot, r: Snapshot)
    requires Shaped(q) && Shaped(r)
    ensures PlanOf(target, source, q).fingerprint == PlanOf(target, source, r).fingerprint <==> q == r
  {
    if PlanOf(target, source, q).fingerprint == PlanOf(target, source, r).fingerprint {
      StreamIsInjective(Digest(target, source, q), Digest(target, source, r));
      DigestIs(target, source, q);
      DigestIs(target, source, r);
      HeaderIsInjective(target, source, q, r, FromTitles(q), FromTitles(r));
      TitlesEqual(q, r);
      EditionsEqual(q, r);
      ArtifactsEqual(q, r);
      MediaEqual(q, r);
      MembersEqual(q, r);
    }
  }
}
