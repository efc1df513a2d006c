/** Matching a device's inventory items to catalog editions
    (internal/catalog/sync_session_store.go). Hashes stand for what they are computed
    from. */
module InventoryMatching {
  import opened Sorting
  import opened Text
  import opened Wrappers

  /*************** items ***************/

  datatype Item = Item(clientItemId: string, platform: string, sha256: string, serial: string, productCode: string,
                       titleId: string, size: int)

  /** Identifier tiers, strongest first. */
  datatype Tier = Sha256 | Serial | ProductCode | TitleId

  const TIERS: seq<Tier> := [Sha256, Serial, ProductCode, TitleId]

  function Rank(t: Tier): nat {
    match t case Sha256 => 0 case Serial => 1 case ProductCode => 2 case TitleId => 3
  }

  function Value(item: Item, t: Tier): string {
    match t
    case Sha256 => item.sha256
    case Serial => item.serial
    case ProductCode => item.productCode
    case TitleId => item.titleId
  }

  predicate IsHexDigest(s: string) {
    |s| == 64 && forall i | 0 <= i < |s| :: '0' <= s[i] <= '9' || 'a' <= s[i] <= 'f'
  }

  /** normalizeInventoryItem. */
  function Normalize(item: Item): Option<Item> {
    var n := Item(TrimSpace(item.clientItemId), Lower(TrimSpace(item.platform)), Lower(TrimSpace(item.sha256)),
                  TrimSpace(item.serial),
                  TrimSpace(item.productCode), TrimSpace(item.titleId), item.size);
    if n.clientItemId == "" || Utf8Length(n.clientItemId) > 256 || n.platform == "" || n.size < 0
      || (n.sha256 != "" && !IsHexDigest(n.sha256)) then None
    else Some(n)
  }

  lemma {:induction false} ShortUtf8(s: string)
    ensures Utf8Length(s) <= 4 * |s|
  {
    if s != "" { ShortUtf8(s[1..]); }
  }

  const HEX_DIGITS := "0123456789abcdef"

  /** What an item must have: a client id of at most 256 bytes, a platform, a size that is not
      negative, and a digest of 64 hexadecimal characters if any. */
  lemma NormalizeTakes(item: Item)
    ensures Normalize(item).Some? <==>
              && !Blank(item.clientItemId) && Utf8Length(TrimSpace(item.clientItemId)) <= 256
              && !Blank(item.platform) && item.size >= 0
              && (Blank(item.sha256) || (|TrimSpace(item.sha256)| == 64
                    && forall c | c in Lower(TrimSpace(item.sha256)) :: c in HEX_DIGITS))
  {
    var s := Lower(TrimSpace(item.sha256));
    assert |s| == |TrimSpace(item.sha256)| && |Lower(TrimSpace(item.platform))| == |TrimSpace(item.platform)|;
    forall c: char ensures c in HEX_DIGITS <==> '0' <= c <= '9' || 'a' <= c <= 'f' { HexDigit(c); }
    assert (forall c | c in s :: c in HEX_DIGITS) <==> forall i | 0 <= i < |s| :: s[i] in HEX_DIGITS;
  }

  lemma HexDigit(c: char)
    ensures c in HEX_DIGITS <==> '0' <= c <= '9' || 'a' <= c <= 'f'
  {
    assert HEX_DIGITS[0] == '0' && HEX_DIGITS[1] == '1' && HEX_DIGITS[2] == '2' && HEX_DIGITS[3] == '3';
    assert HEX_DIGITS[4] == '4' && HEX_DIGITS[5] == '5' && HEX_DIGITS[6] == '6' && HEX_DIGITS[7] == '7';
    assert HEX_DIGITS[8] == '8' && HEX_DIGITS[9] == '9' && HEX_DIGITS[10] == 'a' && HEX_DIGITS[11] == 'b';
    assert HEX_DIGITS[12] == 'c' && HEX_DIGITS[13] == 'd' && HEX_DIGITS[14] == 'e' && HEX_DIGITS[15] == 'f';
  }

  /** Two items are the same to the hub exactly when they agree but for outer white space,
      and for the case of platform and digest. */
  lemma NormalizeTells(a: Item, b: Item)
    requires Normalize(a).Some? && Normalize(b).Some?
    ensures Normalize(a) == Normalize(b) <==>
              && TrimSpace(a.clientItemId) == TrimSpace(b.clientItemId)
              && Lower(TrimSpace(a.platform)) == Lower(TrimSpace(b.platform))
              && Lower(TrimSpace(a.sha256)) == Lower(TrimSpace(b.sha256))
              && TrimSpace(a.serial) == TrimSpace(b.serial)
              && TrimSpace(a.productCode) == TrimSpace(b.productCode)
              && TrimSpace(a.titleId) == TrimSpace(b.titleId) && a.size == b.size
  {
  }

  /** A normalized item is normalized again when its row is read back; nothing changes. */
  lemma NormalizeStays(item: Item)
    requires Normalize(item).Some?
    ensures Normalize(Normalize(item).value) == Normalize(item)
  {
    TrimSpaceTrims(item.clientItemId);
    TrimSpaceTrims(item.platform);
    TrimSpaceTrims(item.sha256);
    TrimSpaceTrims(item.serial);
    TrimSpaceTrims(item.productCode);
    TrimSpaceTrims(item.titleId);
    LowerStays(TrimSpace(item.platform));
    LowerStays(TrimSpace(item.sha256));
  }

  /** What inventoryIdentityHashNormalized is a hash of. */
  datatype Identity = Identity(platform: string, sha256: string, serial: string, productCode: string, titleId: string,
                               size: int)

  function IdentityOf(item: Item): Identity {
    Identity(item.platform, item.sha256, Upper(item.serial), Upper(item.productCode), Upper(item.titleId), item.size)
  }

  /** Equal identities mean the same platform, digest, size and, up to case, identifiers. */
  lemma IdentityTells(a: Item, b: Item)
    ensures IdentityOf(a) == IdentityOf(b) <==>
              && a.platform == b.platform && a.sha256 == b.sha256 && a.size == b.size
              && Upper(a.serial) == Upper(b.serial) && Upper(a.productCode) == Upper(b.productCode)
              && Upper(a.titleId) == Upper(b.titleId)
  {
  }

  /*************** the catalog ***************/

  datatype EditionRow = EditionRow(id: string, platform: string, serial: string, productCode: string, titleId: string)

  datatype ArtifactRow = ArtifactRow(edition: string, sha256: string, missing: bool)

  datatype Catalog = Catalog(editions: seq<EditionRow>, artifacts: seq<ArtifactRow>)

  predicate HasArtifact(artifacts: seq<ArtifactRow>, edition: string, sha256: string) {
    exists i :: 0 <= i < |artifacts| && artifacts[i].edition == edition && !artifacts[i].missing
      && Lower(artifacts[i].sha256) == Lower(sha256)
  }

  predicate Matches(cat: Catalog, e: EditionRow, t: Tier, platform: string, value: string) {
    e.platform == platform
    && match t
       case Sha256 => HasArtifact(cat.artifacts, e.id, value)
       case Serial => Upper(e.serial) == Upper(value)
       case ProductCode => Upper(e.productCode) == Upper(value)
       case TitleId => Upper(e.titleId) == Upper(value)
  }

  function Found(cat: Catalog, n: nat, t: Tier, platform: string, value: string): seq<string>
    requires n <= |cat.editions|
  {
    if n == 0 then []
    else Found(cat, n - 1, t, platform, value) + if Matches(cat, cat.editions[n - 1], t, platform, value)
      then [cat.editions[n - 1].id] else []
  }

  /** inventoryCandidatesWith, ordered by id. */
  function Candidates(cat: Catalog, t: Tier, item: Item): seq<string> {
    Sort(Le, Found(cat, |cat.editions|, t, item.platform, Value(item, t)))
  }

  lemma {:induction false} FoundAre(cat: Catalog, n: nat, t: Tier, platform: string, value: string, id: string)
    requires n <= |cat.editions|
    ensures id in Found(cat, n, t, platform, value) <==>
              exists i :: 0 <= i < n && cat.editions[i].id == id && Matches(cat, cat.editions[i], t, platform, value)
  {
    if n > 0 { FoundAre(cat, n - 1, t, platform, value, id); }
  }

  /** The edition carries the item's identifier of this kind: up to case, and a digest as that
      of an artifact that is not missing. */
  ghost predicate Carries(cat: Catalog, e: EditionRow, t: Tier, item: Item) {
    match t
    case Sha256 => exists a | a in cat.artifacts ::
      a.edition == e.id && !a.missing && Lower(a.sha256) == Lower(item.sha256)
    case Serial => Upper(e.serial) == Upper(item.serial)
    case ProductCode => Upper(e.productCode) == Upper(item.productCode)
    case TitleId => Upper(e.titleId) == Upper(item.titleId)
  }

  /** The candidates are the editions of the item's platform that carry its identifier. */
  lemma CandidatesAre(cat: Catalog, t: Tier, item: Item, id: string)
    ensures id in Candidates(cat, t, item) <==>
              exists e | e in cat.editions :: e.id == id && e.platform == item.platform && Carries(cat, e, t, item)
  {
    var found := Found(cat, |cat.editions|, t, item.platform, Value(item, t));
    SortPermutes(Le, found);
    assert id in Candidates(cat, t, item) <==> id in multiset(Candidates(cat, t, item));
    assert id in found <==> id in multiset(found);
    FoundAre(cat, |cat.editions|, t, item.platform, Value(item, t), id);
    forall e | e in cat.editions
      ensures Matches(cat, e, t, item.platform, Value(item, t)) <==>
                e.platform == item.platform && Carries(cat, e, t, item) {
      ArtifactFound(cat.artifacts, e.id, item.sha256);
    }
  }

  lemma ArtifactFound(artifacts: seq<ArtifactRow>, edition: string, sha256: string)
    ensures HasArtifact(artifacts, edition, sha256) <==>
              exists a | a in artifacts :: a.edition == edition && !a.missing && Lower(a.sha256) == Lower(sha256)
  {
  }

  /*************** matching ***************/

  datatype Match = Unmatched | Ambiguous(tier: Tier) | Matched(edition: string,
                                         tier: Tier) | Confirmed(edition: string, tier: Tier)

  /** The tier says nothing: the item has no such identifier, or nothing carries it. */
  predicate Silent(cat: Catalog, item: Item, t: Tier) {
    Value(item, t) == "" || Candidates(cat, t, item) == []
  }

  /** The digest decides before the serial number, that before the product code, and that before the title id. */
  predicate Decides(cat: Catalog, item: Item, t: Tier) {
    && !Silent(cat, item, t)
    && (t != Sha256 ==> Silent(cat, item, Sha256))
    && (t == ProductCode || t == TitleId ==> Silent(cat, item, Serial))
    && (t == TitleId ==> Silent(cat, item, ProductCode))
  }

  lemma DecidesInOrder(cat: Catalog, item: Item, t: Tier)
    ensures Decides(cat, item, t) <==>
              !Silent(cat, item, t) && forall s: Tier | Rank(s) < Rank(t) :: Silent(cat, item, s)
  {
    assert Rank(Sha256) < Rank(Serial) < Rank(ProductCode) < Rank(TitleId);
  }

  /** The item has an identifier of this kind. */
  predicate Identified(item: Item, t: Tier) {
    match t
    case Sha256 => item.sha256 != ""
    case Serial => item.serial != ""
    case ProductCode => item.productCode != ""
    case TitleId => item.titleId != ""
  }

  /** The tiers before position `n` say nothing. */
  ghost predicate SilentBefore(cat: Catalog, item: Item, n: int) {
    forall t: Tier | Rank(t) < n :: Silent(cat, item, t)
  }

  lemma NextTier(cat: Catalog, item: Item, t: Tier)
    requires SilentBefore(cat, item, Rank(t))
    ensures if Silent(cat, item, t) then SilentBefore(cat, item, Rank(t) + 1) else Decides(cat, item, t)
  {
    assert forall s: Tier | Rank(s) == Rank(t) :: s == t;
  }

  /** matchInventoryItemCanonical on a normalized item. */
  method MatchCanonical(cat: Catalog, item: Item) returns (r: Match, candidates: seq<string>)
    ensures !r.Confirmed?
    ensures r.Unmatched? <==> forall t: Tier :: Silent(cat, item, t)
    ensures !r.Unmatched? ==> Decides(cat, item, r.tier) && candidates == Candidates(cat, r.tier, item)
    ensures !r.Unmatched? ==> Identified(item, r.tier)
    ensures r.Matched? ==> candidates == [r.edition]
    ensures r.Ambiguous? ==> |candidates| >= 2
  {
    for i := 0 to |TIERS|
      invariant SilentBefore(cat, item, i)
    {
      var t := TIERS[i];
      assert Rank(t) == i;
      NextTier(cat, item, t);
      if Value(item, t) == "" { continue; }
      candidates := Candidates(cat, t, item);
      if |candidates| == 1 { return Matched(candidates[0], t), candidates; }
      if |candidates| > 1 { return Ambiguous(t), candidates; }
    }
    assert forall t: Tier :: Rank(t) < 4;
    return Unmatched, [];
  }

  /*************** confirmations ***************/

  /** `candidates` is the sorted list the candidate hash was computed from. */
  datatype Override = Override(platform: string, identity: Identity, candidates: seq<string>, edition: string,
                               tier: Tier)

  datatype OverrideKey = OverrideKey(device: string, clientItemId: string)

  datatype RowKey = RowKey(session: string, item: string)

  datatype Row = Row(device: string, item: Item, result: Match)

  datatype Confirmation = Confirmation(device: string, clientItemId: string, platform: string, identity: Identity,
                                       candidates: seq<string>,
                                       edition: string, tier: Tier, session: string, item: string)

  datatype Error = Invalid | NotFound | Stale | PlatformMismatch | Refused

  /** The override still speaks about this item and these candidates. */
  predicate Applies(o: Override, item: Item, tier: Tier, candidates: seq<string>) {
    o.platform == item.platform && o.identity == IdentityOf(item) && o.candidates == candidates && o.tier == tier
      && o.edition in candidates
  }

  /** A confirmation for this client item whose platform, identity, tier and candidates are
      still those of the item, and whose edition is still a candidate. */
  ghost predicate StillHolds(cat: Catalog, overrides: map<OverrideKey, Override>, device: string, item: Item, t: Tier) {
    exists o :: OverrideKey(device, item.clientItemId) in overrides
                && o == overrides[OverrideKey(device, item.clientItemId)]
                && o.platform == item.platform && o.identity == IdentityOf(item) && o.tier == t
                && o.candidates == Candidates(cat, t, item) && o.edition in Candidates(cat, t, item)
  }

  function PlatformOf(cat: Catalog, edition: string, n: nat): Option<string>
    requires n <= |cat.editions|
  {
    if n == 0 then None
    else if cat.editions[n - 1].id == edition then Some(cat.editions[n - 1].platform)
    else PlatformOf(cat, edition, n - 1)
  }

  function TrimEach(ids: seq<string>): seq<string> {
    if ids == [] then [] else [TrimSpace(ids[0])] + TrimEach(ids[1..])
  }

  /** The arguments as they are compared and stored. */
  function Cleaned(c: Confirmation): Confirmation {
    Confirmation(TrimSpace(c.device), TrimSpace(c.clientItemId), Lower(TrimSpace(c.platform)), c.identity,
                 TrimEach(c.candidates),
                 TrimSpace(c.edition), c.tier, TrimSpace(c.session), TrimSpace(c.item))
  }

  lemma {:induction false} TrimEachIs(ids: seq<string>)
    ensures TrimEach(ids) == seq(|ids|, i requires 0 <= i < |ids| => TrimSpace(ids[i]))
  {
    if ids != [] { TrimEachIs(ids[1..]); }
  }

  /** Nothing is missing in the arguments. */
  predicate Complete(c: Confirmation) {
    c.device != "" && c.clientItemId != "" && c.platform != "" && c.edition != "" && c.session != "" && c.item != ""
      && |c.candidates| >= 2
  }

  /** The primary key of the editions table. */
  ghost predicate UniqueIds(cat: Catalog) {
    forall i, j | 0 <= i < j < |cat.editions| :: cat.editions[i].id != cat.editions[j].id
  }

  lemma {:induction false} PlatformFound(cat: Catalog, i: nat, n: nat)
    requires UniqueIds(cat) && i < n <= |cat.editions|
    ensures PlatformOf(cat, cat.editions[i].id, n) == Some(cat.editions[i].platform)
  {
    if i < n - 1 { PlatformFound(cat, i, n - 1); }
  }

  /** A candidate always has the item's platform, so that check of a confirmation cannot fail. */
  lemma CandidateHasPlatform(cat: Catalog, t: Tier, item: Item, id: string)
    requires UniqueIds(cat) && id in Candidates(cat, t, item)
    ensures PlatformOf(cat, id, |cat.editions|) == Some(item.platform)
  {
    CandidatesAre(cat, t, item, id);
    var e :| e in cat.editions && e.id == id && e.platform == item.platform;
    var i: nat :| i < |cat.editions| && cat.editions[i] == e;
    PlatformFound(cat, i, |cat.editions|);
  }

  /** The row records a match of its item, made on some catalog and some confirmations. */
  ghost predicate FromMatch(row: Row) {
    Normalize(row.item) == Some(row.item) && exists cat, overrides ::
        MatchIs(cat, overrides, row.device, row.item, row.result)
  }

  lemma MatchGivesRow(cat: Catalog, overrides: map<OverrideKey, Override>, device: string, input: Item, r: Match)
    requires Normalize(input).Some? && MatchIs(cat, overrides, device, Normalize(input).value, r)
    ensures FromMatch(Row(device, Normalize(input).value, r))
  {
    NormalizeStays(input);
  }

  /** What stays true of a stored row: an item is ambiguous only in a tier it has an identifier for. */
  predicate Recorded(row: Row) {
    Normalize(row.item) == Some(row.item) && (row.result.Ambiguous? ==> Value(row.item, row.result.tier) != "")
  }

  ghost predicate AllRecorded(rows: map<RowKey, Row>) {
    forall k | k in rows :: Recorded(rows[k])
  }

  lemma ConfirmedRowRecorded(rows: map<RowKey, Row>, k: RowKey, edition: string, t: Tier)
    requires AllRecorded(rows) && k in rows
    ensures AllRecorded(rows[k := rows[k].(result := Confirmed(edition, t))])
  {
  }

  lemma MatchedRowRecorded(row: Row)
    requires FromMatch(row)
    ensures Recorded(row)
  {
  }

  class Store {
    var catalog: Catalog
    var rows: map<RowKey, Row>
    var overrides: map<OverrideKey, Override>

    /** Editions have one row each, and every inventory row was stored by a match. */
    ghost predicate Valid()
      reads this
    {
      UniqueIds(catalog) && AllRecorded(rows)
    }

    constructor (initial: Catalog)
      requires UniqueIds(initial)
      ensures Valid() && catalog == initial && rows == map[] && overrides == map[]
    {
      catalog, rows, overrides := initial, map[], map[];
    }

    /** MatchInventoryItemForDevice: a unique candidate of the first tier that has any,
        or a confirmed edition whose candidates, identity, platform and tier still hold. */
    method MatchForDevice(device: string, input: Item) returns (r: Option<Match>)
      ensures r.None? <==> Normalize(input).None?
      ensures r.Some? ==> MatchIs(catalog, overrides, TrimSpace(device), Normalize(input).value, r.value)
      ensures r.Some? && !r.value.Unmatched? ==> Identified(Normalize(input).value, r.value.tier)
      ensures r.Some? && (r.value.Ambiguous? || r.value.Confirmed?) ==>
                (r.value.Confirmed? <==>
                   StillHolds(catalog, overrides, TrimSpace(device), Normalize(input).value, r.value.tier))
    {
      var item := Normalize(input);
      if item.None? { return None; }
      var canonical, candidates := MatchCanonical(catalog, item.value);
      if !canonical.Ambiguous? { return Some(canonical); }
      var key := OverrideKey(TrimSpace(device), item.value.clientItemId);
      if key !in overrides { return Some(canonical); }
      var o := overrides[key];
      if o.platform != item.value.platform || o.identity != IdentityOf(item.value) || o.candidates != candidates
        || o.tier != canonical.tier || o.edition !in candidates {
        return Some(canonical);
      }
      return Some(Confirmed(o.edition, canonical.tier));
    }

    /** ConfirmInventoryMatchOverride. */
    method Confirm(input: Confirmation, commits: bool) returns (r: Result<(), Error>)
      requires Valid()
      modifies this
      ensures Valid() && catalog == old(catalog)
      ensures ConfirmIs(catalog, old(rows), Cleaned(input), commits, r)
      ensures r.Err? ==> rows == old(rows) && overrides == old(overrides)
      ensures r.Ok? ==> ConfirmedIn(catalog, old(rows), old(overrides), Cleaned(input), rows, overrides)
      ensures r.Ok? ==> Remembers(catalog, old(rows), old(overrides), input, rows, overrides)
    {
      ghost var before, confirmed := rows, overrides;
      r := ConfirmCleaned(Cleaned(input), commits);
      if r.Ok? { ConfirmedIsRemembered(catalog, before, confirmed, input, rows, overrides); }
    }

    method ConfirmCleaned(c: Confirmation, commits: bool) returns (r: Result<(), Error>)
      requires Valid()
      modifies this
      ensures Valid() && catalog == old(catalog)
      ensures ConfirmIs(catalog, old(rows), c, commits, r)
      ensures r.Err? ==> rows == old(rows) && overrides == old(overrides)
      ensures r.Ok? ==> ConfirmedIn(catalog, old(rows), old(overrides), c, rows, overrides)
    {
      var checked := CheckConfirmation(c);
      if checked.Err? { return Err(checked.error); }
      if !commits { return Err(Refused); }
      var key := RowKey(c.session, c.item);
      ConfirmedRowRecorded(rows, key, c.edition, c.tier);
      overrides :=
        overrides[OverrideKey(c.device, c.clientItemId) := Override(c.platform, c.identity, checked.value, c.edition,
                                                                    c.tier)];
      rows := rows[key := rows[key].(result := Confirmed(c.edition, c.tier))];
      return Ok(());
    }

    /** The checks of a confirmation, up to the first write; gives the current candidates. */
    method CheckConfirmation(c: Confirmation) returns (r: Result<seq<string>, Error>)
      requires Valid()
      ensures r == Err(Invalid) <==> !Complete(c)
      ensures r == Err(NotFound) <==> Complete(c) && RowKey(c.session, c.item) !in rows
      ensures r == Err(Stale) <==>
                Complete(c) && RowKey(c.session, c.item) in rows
                  && !Confirmable(catalog, rows[RowKey(c.session, c.item)], c)
      ensures r.Err? ==> r.error in {Invalid, NotFound, Stale}
      ensures r.Ok? ==>
                Complete(c) && RowKey(c.session, c.item) in rows
                  && Confirmable(catalog, rows[RowKey(c.session, c.item)], c)
                        && Override(c.platform, c.identity, r.value, c.edition, c.tier) ==
                           OverrideFor(catalog, rows[RowKey(c.session, c.item)], c)
    {
      if c.device == "" || c.clientItemId == "" || c.platform == "" || c.edition == "" || c.session == ""
        || c.item == "" || |c.candidates| < 2 {
        return Err(Invalid);
      }
      var key := RowKey(c.session, c.item);
      if key !in rows { return Err(NotFound); }
      var row := rows[key];
      assert Recorded(row);
      var item := Normalize(row.item);
      if item.None? { return Err(Invalid); }
      if row.result != Ambiguous(c.tier) || row.device != c.device || item.value.clientItemId != c.clientItemId
        || item.value.platform != c.platform
         || IdentityOf(item.value) != c.identity {
        return Err(Stale);
      }
      var candidates := Candidates(catalog, c.tier, item.value);
      if |candidates| < 2 || c.edition !in candidates { return Err(Stale); }
      if candidates != Sort(Le, c.candidates) { return Err(Stale); }
      CandidateHasPlatform(catalog, c.tier, item.value, c.edition);
      var platform := PlatformOf(catalog, c.edition, |catalog.editions|);
      if platform != Some(c.platform) { return Err(PlatformMismatch); }
      return Ok(candidates);
    }

    /** A session stores an item it matched, perhaps on an earlier catalog. */
    method StoreItem(key: RowKey, row: Row)
      requires Valid() && key !in rows && FromMatch(row)
      modifies this
      ensures Valid() && rows == old(rows)[key := row] && overrides == old(overrides) && catalog == old(catalog)
    {
      MatchedRowRecorded(row);
      rows := rows[key := row];
    }

    /** Any change to the catalog. */
    method ChangeCatalog(next: Catalog)
      requires Valid() && UniqueIds(next)
      modifies this
      ensures Valid() && catalog == next && rows == old(rows) && overrides == old(overrides)
    {
      catalog := next;
    }
  }

  /** What a match of a normalized item is allowed to be; it determines the result. */
  ghost predicate MatchIs(cat: Catalog, overrides: map<OverrideKey, Override>, device: string, item: Item, r: Match) {
    var key := OverrideKey(device, item.clientItemId);
    match r
    case Unmatched => forall t: Tier :: Silent(cat, item, t)
    case Matched(e, t) => Decides(cat, item, t) && Candidates(cat, t, item) == [e]
    case Ambiguous(t) => Decides(cat, item, t) && |Candidates(cat, t, item)| >= 2
                         && (key in overrides ==> !Applies(overrides[key], item, t, Candidates(cat, t, item)))
    case Confirmed(e, t) => Decides(cat, item, t) && |Candidates(cat, t, item)| >= 2 && key in overrides
                            && Applies(overrides[key], item, t, Candidates(cat, t, item)) && e == overrides[key].edition
  }

  /** The checks of a confirmation against the stored row and the current catalog. */
  predicate Confirmable(cat: Catalog, row: Row, c: Confirmation) {
    var item := Normalize(row.item);
    && item.Some? && row.result == Ambiguous(c.tier) && row.device == c.device
    && item.value.clientItemId == c.clientItemId && item.value.platform == c.platform
       && IdentityOf(item.value) == c.identity
    && |Candidates(cat, c.tier, item.value)| >= 2 && c.edition in Candidates(cat, c.tier, item.value)
    && Candidates(cat, c.tier, item.value) == Sort(Le, c.candidates)
  }

  /** The answer to complete arguments: success exactly for a stored row and candidates that still agree. */
  ghost predicate ConfirmIs(cat: Catalog, rows: map<RowKey, Row>, c: Confirmation, commits: bool,
                            r: Result<(), Error>)
  {
    var key := RowKey(c.session, c.item);
    && (r.Ok? <==> commits && Complete(c) && key in rows && Confirmable(cat, rows[key], c))
    && (r == Err(Invalid) <==> !Complete(c))
    && (r == Err(NotFound) <==> Complete(c) && key !in rows)
    && (r == Err(Stale) <==> Complete(c) && key in rows && !Confirmable(cat, rows[key], c))
  }

  /** What a successful confirmation stores: the override, and the row's new result. */
  ghost predicate ConfirmedIn(cat: Catalog, rows: map<RowKey, Row>, overrides: map<OverrideKey, Override>,
                              c: Confirmation,
                              rows': map<RowKey, Row>, overrides': map<OverrideKey, Override>)
  {
    var key := RowKey(c.session, c.item);
    && key in rows && Confirmable(cat, rows[key], c)
    && overrides' == overrides[OverrideKey(c.device, c.clientItemId) := OverrideFor(cat, rows[key], c)]
    && rows' == rows[key := rows[key].(result := Confirmed(c.edition, c.tier))]
  }

  /** The arguments, without the white space around them, are complete, name an ambiguous row of
      this device by its own client item, platform and identity, and list its current candidates. */
  ghost predicate Agrees(cat: Catalog, row: Row, input: Confirmation) {
    && row.result == Ambiguous(input.tier) && row.device == TrimSpace(input.device) != ""
    && row.item.clientItemId == TrimSpace(input.clientItemId) != ""
    && row.item.platform == Lower(TrimSpace(input.platform)) != "" && IdentityOf(row.item) == input.identity
    && |Candidates(cat, input.tier, row.item)| >= 2 && TrimSpace(input.edition) != ""
    && TrimSpace(input.edition) in Candidates(cat, input.tier, row.item)
    && SameListed(Candidates(cat, input.tier, row.item), input.candidates)
  }

  ghost predicate SameListed(candidates: seq<string>, listed: seq<string>) {
    multiset(candidates) == multiset(seq(|listed|, i requires 0 <= i < |listed| => TrimSpace(listed[i])))
  }

  /** What a confirmation stores: the row's new result, and the override for later matches. */
  ghost predicate Remembers(cat: Catalog, rows: map<RowKey, Row>, overrides: map<OverrideKey, Override>,
                            input: Confirmation, rows': map<RowKey, Row>, overrides': map<OverrideKey, Override>)
  {
    var (key, edition) := (RowKey(TrimSpace(input.session), TrimSpace(input.item)), TrimSpace(input.edition));
    && key.session != "" && key.item != "" && key in rows && Agrees(cat, rows[key], input)
    && rows' == rows[key := rows[key].(result := Confirmed(edition, input.tier))]
    && overrides' == overrides[OverrideKey(TrimSpace(input.device), TrimSpace(input.clientItemId)) :=
                               Override(Lower(TrimSpace(input.platform)), input.identity,
                                        Candidates(cat, input.tier, rows[key].item), edition, input.tier)]
  }

  function OverrideFor(cat: Catalog, row: Row, c: Confirmation): Override
    requires Confirmable(cat, row, c)
  {
    Override(c.platform, c.identity, Candidates(cat, c.tier, Normalize(row.item).value), c.edition, c.tier)
  }

  lemma ConfirmableAgrees(cat: Catalog, row: Row, input: Confirmation)
    requires Complete(Cleaned(input)) && Recorded(row) && Confirmable(cat, row, Cleaned(input))
    ensures Agrees(cat, row, input)
  {
    TrimEachIs(input.candidates);
    SortPermutes(Le, TrimEach(input.candidates));
  }

  lemma ConfirmedIsRemembered(cat: Catalog, rows: map<RowKey, Row>, overrides: map<OverrideKey, Override>,
                              input: Confirmation, rows': map<RowKey, Row>, overrides': map<OverrideKey, Override>)
    requires Complete(Cleaned(input)) && AllRecorded(rows)
    requires ConfirmedIn(cat, rows, overrides, Cleaned(input), rows', overrides')
    ensures Remembers(cat, rows, overrides, input, rows', overrides')
  {
    var row := rows[RowKey(TrimSpace(input.session), TrimSpace(input.item))];
    assert Recorded(row);
    ConfirmableAgrees(cat, row, input);
  }

  /*************** what follows ***************/

  lemma DecidesOnce(cat: Catalog, item: Item, s: Tier, t: Tier)
    requires Decides(cat, item, s) && Decides(cat, item, t)
    ensures s == t
  {
  }

  /** No two results fit one state: matching never has a choice. */
  lemma MatchIsUnique(cat: Catalog, overrides: map<OverrideKey, Override>, device: string, item: Item, x: Match,
                      y: Match)
    requires MatchIs(cat, overrides, device, item, x) && MatchIs(cat, overrides, device, item, y)
    ensures x == y
  {
    if !x.Unmatched? && !y.Unmatched? { DecidesOnce(cat, item, x.tier, y.tier); }
  }

  /** A confirmation followed by a match on the unchanged catalog gives the confirmed
      edition exactly when every stronger tier is silent: the confirmation itself does
      not look at stronger tiers again. */
  lemma ConfirmedIsReturnedIff(cat: Catalog, overrides: map<OverrideKey, Override>, row: Row, c: Confirmation,
                               input: Item, r: Match)
    requires Recorded(row) && Confirmable(cat, row, c) && Normalize(input) == Some(row.item)
    requires MatchIs(cat, overrides[OverrideKey(c.device, c.clientItemId) := OverrideFor(cat, row, c)], c.device,
                     row.item, r)
    ensures r == Confirmed(c.edition, c.tier) <==> forall s: Tier | Rank(s) < Rank(c.tier) :: Silent(cat, row.item, s)
  {
    DecidesInOrder(cat, row.item, c.tier);
    if Decides(cat, row.item, c.tier) {
      if !r.Unmatched? { DecidesOnce(cat, row.item, c.tier, r.tier); }
    } else {
      var s: Tier :| Rank(s) < Rank(c.tier) && !Silent(cat, row.item, s);
    }
  }

  /*************** a stronger tier speaks up ***************/

  const DIGEST: string := seq(64, i => '0')

  const ITEM := Item("item", "gba", DIGEST, "S", "", "", 1)

  /** Two editions share a serial, a third one has neither serial nor, at first, artifacts. */
  const EDITIONS := [EditionRow("a", "gba", "S", "", ""), EditionRow("b", "gba", "S", "", ""),
                                EditionRow("c", "gba", "", "", "")]

  const BEFORE := Catalog(EDITIONS, [])

  /** The third edition's artifact with the item's digest has been catalogued. */
  const AFTER := Catalog(EDITIONS, [ArtifactRow("c", DIGEST, false)])

  const CONFIRMATION := Confirmation("device", "item", "gba", IdentityOf(ITEM), ["a", "b"], "b", Serial, "session",
                                     "row")

  lemma SampleIsNormalized()
    ensures Normalize(ITEM) == Some(ITEM) && Cleaned(CONFIRMATION) == CONFIRMATION && Complete(CONFIRMATION)
  {
    TrimmedStays("item");
    TrimmedStays("gba");
    TrimmedStays(DIGEST);
    TrimmedStays("S");
    TrimmedStays("device");
    TrimmedStays("session");
    TrimmedStays("row");
    TrimmedStays("a");
    TrimmedStays("b");
    assert Lower("gba") == "gba" && Lower(DIGEST) == DIGEST;
    ShortUtf8("item");
    assert ["a", "b"][1..] == ["b"] && ["b"][1..] == [];
    assert TrimEach(["b"]) == ["b"];
  }

  lemma SampleCandidates(artifacts: seq<ArtifactRow>)
    ensures var cat := Catalog(EDITIONS, artifacts);
            && Candidates(cat, Serial, ITEM) == Sort(Le, ["a", "b"]) && |Candidates(cat, Serial, ITEM)| == 2
               && "b" in Candidates(cat, Serial, ITEM)
  {
    var cat := Catalog(EDITIONS, artifacts);
    assert Upper("S") != Upper("") by { assert |Upper("S")| == 1 && |Upper("")| == 0; }
    assert Found(cat, 1, Serial, "gba", "S") == ["a"];
    assert Found(cat, 2, Serial, "gba", "S") == ["a", "b"];
    assert Found(cat, 3, Serial, "gba", "S") == ["a", "b"];
    SortPermutes(Le, ["a", "b"]);
    assert "b" in multiset(Sort(Le, ["a", "b"]));
    assert |multiset(Sort(Le, ["a", "b"]))| == 2;
  }

  lemma SampleDigests()
    ensures Candidates(BEFORE, Sha256, ITEM) == [] && Candidates(AFTER, Sha256, ITEM) == ["c"]
  {
    SortPermutes(Le, []);
    assert |multiset(Sort(Le, []))| == 0;
    assert forall n: nat | n <= 3 :: Found(BEFORE, n, Sha256, "gba", DIGEST) == [] by {
      assert Found(BEFORE, 0, Sha256, "gba", DIGEST) == [];
      assert Found(BEFORE, 1, Sha256, "gba", DIGEST) == [];
      assert Found(BEFORE, 2, Sha256, "gba", DIGEST) == [];
    }
    assert AFTER.artifacts[0].edition == "c" && "a"[0] != "c"[0] && "b"[0] != "c"[0];
    assert !Matches(AFTER, EDITIONS[0], Sha256, "gba", DIGEST) && !Matches(AFTER, EDITIONS[1], Sha256, "gba", DIGEST);
    assert Found(AFTER, 1, Sha256, "gba", DIGEST) == [];
    assert Found(AFTER, 2, Sha256, "gba", DIGEST) == [];
    assert Found(AFTER, 3, Sha256, "gba", DIGEST) == ["c"];
    SortPermutes(Le, ["c"]);
    var sorted := Sort(Le, ["c"]);
    assert |multiset(sorted)| == 1 && sorted[0] in multiset(sorted);
  }

  lemma SampleIdsDiffer()
    ensures UniqueIds(BEFORE) && UniqueIds(AFTER)
  {
    assert "a"[0] != "b"[0] && "a"[0] != "c"[0] && "b"[0] != "c"[0];
  }

  /** Stored on the first catalog, the item is ambiguous by its serial. */
  lemma SampleBefore()
    ensures MatchIs(BEFORE, map[], "device", ITEM, Ambiguous(Serial))
  {
    SampleCandidates([]);
    SampleDigests();
    assert Silent(BEFORE, ITEM, Sha256) && !Silent(BEFORE, ITEM, Serial);
    assert Decides(BEFORE, ITEM, Serial);
  }

  lemma SampleConfirmable()
    ensures Confirmable(AFTER, Row("device", ITEM, Ambiguous(Serial)), CONFIRMATION)
  {
    SampleIsNormalized();
    SampleCandidates(AFTER.artifacts);
  }

  /** On the second catalog the confirmation still passes, but the digest decides. */
  lemma SampleAfter(overrides: map<OverrideKey, Override>)
    ensures MatchIs(AFTER, overrides, "device", ITEM, Matched("c", Sha256))
  {
    SampleDigests();
    assert !Silent(AFTER, ITEM, Sha256);
    assert Decides(AFTER, ITEM, Sha256);
  }

  lemma ConfirmSucceeds(cat: Catalog, rows: map<RowKey, Row>, c: Confirmation, r: Result<(), Error>)
    requires Complete(c) && RowKey(c.session, c.item) in rows && Confirmable(cat, rows[RowKey(c.session, c.item)], c)
    ensures ConfirmIs(cat, rows, c, true, r) ==> r.Ok?
  {
  }

  /** A confirmation that succeeds although the next match on the same catalog does
      not return it: the item was ambiguous by serial when its row was stored, and its
      digest has found an edition since. */
  lemma StrongerTierWins(overrides: map<OverrideKey, Override>, confirmed: Result<(), Error>, next: Match)
    requires ConfirmIs(AFTER, map[RowKey("session", "row") := Row("device", ITEM, Ambiguous(Serial))], CONFIRMATION,
                       true, confirmed)
    requires MatchIs(AFTER, overrides, "device", ITEM, next)
    ensures UniqueIds(BEFORE) && UniqueIds(AFTER)
    ensures FromMatch(Row("device", ITEM, Ambiguous(Serial))) && Cleaned(CONFIRMATION) == CONFIRMATION
    ensures confirmed.Ok? && next == Matched("c", Sha256)
  {
    SampleRow();
    SampleIdsDiffer();
    SampleIsNormalized();
    SampleConfirmable();
    SampleAfter(overrides);
    MatchIsUnique(AFTER, overrides, "device", ITEM, next, Matched("c", Sha256));
    ConfirmSucceeds(AFTER, map[RowKey("session", "row") := Row("device", ITEM, Ambiguous(Serial))], CONFIRMATION,
                    confirmed);
  }

  lemma SampleRow()
    ensures FromMatch(Row("device", ITEM, Ambiguous(Serial)))
  {
    SampleIsNormalized();
    SampleBefore();
    MatchGivesRow(BEFORE, map[], "device", ITEM, Ambiguous(Serial));
  }

  /** Any change of the candidates cancels the confirmation. */
  lemma ChangedCandidatesCancel(cat: Catalog, overrides: map<OverrideKey, Override>, device: string, item: Item,
                                r: Match)
    requires MatchIs(cat, overrides, device, item, r)
    requires OverrideKey(device, item.clientItemId) in overrides
    requires var o := overrides[OverrideKey(device, item.clientItemId)]; o.candidates != Candidates(cat, o.tier, item)
    ensures !r.Confirmed?
  {
  }
}
