/** What a plan means. The planner's fold is characterised without reference to
    its steps: when it raises no conflict, and what every action then is. */
module PlanProperties {
  import opened Storage
  import opened Planner

  /** Takes part in the planning of its target. */
  predicate Active(r: Request) {
    !r.MissingRequest?
  }

  predicate FirstWriter(rs: seq<Request>, i: nat)
    requires i < |rs|
  {
    Active(rs[i]) && forall j | 0 <= j < i :: Active(rs[j]) ==> rs[j].target != rs[i].target
  }

  /** The conflicts that do not depend on the output: none is reserved, refused or
      changed since cataloguing, and writers of one target agree on known content. */
  ghost predicate Clean(rs: seq<Request>) {
    && (forall i | 0 <= i < |rs| :: !Reserved(rs[i].target) && !rs[i].RefusedRequest? && !CatalogChanged(rs[i]))
    && (forall i, j | 0 <= i < j < |rs| :: Active(rs[i]) && Active(rs[j]) && rs[i].target == rs[j].target ==>
          RequestSha(rs[i]) != Blank && RequestSha(rs[i]) == RequestSha(rs[j]))
  }

  /** The ledger permits this writer: its target is absent, owned with its digest
      still on disk, or owned with none recorded. Only the first reference to a file
      leaves the output alone, so only that is not checked. */
  predicate Permitted(r: Request, first: bool, out: Tree, owned: Ledger, hadManifest: bool, mode: Mode) {
    Active(r) && !(first && mode.Referencing? && r.FileRequest?) ==>
      !OwnershipRefused(out, Attribute(owned, hadManifest, r), r.target)
  }

  ghost predicate OwnershipHolds(rs: seq<Request>, out: Tree, owned: Ledger, hadManifest: bool, mode: Mode) {
    forall i: nat | i < |rs| :: Permitted(rs[i], FirstWriter(rs, i), out, owned, hadManifest, mode)
  }

  /** The first writer of a target keeps its draft, every later one is deduplicated. */
  function WriterItem(r: Request, first: bool, out: Tree, owned: Ledger, hadManifest: bool, mode: Mode): Item {
    Item(RequestKind(r), RequestEdition(r), RequestSource(r), r.target,
         if !Active(r) then Missing
         else if first then DraftAction(r, out, Attribute(owned, hadManifest, r), mode)
         else Deduplicated,
         RequestSize(r), RequestSha(r))
  }

  function WriterItems(rs: seq<Request>, out: Tree, owned: Ledger, hadManifest: bool, mode: Mode): (items: seq<Item>)
    ensures |items| == |rs|
  {
    if rs == [] then []
    else
      var n := |rs| - 1;
      WriterItems(rs[..n], out, owned, hadManifest,
                  mode) + [WriterItem(rs[n], FirstWriter(rs, n), out, owned, hadManifest, mode)]
  }

  ghost predicate PlannedMatch(planned: map<Path, Item>, rs: seq<Request>) {
    && (forall i | 0 <= i < |rs| && Active(rs[i]) ::
          rs[i].target in planned && planned[rs[i].target].sha == RequestSha(rs[i]))
    && (forall p | p in planned :: exists i | 0 <= i < |rs| :: Active(rs[i]) && rs[i].target == p)
  }

  ghost predicate OwnedMatch(now: Ledger, rs: seq<Request>, owned: Ledger) {
    && (forall p | p in now && p !in owned :: exists i | 0 <= i < |rs| :: rs[i].MetadataRequest? && rs[i].target == p)
    && (forall p | p in owned :: p in now && now[p] == owned[p])
  }

  /** The managed set is the set of targets of items that are not passive. */
  ghost predicate ManagedMatch(managed: seq<Path>, items: seq<Item>) {
    && (forall i | 0 <= i < |items| && !Passive(items[i].action) :: items[i].target in managed)
    && (forall p | p in managed :: exists i | 0 <= i < |items| :: items[i].target == p && !Passive(items[i].action))
  }

  /** The state of a conflict-free fold. */
  ghost predicate Explains(s: State, rs: seq<Request>, out: Tree, owned: Ledger, hadManifest: bool, mode: Mode) {
    && s.items == WriterItems(rs, out, owned, hadManifest, mode)
    && PlannedMatch(s.planned, rs)
    && OwnedMatch(s.owned, rs, owned)
    && ManagedMatch(s.managed, s.items)
  }

  /** The part of cleanliness that the last request decides. */
  predicate Fits(s: State, r: Request) {
    && !Reserved(r.target) && !r.RefusedRequest? && !CatalogChanged(r)
    && (Active(r) && r.target in s.planned ==>
          s.planned[r.target].sha != Blank && s.planned[r.target].sha == RequestSha(r))
  }

  ghost predicate AgreeAt(a: Ledger, b: Ledger, p: Path) {
    (p in a <==> p in b) && (p in a ==> a[p] == b[p])
  }

  /** One step in terms of what it depends on only. */
  lemma StepOutcome(prev: State, r: Request, out: Tree, owned: Ledger, hadManifest: bool, mode: Mode)
    requires prev.conflicts == []
    requires Active(r) && Fits(prev, r) ==>
               AgreeAt(Attribute(prev.owned, hadManifest, r), Attribute(owned, hadManifest, r), r.target)
    ensures var s := Step(prev, out, hadManifest, mode, r);
            var first := Active(r) && r.target !in prev.planned;
            var item := WriterItem(r, first, out, owned, hadManifest, mode);
            && (s.conflicts == [] <==> Fits(prev, r) && Permitted(r, first, out, owned, hadManifest, mode))
            && (s.conflicts == [] ==>
                  && s.items == prev.items + [item]
                  && s.planned.Keys == prev.planned.Keys + (if Active(r) then {r.target} else {})
                  && (forall p | p in prev.planned :: s.planned[p] == prev.planned[p])
                  && (first ==> s.planned[r.target].sha == RequestSha(r))
                  && s.owned == Attribute(prev.owned, hadManifest, r)
                  && s.managed == prev.managed + (if Passive(item.action) then [] else [item.target]))
  {
  }

  lemma PrefixWriters(rs: seq<Request>, i: nat)
    requires i < |rs| - 1
    ensures FirstWriter(rs[..|rs| - 1], i) == FirstWriter(rs, i)
  {
    var init := rs[..|rs| - 1];
    assert forall j | 0 <= j <= i :: init[j] == rs[j];
  }

  lemma CleanStep(rs: seq<Request>, prev: State)
    requires |rs| > 0 && PlannedMatch(prev.planned, rs[..|rs| - 1]) && Clean(rs[..|rs| - 1])
    ensures Clean(rs) <==> Fits(prev, rs[|rs| - 1])
    ensures FirstWriter(rs, |rs| - 1) <==> Active(rs[|rs| - 1]) && rs[|rs| - 1].target !in prev.planned
  {
    var n := |rs| - 1;
    var init, r := rs[..n], rs[n];
    assert forall i | 0 <= i < n :: init[i] == rs[i];
    if Active(r) && r.target in prev.planned {
      var i :| 0 <= i < n && Active(init[i]) && init[i].target == r.target;
      assert rs[i] == init[i];
      assert Clean(rs) ==> RequestSha(rs[i]) == RequestSha(rs[n]) != Blank;
    }
  }

  /** Metadata entries added to the ledger on the way never concern another request. */
  lemma LedgerAgrees(rs: seq<Request>, now: Ledger, owned: Ledger, hadManifest: bool)
    requires |rs| > 0 && Active(rs[|rs| - 1]) && OwnedMatch(now, rs[..|rs| - 1], owned) && Clean(rs)
    ensures var r := rs[|rs| - 1];
            AgreeAt(Attribute(now, hadManifest, r), Attribute(owned, hadManifest, r), r.target)
  {
    var n := |rs| - 1;
    var init, r := rs[..n], rs[n];
    assert r.target in now && r.target !in owned ==> false by {
      forall i | 0 <= i < n ensures !(init[i].MetadataRequest? && init[i].target == r.target) {
        assert init[i] == rs[i];
      }
    }
  }

  lemma {:induction false} ItemAt(rs: seq<Request>, i: nat, out: Tree, owned: Ledger, hadManifest: bool, mode: Mode)
    requires i < |rs|
    ensures WriterItems(rs, out, owned, hadManifest, mode)[i] ==
              WriterItem(rs[i], FirstWriter(rs, i), out, owned, hadManifest, mode)
  {
    if i < |rs| - 1 {
      PrefixWriters(rs, i);
      ItemAt(rs[..|rs| - 1], i, out, owned, hadManifest, mode);
    }
  }

  lemma PlannedStep(rs: seq<Request>, planned: map<Path, Item>, planned': map<Path, Item>)
    requires |rs| > 0 && PlannedMatch(planned, rs[..|rs| - 1])
    requires var r := rs[|rs| - 1];
             && planned'.Keys == planned.Keys + (if Active(r) then {r.target} else {})
             && (forall p | p in planned :: planned'[p] == planned[p])
             && (Active(r) ==> planned'[r.target].sha == RequestSha(r))
    ensures PlannedMatch(planned', rs)
  {
    var n := |rs| - 1;
    var init := rs[..n];
    assert forall i | 0 <= i < n :: init[i] == rs[i];
    forall p | p in planned' ensures exists i | 0 <= i < |rs| :: Active(rs[i]) && rs[i].target == p {
      if p in planned {
        var i :| 0 <= i < n && Active(init[i]) && init[i].target == p;
        assert Active(rs[i]) && rs[i].target == p;
      } else {
        assert Active(rs[n]) && rs[n].target == p;
      }
    }
  }

  lemma OwnedStep(rs: seq<Request>, now: Ledger, owned: Ledger, hadManifest: bool)
    requires |rs| > 0 && OwnedMatch(now, rs[..|rs| - 1], owned)
    ensures OwnedMatch(Attribute(now, hadManifest, rs[|rs| - 1]), rs, owned)
  {
    var n := |rs| - 1;
    var init := rs[..n];
    assert forall i | 0 <= i < n :: init[i] == rs[i];
    forall p | p in Attribute(now, hadManifest, rs[n]) && p !in owned
      ensures exists i | 0 <= i < |rs| :: rs[i].MetadataRequest? && rs[i].target == p
    {
      if p in now {
        var i :| 0 <= i < n && init[i].MetadataRequest? && init[i].target == p;
        assert rs[i].MetadataRequest? && rs[i].target == p;
      } else {
        assert rs[n].MetadataRequest? && rs[n].target == p;
      }
    }
  }

  lemma ManagedStep(managed: seq<Path>, items: seq<Item>, last: Item)
    requires ManagedMatch(managed, items)
    ensures ManagedMatch(managed + (if Passive(last.action) then [] else [last.target]), items + [last])
  {
    var items' := items + [last];
    var managed' := managed + (if Passive(last.action) then [] else [last.target]);
    forall p | p in managed'
      ensures exists i | 0 <= i < |items'| :: items'[i].target == p && !Passive(items'[i].action) {
      if p in managed {
        var i :| 0 <= i < |items| && items[i].target == p && !Passive(items[i].action);
        assert items'[i] == items[i];
      } else {
        assert items'[|items|] == last;
      }
    }
  }

  lemma OwnershipStep(rs: seq<Request>, out: Tree, owned: Ledger, hadManifest: bool, mode: Mode)
    requires |rs| > 0
    ensures OwnershipHolds(rs, out, owned, hadManifest, mode) <==>
              OwnershipHolds(rs[..|rs| - 1], out, owned, hadManifest, mode) &&
              Permitted(rs[|rs| - 1], FirstWriter(rs, |rs| - 1), out, owned, hadManifest, mode)
  {
    var n := |rs| - 1;
    forall i: nat | i < n ensures rs[..n][i] == rs[i] && FirstWriter(rs[..n], i) == FirstWriter(rs, i) {
      PrefixWriters(rs, i);
    }
    if OwnershipHolds(rs, out, owned, hadManifest, mode) {
      forall i: nat | i < n
        ensures Permitted(rs[..n][i], FirstWriter(rs[..n], i), out, owned, hadManifest, mode)
      {
        assert Permitted(rs[i], FirstWriter(rs, i), out, owned, hadManifest, mode);
      }
    }
  }

  /** `s` extends `prev` by the last request, as StepOutcome describes it. */
  ghost predicate Extends(prev: State, s: State, r: Request, item: Item, hadManifest: bool) {
    && s.items == prev.items + [item]
    && s.planned.Keys == prev.planned.Keys + (if Active(r) then {r.target} else {})
    && (forall p | p in prev.planned :: s.planned[p] == prev.planned[p])
    && (Active(r) ==> s.planned[r.target].sha == RequestSha(r))
    && s.owned == Attribute(prev.owned, hadManifest, r)
    && s.managed == prev.managed + (if Passive(item.action) then [] else [item.target])
  }

  lemma StepExtends(rs: seq<Request>, prev: State, out: Tree, owned: Ledger, hadManifest: bool, mode: Mode)
    requires |rs| > 0 && prev.conflicts == []
    requires PlannedMatch(prev.planned, rs[..|rs| - 1]) && OwnedMatch(prev.owned, rs[..|rs| - 1], owned)
    requires Clean(rs[..|rs| - 1])
    ensures var n := |rs| - 1;
            var s := Step(prev, out, hadManifest, mode, rs[n]);
            && (s.conflicts == [] <==> Clean(rs) && Permitted(rs[n], FirstWriter(rs, n), out, owned, hadManifest, mode))
            && (s.conflicts == [] ==>
                  Extends(prev, s, rs[n], WriterItem(rs[n], FirstWriter(rs, n), out, owned, hadManifest, mode),
                          hadManifest))
  {
    var r := rs[|rs| - 1];
    CleanStep(rs, prev);
    if Fits(prev, r) && Active(r) {
      LedgerAgrees(rs, prev.owned, owned, hadManifest);
    }
    StepOutcome(prev, r, out, owned, hadManifest, mode);
  }

  lemma ExtendsExplains(rs: seq<Request>, prev: State, s: State, item: Item, out: Tree, owned: Ledger,
                        hadManifest: bool, mode: Mode)
    requires |rs| > 0 && Explains(prev, rs[..|rs| - 1], out, owned, hadManifest, mode)
    requires item == WriterItem(rs[|rs| - 1], FirstWriter(rs, |rs| - 1), out, owned, hadManifest, mode)
    requires Extends(prev, s, rs[|rs| - 1], item, hadManifest)
    ensures Explains(s, rs, out, owned, hadManifest, mode)
  {
    PlannedStep(rs, prev.planned, s.planned);
    OwnedStep(rs, prev.owned, owned, hadManifest);
    ManagedStep(prev.managed, prev.items, item);
  }

  /** A plan has no conflict exactly when the catalog is clean and the ledger
      permits every writer; its items and its managed set are then known. */
  lemma {:induction false} PlanMeaning(rs: seq<Request>, out: Tree, owned: Ledger, hadManifest: bool, mode: Mode)
    ensures var s := Fold(rs, out, owned, hadManifest, mode);
            && (s.conflicts == [] <==> Clean(rs) && OwnershipHolds(rs, out, owned, hadManifest, mode))
            && (s.conflicts == [] ==> Explains(s, rs, out, owned, hadManifest, mode))
  {
    if rs != [] {
      var init := rs[..|rs| - 1];
      PlanMeaning(init, out, owned, hadManifest, mode);
      if Clean(rs) { CleanPrefix(rs); }
      OwnershipStep(rs, out, owned, hadManifest, mode);
      var prev := Fold(init, out, owned, hadManifest, mode);
      if prev.conflicts == [] {
        StepExtends(rs, prev, out, owned, hadManifest, mode);
        var n, s := |rs| - 1, Fold(rs, out, owned, hadManifest, mode);
        if s.conflicts == [] {
          ExtendsExplains(rs, prev, s, WriterItem(rs[n], FirstWriter(rs, n), out, owned, hadManifest, mode),
                          out, owned, hadManifest, mode);
        }
      }
    }
  }

  lemma CleanPrefix(rs: seq<Request>)
    requires |rs| > 0 && Clean(rs)
    ensures Clean(rs[..|rs| - 1])
  {
    assert forall i | 0 <= i < |rs| - 1 :: rs[..|rs| - 1][i] == rs[i];
  }

  /** actionWritesTarget. */
  predicate Writes(action: Action) {
    !(action.Unchanged? || action.Reference? || action.Missing? || action.Conflict? || action.Deduplicated?)
  }

  lemma PlannedItem(rs: seq<Request>, i: nat, out: Tree, owned: Ledger, hadManifest: bool, mode: Mode)
    requires i < |rs| && Fold(rs, out, owned, hadManifest, mode).conflicts == []
    ensures Fold(rs, out, owned, hadManifest, mode).items[i] ==
              WriterItem(rs[i], FirstWriter(rs, i), out, owned, hadManifest, mode)
    ensures Permitted(rs[i], FirstWriter(rs, i), out, owned, hadManifest, mode)
  {
    PlanMeaning(rs, out, owned, hadManifest, mode);
    ItemAt(rs, i, out, owned, hadManifest, mode);
  }

  lemma ConflictFreeIsClean(rs: seq<Request>, out: Tree, owned: Ledger, hadManifest: bool, mode: Mode)
    requires Fold(rs, out, owned, hadManifest, mode).conflicts == []
    ensures Clean(rs)
  {
    PlanMeaning(rs, out, owned, hadManifest, mode);
  }

  /** Two writers of one target agree on its content, and generated metadata has no second writer. */
  lemma WritersAgree(rs: seq<Request>, r: Request, r': Request)
    requires Clean(rs) && r in rs && r' in rs && Active(r) && Active(r') && r.target == r'.target
    ensures RequestSha(r) == RequestSha(r')
    ensures r != r' ==> RequestSha(r) != Blank
  {
    var i: nat :| i < |rs| && rs[i] == r;
    var j: nat :| j < |rs| && rs[j] == r';
    assert i < j || j < i || i == j;
  }

  /** The target may be written: it is absent, owned with its recorded digest
      still on disk, or owned with no recorded digest. */
  predicate Replaceable(out: Tree, owned: Ledger, target: Path) {
    || !Exists(out, target)
    || (target in owned && target in out && owned[target] == Sha256(out[target].bytes))
    || (target in owned && owned[target] == Blank)
  }

  lemma WrittenTargetIsReplaceable(rs: seq<Request>, i: nat, out: Tree, owned: Ledger, hadManifest: bool, mode: Mode)
    requires i < |rs| && Fold(rs, out, owned, hadManifest, mode).conflicts == []
    requires Writes(Fold(rs, out, owned, hadManifest, mode).items[i].action)
    ensures Replaceable(out, Attribute(owned, hadManifest, rs[i]), rs[i].target)
  {
    PlannedItem(rs, i, out, owned, hadManifest, mode);
  }

  /** Each target a conflict-free plan writes may be replaced, and two active items
      with one target carry the same known digest. */
  lemma ConflictFreePlanIsSafe(rs: seq<Request>, out: Tree, owned: Ledger, hadManifest: bool, mode: Mode)
    requires Fold(rs, out, owned, hadManifest, mode).conflicts == []
    ensures forall i: nat | i < |rs| && Writes(Fold(rs, out, owned, hadManifest, mode).items[i].action) ::
              Replaceable(out, Attribute(owned, hadManifest, rs[i]), rs[i].target)
    ensures forall i: nat, j: nat | i < j < |rs| && Active(rs[i]) && Active(rs[j]) && rs[i].target == rs[j].target ::
              RequestSha(rs[i]) == RequestSha(rs[j]) != Blank
  {
    forall i: nat | i < |rs| && Writes(Fold(rs, out, owned, hadManifest, mode).items[i].action)
      ensures Replaceable(out, Attribute(owned, hadManifest, rs[i]), rs[i].target)
    {
      WrittenTargetIsReplaceable(rs, i, out, owned, hadManifest, mode);
    }
    PlanMeaning(rs, out, owned, hadManifest, mode);
  }

  /** The fields of an item that enter the plan fingerprint. */
  datatype Fingerprinted = Fingerprinted(kind: Kind, edition: string, source: Path, target: Path, size: nat,
                                         sha: Digest)

  function FingerprintOfItem(i: Item): Fingerprinted {
    Fingerprinted(i.kind, i.edition, i.source, i.target, i.size, i.sha)
  }

  function FingerprintOfRequest(r: Request): Fingerprinted {
    Fingerprinted(RequestKind(r), RequestEdition(r), RequestSource(r), r.target, RequestSize(r), RequestSha(r))
  }

  lemma StepFingerprint(s: State, out: Tree, hadManifest: bool, mode: Mode, r: Request)
    ensures var items := Step(s, out, hadManifest, mode, r).items;
            |items| == |s.items| + 1 && items[..|s.items|] == s.items
              && FingerprintOfItem(items[|s.items|]) == FingerprintOfRequest(r)
  {
  }

  /** The fingerprinted fields are those of the requests, conflicts or not. */
  lemma {:induction false} FingerprintMeaning(rs: seq<Request>, out: Tree, owned: Ledger, hadManifest: bool,
                                              mode: Mode, i: nat)
    requires i < |rs|
    ensures FingerprintOfItem(Fold(rs, out, owned, hadManifest, mode).items[i]) == FingerprintOfRequest(rs[i])
  {
    var n := |rs| - 1;
    StepFingerprint(Fold(rs[..n], out, owned, hadManifest, mode), out, hadManifest, mode, rs[n]);
    if i < n {
      FingerprintMeaning(rs[..n], out, owned, hadManifest, mode, i);
    }
  }

  /** The fingerprint ignores the output and the ledger: two plans of one catalog
      agree in every fingerprinted field, whatever either output held. */
  lemma FingerprintIgnoresOutput(rs: seq<Request>, out: Tree, owned: Ledger, hadManifest: bool,
                                 out': Tree, owned': Ledger, hadManifest': bool, mode: Mode, mode': Mode)
    ensures var a, b :=
            Fold(rs, out, owned, hadManifest, mode).items, Fold(rs, out', owned', hadManifest', mode').items;
            |a| == |b| && forall i: nat | i < |a| :: FingerprintOfItem(a[i]) == FingerprintOfItem(b[i])
  {
    forall i: nat | i < |rs|
      ensures FingerprintOfItem(Fold(rs, out, owned, hadManifest, mode).items[i]) ==
                FingerprintOfItem(Fold(rs, out', owned', hadManifest', mode').items[i])
    {
      FingerprintMeaning(rs, out, owned, hadManifest, mode, i);
      FingerprintMeaning(rs, out', owned', hadManifest', mode', i);
    }
  }
}
