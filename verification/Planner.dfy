/** The package planner: folding the catalog into a list of target actions,
    checked against an ownership ledger (internal/bundler/plan.go). */
module Planner {
  import opened Storage

  datatype Mode = Copying | Hardlinking | Referencing

  datatype Kind = Rom | Media | Config | Metadata | Launch

  datatype Action = Copy | Hardlink | Reference | Generate | Unchanged | Missing | Conflict | Deduplicated

  datatype Item = Item(kind: Kind, edition: string, source: Path, target: Path, action: Action, size: nat, sha: Digest)

  /** One call of `addTarget` as the catalog walk makes it, before the output
      tree and the ledger are looked at. */
  datatype Request =
    | FileRequest(kind: Kind, edition: string, target: Path, content: Bytes, catalogSha: Digest)
    | ConfigRequest(target: Path, body: Bytes)
    | MetadataRequest(target: Path)
    | MissingRequest(kind: Kind, edition: string, target: Path)
    | RefusedRequest(kind: Kind, edition: string, target: Path)

  /** The ownership ledger: target to recorded digest, `Blank` when none is recorded. */
  type Ledger = map<Path, Digest>

  datatype State = State(
    items: seq<Item>,
    conflicts: seq<Path>,
    managed: seq<Path>,
    planned: map<Path, Item>,
    owned: Ledger)

  function Start(owned: Ledger): State {
    State([], [], [], map[], owned)
  }

  /** The recovery directories may never be targets. */
  const RECOVERY := ".varkiv-recovery"
  const LEGACY_RECOVERY := ".varkiv-backups"

  predicate Reserved(target: Path) {
    |target| > 0 && (target[0] == RECOVERY || target[0] == LEGACY_RECOVERY)
  }

  function ModeAction(mode: Mode): Action {
    match mode
    case Copying => Copy
    case Hardlinking => Hardlink
    case Referencing => Reference
  }

  /** The digest an item carries whatever the output holds. */
  function RequestSha(r: Request): Digest {
    match r
    case FileRequest(_, _, _, content, _) => Sha256(content)
    case ConfigRequest(_, body) => Sha256(body)
    case _ => Blank
  }

  function RequestSize(r: Request): nat {
    match r
    case FileRequest(_, _, _, content, _) => |content|
    case ConfigRequest(_, body) => |body|
    case _ => 0
  }

  function RequestKind(r: Request): Kind {
    match r
    case FileRequest(kind, _, _, _, _) => kind
    case ConfigRequest(_, _) => Config
    case MetadataRequest(_) => Metadata
    case MissingRequest(kind, _, _) => kind
    case RefusedRequest(kind, _, _) => kind
  }

  function RequestEdition(r: Request): string {
    if r.ConfigRequest? || r.MetadataRequest? then "" else r.edition
  }

  /** Files keep their library-relative path; generated and launch items have no source. */
  function RequestSource(r: Request): Path {
    if RequestKind(r).Rom? || RequestKind(r).Media? then r.target else []
  }

  /** The source no longer has the content the catalog recorded. */
  predicate CatalogChanged(r: Request) {
    r.FileRequest? && r.catalogSha != Blank && r.catalogSha != Sha256(r.content)
  }

  /** planFileItem and planConfigItem, followed by the catalog fingerprint check. */
  function DraftAction(r: Request, out: Tree, owned: Ledger, mode: Mode): Action {
    match r
    case FileRequest(_, _, target, content, _) =>
      if CatalogChanged(r) then Conflict
      else if mode.Referencing? then Reference
      else if target in owned && SameFile(out, target, content) then Unchanged
      else ModeAction(mode)
    case ConfigRequest(target, body) =>
      if target in owned && SameFile(out, target, body) then Unchanged else Generate
    case MetadataRequest(_) => Generate
    case MissingRequest(_, _, _) => Missing
    case RefusedRequest(_, _, _) => Conflict
  }

  function Draft(r: Request, out: Tree, owned: Ledger, mode: Mode): Item {
    Item(RequestKind(r), RequestEdition(r), RequestSource(r), r.target,
         DraftAction(r, out, owned, mode), RequestSize(r), RequestSha(r))
  }

  /** The ledger does not allow this existing target to be replaced. */
  predicate OwnershipRefused(out: Tree, owned: Ledger, target: Path) {
    Exists(out, target) &&
    (target !in owned ||
     (owned[target] != Blank && !(target in out && Sha256(out[target].bytes) == owned[target])))
  }

  /** A second writer of a target is allowed only with the same known content. */
  function Deduplicate(planned: map<Path, Item>, item: Item): Item {
    if item.target !in planned then item
    else if planned[item.target].sha == Blank || item.sha == Blank || planned[item.target].sha != item.sha
    then item.(action := Conflict)
    else item.(action := Deduplicated)
  }

  predicate Passive(action: Action) {
    action.Reference? || action.Missing? || action.Conflict?
  }

  /** The action an item finally gets. */
  function Settle(s: State, out: Tree, item: Item): Item {
    if Reserved(item.target) then item.(action := Conflict)
    else if item.action.Conflict? || item.action.Missing? then item
    else
      var d := Deduplicate(s.planned, item);
      if !Passive(d.action) && OwnershipRefused(out, s.owned, d.target) then d.(action := Conflict) else d
  }

  /** addTarget on values. */
  function Added(s: State, out: Tree, item: Item): State {
    var settled := Settle(s, out, item);
    State(
      s.items + [settled],
      if settled.action.Conflict? then s.conflicts + [item.target] else s.conflicts,
      if Passive(settled.action) then s.managed else s.managed + [item.target],
      if Reserved(item.target) || item.action.Conflict? || item.action.Missing? || item.target in s.planned
      then s.planned else s.planned[item.target := item],
      s.owned)
  }

  /** A valid earlier manifest makes generated metadata attributable. */
  function Attribute(owned: Ledger, hadManifest: bool, r: Request): Ledger {
    if r.MetadataRequest? && hadManifest && r.target !in owned then owned[r.target := Blank] else owned
  }

  function Step(s: State, out: Tree, hadManifest: bool, mode: Mode, r: Request): State {
    var s' := s.(owned := Attribute(s.owned, hadManifest, r));
    Added(s', out, Draft(r, out, s'.owned, mode))
  }

  /** The planner's whole loop. */
  function Fold(rs: seq<Request>, out: Tree, owned: Ledger, hadManifest: bool, mode: Mode): (s: State)
    ensures |s.items| == |rs|
  {
    if rs == [] then Start(owned)
    else Step(Fold(rs[..|rs| - 1], out, owned, hadManifest, mode), out, hadManifest, mode, rs[|rs| - 1])
  }

  /** The closure `addTarget` and the loops that call it, updating the plan in place. */
  class Plan {
    var items: seq<Item>
    var conflicts: seq<Path>
    var managed: seq<Path>
    var planned: map<Path, Item>
    var owned: Ledger

    ghost function Value(): State
      reads this
    {
      State(items, conflicts, managed, planned, owned)
    }

    constructor (ledger: Ledger)
      ensures Value() == Start(ledger)
    {
      items, conflicts, managed, planned, owned := [], [], [], map[], ledger;
    }

    method AddTarget(draft: Item, out: Tree)
      modifies this
      ensures Value() == Added(old(Value()), out, draft)
    {
      var item := draft;
      if Reserved(item.target) {
        item := item.(action := Conflict);
        conflicts := conflicts + [item.target];
        items := items + [item];
        return;
      }
      if item.action.Conflict? {
        conflicts := conflicts + [item.target];
        items := items + [item];
        return;
      }
      if !item.action.Missing? {
        if item.target in planned {
          var previous := planned[item.target];
          if previous.sha == Blank || item.sha == Blank || previous.sha != item.sha {
            item := item.(action := Conflict);
            conflicts := conflicts + [item.target];
          } else {
            item := item.(action := Deduplicated);
          }
        } else {
          planned := planned[item.target := item];
        }
      }
      if !item.action.Reference? && !item.action.Missing? && !item.action.Conflict? {
        if Exists(out, item.target) {
          if item.target !in owned {
            item := item.(action := Conflict);
            conflicts := conflicts + [item.target];
          } else if owned[item.target] != Blank {
            if !(item.target in out && Sha256(out[item.target].bytes) == owned[item.target]) {
              item := item.(action := Conflict);
              conflicts := conflicts + [item.target];
            }
          }
        }
        if !item.action.Conflict? {
          managed := managed + [item.target];
        }
      }
      items := items + [item];
    }

    method AddRequest(r: Request, out: Tree, hadManifest: bool, mode: Mode)
      modifies this
      ensures Value() == Step(old(Value()), out, hadManifest, mode, r)
    {
      if r.MetadataRequest? && hadManifest && r.target !in owned {
        owned := owned[r.target := Blank];
      }
      AddTarget(Draft(r, out, owned, mode), out);
    }

    method AddAll(rs: seq<Request>, out: Tree, ghost ledger: Ledger, hadManifest: bool, mode: Mode)
      requires Value() == Start(ledger)
      modifies this
      ensures Value() == Fold(rs, out, ledger, hadManifest, mode)
    {
      for i := 0 to |rs|
        invariant Value() == Fold(rs[..i], out, ledger, hadManifest, mode)
      {
        assert rs[..i + 1][..i] == rs[..i] && rs[..i + 1][i] == rs[i];
        AddRequest(rs[i], out, hadManifest, mode);
      }
      assert rs[..|rs|] == rs;
    }
  }
}
