/** Device checks on a finished plan (internal/bundler/device_preflight.go), and the
    in-place compaction of its sorted lists (`uniqueStrings` in plan.go). */
module Preflight {
  import opened DevicePaths
  import opened Storage
  import opened Planner
  import opened PlanProperties
  import opened Text
  import opened Wrappers

  datatype Device = Device(enabled: bool, target: string, supportsHardlink: bool, caseSensitive: bool, rule: PathRule)

  datatype Finding = DisabledDevice | WrongTarget | NoHardlinks | AtTarget(path: Path) | NoSpace

  /** Case folding works on each character, so on each segment. */
  function LowerEach(p: Path): Path {
    seq(|p|, i requires 0 <= i < |p| => Lower(p[i]))
  }

  function FoldKey(d: Device, p: Path): Path {
    if d.caseSensitive then p else LowerEach(p)
  }

  /** The device cannot tell the paths apart: they are equal, but for case if it ignores that. */
  lemma FoldsTogether(d: Device, p: Path, q: Path)
    ensures FoldKey(d, p) == FoldKey(d, q) <==>
              p == q || (!d.caseSensitive && |p| == |q| && forall i | 0 <= i < |p| :: Lower(p[i]) == Lower(q[i]))
  {
    assert |LowerEach(p)| == |p| && |LowerEach(q)| == |q|;
    if !d.caseSensitive && FoldKey(d, p) == FoldKey(d, q) {
      forall i | 0 <= i < |p| ensures Lower(p[i]) == Lower(q[i]) { assert LowerEach(p)[i] == LowerEach(q)[i]; }
    }
  }

  predicate AcceptsTarget(d: Device, p: Path) {
    Accepts(d.rule, Joined(p))
  }

  predicate Live(i: Item) {
    !i.action.Missing? && !i.action.Conflict?
  }

  predicate DeviceFits(d: Device, target: string, mode: Mode) {
    d.enabled && d.target == target && (mode.Hardlinking? ==> d.supportsHardlink)
  }

  /** The device can hold the planned targets side by side. */
  ghost predicate Representable(items: seq<Item>, d: Device) {
    && (forall i | 0 <= i < |items| && Live(items[i]) :: AcceptsTarget(d, items[i].target))
    && (forall i, j | 0 <= i < j < |items| && Live(items[i]) && Live(items[j]) ::
          FoldKey(d, items[i].target) == FoldKey(d, items[j].target) ==> items[i].target == items[j].target)
  }

  /** Only actions changed, and only to conflict. */
  ghost predicate OnlyRefuses(was: seq<Item>, now: seq<Item>) {
    && |was| == |now|
    && forall i | 0 <= i < |was| :: now[i] == was[i] || (Live(was[i]) && now[i] == was[i].(action := Conflict))
  }

  /** `seen` points from each folded key to a live item before `n` that has it. */
  ghost predicate Indexes(seen: map<Path, nat>, was: seq<Item>, d: Device, n: nat) {
    forall k | k in seen :: seen[k] < n && seen[k] < |was| && Live(was[seen[k]]) && FoldKey(d, was[seen[k]].target) == k
  }

  /** The items before `n` are accepted, and each is represented in `seen` by its own target. */
  ghost predicate Cleared(seen: map<Path, nat>, was: seq<Item>, d: Device, n: nat)
    requires n <= |was| && Indexes(seen, was, d, n)
  {
    forall j | 0 <= j < n && Live(was[j]) ::
      && AcceptsTarget(d, was[j].target)
      && FoldKey(d, was[j].target) in seen
      && was[seen[FoldKey(d, was[j].target)]].target == was[j].target
  }

  lemma ClearedIsRepresentable(seen: map<Path, nat>, was: seq<Item>, d: Device)
    requires Indexes(seen, was, d, |was|) && Cleared(seen, was, d, |was|)
    ensures Representable(was, d)
  {
  }

  /** An accepted item whose key is new, or known with its own target, stays indexed and cleared. */
  lemma ClearedNext(seen: map<Path, nat>, was: seq<Item>, d: Device, n: nat)
    requires n < |was| && Indexes(seen, was, d, n) && Live(was[n])
    requires var key := FoldKey(d, was[n].target); key in seen ==> was[seen[key]].target == was[n].target
    ensures var more := seen[FoldKey(d, was[n].target) := n];
            && Indexes(more, was, d, n + 1)
            && (Cleared(seen, was, d, n) && AcceptsTarget(d, was[n].target) ==> Cleared(more, was, d, n + 1))
  {
  }

  /** The loop before `n`: `clean` says that there was no finding yet. */
  ghost predicate Checked(now: seq<Item>, was: seq<Item>, n: nat, seen: map<Path, nat>, d: Device, clean: bool) {
    && n <= |was| && OnlyRefuses(was, now) && now[n..] == was[n..] && Indexes(seen, was, d, n)
    && (if clean then now == was && Cleared(seen, was, d, n) else !Representable(was, d))
  }

  lemma CheckedNext(now: seq<Item>, was: seq<Item>, n: nat, seen: map<Path, nat>, d: Device, clean: bool)
    requires Checked(now, was, n, seen, d, clean) && n < |was|
    ensures now[n] == was[n] && now[n + 1..] == was[n + 1..]
    ensures !Live(was[n]) ==> Checked(now, was, n + 1, seen, d, clean)
  {
    assert now[n] == now[n..][0] && now[n + 1..] == now[n..][1..] && was[n + 1..] == was[n..][1..];
  }

  /** A live item the device does not accept. */
  lemma RefusedTarget(now: seq<Item>, was: seq<Item>, n: nat, seen: map<Path, nat>, d: Device, clean: bool)
    requires Checked(now, was, n, seen, d, clean) && n < |was| && Live(was[n]) && !AcceptsTarget(d, was[n].target)
    ensures now[n] == was[n] && Checked(now[n := was[n].(action := Conflict)], was, n + 1, seen, d, false)
  {
    CheckedNext(now, was, n, seen, d, clean);
    var next := now[n := was[n].(action := Conflict)];
    assert next[n + 1..] == now[n + 1..];
  }

  /** A live item that folds together with an earlier one. */
  lemma FoldedTargets(now: seq<Item>, was: seq<Item>, n: nat, seen: map<Path, nat>, d: Device, clean: bool)
    requires Checked(now, was, n, seen, d, clean) && n < |was| && Live(was[n]) && FoldKey(d, was[n].target) in seen
    requires was[seen[FoldKey(d, was[n].target)]].target != was[n].target
    ensures var k := seen[FoldKey(d, was[n].target)];
            && k < n && now[n] == was[n] && now[k].target == was[k].target
            && var next := now[n := was[n].(action := Conflict)];
               Checked(if Live(now[k]) then next[k := now[k].(action := Conflict)]
                       else next, was, n + 1, seen, d, false)
  {
    CheckedNext(now, was, n, seen, d, clean);
    var k := seen[FoldKey(d, was[n].target)];
    var next := now[n := was[n].(action := Conflict)];
    var last := if Live(now[k]) then next[k := now[k].(action := Conflict)] else next;
    assert last[n + 1..] == now[n + 1..];
  }

  /** A live item that is accepted and apart from the earlier ones. */
  lemma ClearedTarget(now: seq<Item>, was: seq<Item>, n: nat, seen: map<Path, nat>, d: Device, clean: bool)
    requires Checked(now, was, n, seen, d, clean) && n < |was| && Live(was[n]) && AcceptsTarget(d, was[n].target)
    requires var key := FoldKey(d, was[n].target); key in seen ==> was[seen[key]].target == was[n].target
    ensures Checked(now, was, n + 1, seen[FoldKey(d, was[n].target) := n], d, clean)
  {
    CheckedNext(now, was, n, seen, d, clean);
    ClearedNext(seen, was, d, n);
  }

  /** The loop over the targets: a finding for every item that cannot be represented. */
  method CheckTargets(items: array<Item>, d: Device) returns (findings: seq<Finding>)
    modifies items
    ensures findings == [] <==> Representable(old(items[..]), d)
    ensures findings == [] ==> items[..] == old(items[..])
    ensures OnlyRefuses(old(items[..]), items[..])
  {
    findings := [];
    ghost var was := items[..];
    var seen: map<Path, nat> := map[];
    for i := 0 to items.Length
      invariant Checked(items[..], was, i, seen, d, findings == [])
    {
      ghost var now := items[..];
      CheckedNext(now, was, i, seen, d, findings == []);
      var item := items[i];
      if !Live(item) { continue; }
      var key := FoldKey(d, item.target);
      var accepted := ValidateDeviceTargetPath(Joined(item.target), d.rule);
      if !accepted {
        RefusedTarget(now, was, i, seen, d, findings == []);
        items[i] := item.(action := Conflict);
        findings := findings + [AtTarget(item.target)];
        assert items[..] == now[i := item.(action := Conflict)];
        continue;
      }
      if key in seen && items[seen[key]].target != item.target {
        FoldedTargets(now, was, i, seen, d, findings == []);
        var k := seen[key];
        var previous := items[k];
        items[i] := item.(action := Conflict);
        assert items[..] == now[i := item.(action := Conflict)];
        if Live(previous) {
          items[k] := previous.(action := Conflict);
          assert items[..] == now[i := item.(action := Conflict)][k := previous.(action := Conflict)];
        }
        findings := findings + [AtTarget(previous.target), AtTarget(item.target)];
        continue;
      }
      ClearedTarget(now, was, i, seen, d, findings == []);
      seen := seen[key := i];
    }
    if findings == [] {
      ClearedIsRepresentable(seen, was, d);
    }
  }

  /*************** space ***************/

  const RESERVE: nat := 8 * 1024 * 1024
  const PER_UNSIZED: nat := 64 * 1024
  const MAX_AVAILABLE: nat := 0x7fff_ffff_ffff_ffff

  predicate Takes(i: Item) {
    i.action.Copy? || i.action.Generate?
  }

  /** The known sizes of what will be written, and the number of generated files without one. */
  function KnownBytes(items: seq<Item>): nat {
    if items == [] then 0
    else KnownBytes(items[..|items| - 1]) + if Takes(items[|items| - 1]) then items[|items| - 1].size else 0
  }

  function Unsized(items: seq<Item>): nat {
    if items == [] then 0
    else Unsized(items[..|items| - 1]) + if items[|items| - 1].action.Generate?
      && items[|items| - 1].size == 0 then 1 else 0
  }

  function Estimate(items: seq<Item>): nat {
    var (bytes, count) := (KnownBytes(items), Unsized(items));
    if bytes > 0 || count > 0 then bytes + RESERVE + count * PER_UNSIZED else 0
  }

  /** Items that are linked, referenced or left alone take no space. */
  lemma {:induction false} NothingTaken(items: seq<Item>)
    requires forall i | 0 <= i < |items| :: !items[i].action.Copy? && !items[i].action.Generate?
    ensures KnownBytes(items) == Unsized(items) == Estimate(items) == 0
  {
    if items != [] { NothingTaken(items[..|items| - 1]); }
  }

  /** One copied or generated file takes its size and 8 MiB in reserve, a generated one without
      a size 64 KiB and the reserve. */
  lemma OneTaken(item: Item)
    requires item.action.Copy? || item.action.Generate?
    ensures item.size > 0 ==> Estimate([item]) == item.size + 8388608
    ensures item.size == 0 ==> Estimate([item]) == if item.action.Generate? then 8454144 else 0
  {
    assert [item][..|[item]| - 1] == [] && KnownBytes([]) == Unsized([]) == 0;
    assert KnownBytes([item]) == item.size;
  }

  /** Among other items, the sizes of two lists add up, and the reserve is taken once. */
  lemma {:induction false} SizesAdd(a: seq<Item>, b: seq<Item>)
    ensures KnownBytes(a + b) == KnownBytes(a) + KnownBytes(b) && Unsized(a + b) == Unsized(a) + Unsized(b)
  {
    if b == [] {
      assert a + b == a;
    } else {
      assert (a + b)[..|a + b| - 1] == a + b[..|b| - 1];
      SizesAdd(a, b[..|b| - 1]);
    }
  }

  lemma EstimatesAdd(a: seq<Item>, b: seq<Item>)
    requires Estimate(a) > 0 && Estimate(b) > 0
    ensures Estimate(a + b) == Estimate(a) + Estimate(b) - 8388608
  {
    SizesAdd(a, b);
  }

  /** What is free, when it could be found out, is at least the estimate. */
  predicate SpaceFits(items: seq<Item>, available: Option<nat>) {
    available.Some? ==> Estimate(items) == 0 || Estimate(items) <= Clamp(available.value)
  }

  function Clamp(available: nat): nat {
    if available > MAX_AVAILABLE then MAX_AVAILABLE else available
  }

  /** applySpacePreflight. */
  method CheckSpace(items: seq<Item>, available: Option<nat>) returns (fits: bool)
    ensures fits <==> SpaceFits(items, available)
    ensures !fits <==> available.Some? && (Estimate(items) > available.value || Estimate(items) > 0x7fff_ffff_ffff_ffff)
  {
    var estimated, unsized := 0, 0;
    for i := 0 to |items|
      invariant estimated == KnownBytes(items[..i]) && unsized == Unsized(items[..i])
    {
      assert items[..i + 1][..i] == items[..i];
      match items[i].action
      case Copy =>
        if items[i].size > 0 { estimated := estimated + items[i].size; }
      case Generate =>
        if items[i].size > 0 { estimated := estimated + items[i].size; } else { unsized := unsized + 1; }
      case _ =>
    }
    assert items[..|items|] == items;
    if estimated > 0 || unsized > 0 { estimated := estimated + RESERVE + unsized * PER_UNSIZED; }
    if available.None? { return true; }
    return !(estimated > 0 && Clamp(available.value) < estimated);
  }

  /*************** both ***************/

  /** The plan passes the checks that follow planning; without a selected device only space is checked. */
  ghost predicate Passes(items: seq<Item>, device: Option<Device>, target: string, mode: Mode, available: Option<nat>) {
    && (device.Some? ==> DeviceFits(device.value, target, mode) && Representable(items, device.value))
    && SpaceFits(items, available)
  }

  /** applyDevicePreflight, or applySpacePreflight alone. No conflict is added exactly
      when the plan passes, and no field that enters the fingerprint is touched. */
  method ApplyPreflight(items: array<Item>, device: Option<Device>, target: string, mode: Mode, available: Option<nat>)
    returns (findings: seq<Finding>)
    modifies items
    ensures findings == [] <==> Passes(old(items[..]), device, target, mode, available)
    ensures findings == [] ==> items[..] == old(items[..])
    ensures OnlyRefuses(old(items[..]), items[..])
  {
    findings := [];
    if device.Some? { findings := ApplyDevicePreflight(items, device.value, target, mode); }
    var fits := CheckSpace(items[..], available);
    if !fits { findings := findings + [NoSpace]; }
  }

  /** The device's part: no finding exactly when the device fits the profile, accepts every
      live target, and folds no two distinct ones together. */
  method ApplyDevicePreflight(items: array<Item>, d: Device, target: string, mode: Mode)
    returns (findings: seq<Finding>)
    modifies items
    ensures findings == [] <==>
              && d.enabled && d.target == target && (mode == Hardlinking ==> d.supportsHardlink)
              && Representable(old(items[..]), d)
    ensures findings == [] ==> items[..] == old(items[..])
    ensures OnlyRefuses(old(items[..]), items[..])
  {
    findings := [];
    if !d.enabled { findings := findings + [DisabledDevice]; }
    if d.target != target { findings := findings + [WrongTarget]; }
    if mode.Hardlinking? && !d.supportsHardlink { findings := findings + [NoHardlinks]; }
    var more := CheckTargets(items, d);
    findings := findings + more;
  }

  /*************** plans that pass ***************/

  /** In a conflict-free plan exactly the active requests have live items, at their targets. */
  lemma LiveIffActive(rs: seq<Request>, i: nat, out: Tree, owned: Ledger, hadManifest: bool, mode: Mode)
    requires i < |rs| && Fold(rs, out, owned, hadManifest, mode).conflicts == []
    ensures var item := Fold(rs, out, owned, hadManifest, mode).items[i];
            item.target == rs[i].target && (Live(item) <==> Active(rs[i]))
  {
    PlannedItem(rs, i, out, owned, hadManifest, mode);
    ConflictFreeIsClean(rs, out, owned, hadManifest, mode);
  }

  /** The device can hold the targets of all active requests side by side. */
  ghost predicate RequestsRepresentable(rs: seq<Request>, d: Device) {
    && (forall i | 0 <= i < |rs| && Active(rs[i]) :: AcceptsTarget(d, rs[i].target))
    && (forall i, j | 0 <= i < j < |rs| && Active(rs[i]) && Active(rs[j]) ::
          FoldKey(d, rs[i].target) == FoldKey(d, rs[j].target) ==> rs[i].target == rs[j].target)
  }

  /** What the device finds depends on the catalog alone, not on the output or the ledger:
      a package that passed still passes when it is planned again. */
  lemma RepresentableMeans(rs: seq<Request>, d: Device, out: Tree, owned: Ledger, hadManifest: bool, mode: Mode)
    requires Fold(rs, out, owned, hadManifest, mode).conflicts == []
    ensures Representable(Fold(rs, out, owned, hadManifest, mode).items, d) <==> RequestsRepresentable(rs, d)
  {
    var items := Fold(rs, out, owned, hadManifest, mode).items;
    forall i: nat | i < |rs| ensures items[i].target == rs[i].target && (Live(items[i]) <==> Active(rs[i])) {
      LiveIffActive(rs, i, out, owned, hadManifest, mode);
    }
  }

  /** A plan without conflict or finding is safe: every target it writes is accepted by
      the device and may be replaced, and two active requests whose targets the device
      cannot tell apart have one target and one known digest. */
  lemma PassedPlanIsSafe(rs: seq<Request>, d: Device, target: string, available: Option<nat>,
                         out: Tree, owned: Ledger, hadManifest: bool, mode: Mode)
    requires Fold(rs, out, owned, hadManifest, mode).conflicts == []
    requires Passes(Fold(rs, out, owned, hadManifest, mode).items, Some(d), target, mode, available)
    ensures forall i: nat | i < |rs| && Writes(Fold(rs, out, owned, hadManifest, mode).items[i].action) ::
              AcceptsTarget(d, rs[i].target) && Replaceable(out, Attribute(owned, hadManifest, rs[i]), rs[i].target)
    ensures forall i: nat, j: nat | i < j < |rs| && Active(rs[i]) && Active(rs[j])
            && FoldKey(d, rs[i].target) == FoldKey(d, rs[j].target) ::
              rs[i].target == rs[j].target && RequestSha(rs[i]) == RequestSha(rs[j]) != Blank
  {
    ConflictFreePlanIsSafe(rs, out, owned, hadManifest, mode);
    RepresentableMeans(rs, d, out, owned, hadManifest, mode);
    forall i: nat | i < |rs| && Writes(Fold(rs, out, owned, hadManifest, mode).items[i].action) ensures Active(rs[i]) {
      LiveIffActive(rs, i, out, owned, hadManifest, mode);
    }
  }

  /*************** sorted lists ***************/

  /** `s` without the elements that equal their predecessor. */
  function Compact<T(==)>(s: seq<T>): (r: seq<T>)
    ensures |r| <= |s|
  {
    if |s| < 2 then s
    else
      var n := |s| - 1;
      if s[n] == s[n - 1] then Compact(s[..n]) else Compact(s[..n]) + [s[n]]
  }

  lemma CompactNext<T>(s: seq<T>, x: T)
    ensures Compact(s + [x]) == if s != [] && s[|s| - 1] == x then Compact(s) else Compact(s) + [x]
  {
    assert (s + [x])[..|s|] == s;
  }

  /** The loop before `index`: `n` results are written, the rest and the last element
      compared are still as they were. */
  ghost predicate Compacting<T>(now: seq<T>, was: seq<T>, n: nat, index: nat) {
    && n <= index <= |was| == |now|
    && now[..n] == Compact(was[..index])
    && now[index..] == was[index..]
    && (index > 0 ==> now[index - 1] == was[index - 1])
  }

  lemma CompactStep<T>(now: seq<T>, was: seq<T>, n: nat, index: nat)
    requires Compacting(now, was, n, index) && index < |was|
    ensures now[index] == was[index]
    ensures if index == 0 || now[index] != now[index - 1] then Compacting(now[n := now[index]], was, n + 1, index + 1)
            else Compacting(now, was, n, index + 1)
  {
    assert now[index] == now[index..][0] == was[index];
    assert now[index + 1..] == now[index..][1..] && was[index + 1..] == was[index..][1..];
    assert was[..index + 1] == was[..index] + [was[index]];
    CompactNext(was[..index], was[index]);
    var next := now[n := now[index]];
    assert next[..n + 1] == now[..n] + [now[index]];
    assert next[index + 1..] == now[index + 1..];
  }

  /** uniqueStrings writes its result over its input; it never overwrites an element
      that is still to be compared. */
  method UniqueStrings<T(==)>(values: array<T>) returns (n: nat)
    modifies values
    ensures n <= values.Length && values[..n] == Compact(old(values[..]))
  {
    ghost var was := values[..];
    n := 0;
    for index := 0 to values.Length
      invariant Compacting(values[..], was, n, index)
    {
      CompactStep(values[..], was, n, index);
      var value := values[index];
      if index == 0 || value != values[index - 1] {
        ghost var before := values[..];
        values[n] := value;
        assert values[..] == before[n := value];
        n := n + 1;
      }
    }
    assert values[..][..n] == values[..n] && was[..values.Length] == was;
  }

  lemma {:induction false} CompactKeeps<T>(s: seq<T>)
    ensures forall i | 0 <= i < |Compact(s)| :: Compact(s)[i] in s
    ensures forall i | 0 <= i < |s| :: s[i] in Compact(s)
    ensures s != [] ==> Compact(s) != [] && Compact(s)[|Compact(s)| - 1] == s[|s| - 1]
  {
    if |s| >= 2 {
      CompactKeeps(s[..|s| - 1]);
      assert s == s[..|s| - 1] + [s[|s| - 1]];
    }
  }

  /** Sorted by a comparison that only equal elements pass both ways. */
  ghost predicate Ordered<T>(le: (T, T) -> bool, s: seq<T>) {
    forall i, j | 0 <= i < j < |s| :: le(s[i], s[j]) && (le(s[j], s[i]) ==> s[i] == s[j])
  }

  /** On a sorted list the result is strictly sorted, so with `CompactKeeps` it is
      the same set of elements, each once. */
  lemma {:induction false} CompactOrdered<T>(le: (T, T) -> bool, s: seq<T>)
    requires Ordered(le, s)
    ensures forall i, j | 0 <= i < j < |Compact(s)| ::
              le(Compact(s)[i], Compact(s)[j]) && Compact(s)[i] != Compact(s)[j]
  {
    if |s| >= 2 {
      var n := |s| - 1;
      var init := s[..n];
      CompactOrdered(le, init);
      CompactKeeps(init);
      var c := Compact(init);
      if s[n] != s[n - 1] {
        forall i | 0 <= i < |c| ensures c[i] != s[n] && le(c[i], s[n]) {
          var k :| 0 <= k < n && init[k] == c[i];
          assert le(s[k], s[n]);
          assert k < n - 1 ==> le(s[k], s[n - 1]);
        }
      }
    }
  }
}
