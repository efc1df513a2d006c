/** Runtime attestation (internal/catalog/save_compatibility_store.go): what a device
    may report, and what its reports authorize. */
module Heartbeats {
  import opened Sorting
  import opened Text
  import opened Wrappers

  /*************** normal forms ***************/

  /** runtimeOSMatches. */
  predicate OsMatches(required: string, actual: string) {
    var (r, a) := (Lower(TrimSpace(required)), Lower(TrimSpace(actual)));
    r == a || (r == "linux" && a == "handheld-linux") || (r == "handheld-linux" && a == "linux")
  }

  /** normalizePairingArchitecture. */
  function Architecture(value: string): string {
    var v := Lower(TrimSpace(value));
    if v in {"x86_64", "amd64"} then "amd64"
    else if v in {"aarch64", "arm64", "arm64-v8a"} then "arm64"
    else if v in {"arm", "armv7", "armv7l", "armeabi-v7a"} then "arm"
    else if v in {"x86", "386", "i386", "i686"} then "386"
    else v
  }

  predicate IsHex(c: char) {
    '0' <= c <= '9' || 'a' <= c <= 'f'
  }

  /** normalizeRuntimeDigest. */
  function Digest(value: string): Option<string> {
    var v := Lower(TrimSpace(value));
    if |v| == 64 && forall i | 0 <= i < |v| :: IsHex(v[i]) then Some(v) else None
  }

  /*************** tables ***************/

  datatype Kind = Driver | Core

  datatype Identity = Identity(kind: Kind, runtimeId: string)

  datatype Requirement = Requirement(identity: Identity, contract: int)

  datatype Attestation = Attestation(contract: int, sha256: string, size: int)

  datatype Member = Member(driver: string, core: string, onDevice: bool, driverContract: int, coreContract: int,
                           os: string, architecture: string,
                           driverSha256: string, driverSize: int, coreSha256: string, coreSize: int)

  datatype Group = Group(id: string, enabled: bool, members: seq<Member>)

  datatype Device = Device(os: string, architecture: string, revoked: bool, profile: string)

  datatype Runtime = Runtime(contract: int, enabled: bool)

  datatype Stream = Stream(driver: string, group: string)

  datatype Binding = Binding(stream: string, driver: string, core: string, profile: string, enabled: bool)

  /** What administrators maintain. */
  datatype Registry = Registry(devices: map<string, Device>, groups: seq<Group>, runtimes: map<Identity, Runtime>,
                               streams: map<string, Stream>)

  datatype Report = Report(kind: string, runtimeId: string, contract: int, sha256: string, size: int)

  /*************** what the normal forms mean ***************/

  /** The text as the hub compares it. */
  function Folded(s: string): string {
    Lower(TrimSpace(s))
  }

  /** One system, or Linux and handheld Linux, which stand for each other. */
  predicate SameSystem(a: string, b: string) {
    Folded(a) == Folded(b) || {Folded(a), Folded(b)} == {"linux", "handheld-linux"}
  }

  /** Names that stand for one architecture. */
  const ARCHITECTURES: set<set<string>> :=
    {{"x86_64", "amd64"}, {"aarch64", "arm64", "arm64-v8a"}, {"arm", "armv7", "armv7l", "armeabi-v7a"},
     {"x86", "386", "i386", "i686"}}

  predicate SameArchitecture(a: string, b: string) {
    Folded(a) == Folded(b) || exists names | names in ARCHITECTURES :: Folded(a) in names && Folded(b) in names
  }

  lemma NamesOf(a: string, names: set<string>)
    requires names in ARCHITECTURES && Folded(a) in names
    ensures Architecture(a) in names && forall b | Folded(b) in names :: Architecture(b) == Architecture(a)
  {
  }

  lemma SameArchitectureIff(a: string, b: string)
    ensures Architecture(a) == Architecture(b) <==> SameArchitecture(a, b)
  {
    if SameArchitecture(a, b) && Folded(a) != Folded(b) {
      var names :| names in ARCHITECTURES && Folded(a) in names && Folded(b) in names;
      NamesOf(a, names);
    }
  }

  /** A member fits a device: it runs on devices, on this system and this architecture. */
  lemma MemberFitsIff(m: Member, d: Device)
    ensures MemberFits(m, d) <==>
              m.onDevice && SameSystem(m.os, d.os) && SameArchitecture(m.architecture, d.architecture)
  {
    SameArchitectureIff(m.architecture, d.architecture);
    assert "linux" != "handheld-linux" by { assert |"linux"| != |"handheld-linux"|; }
  }

  /*************** requirements ***************/

  predicate MemberFits(m: Member, d: Device) {
    m.onDevice && OsMatches(m.os, d.os) && Architecture(m.architecture) == Architecture(d.architecture)
  }

  /** The member asks for this identity under this contract. */
  predicate Asks(m: Member, r: Requirement) {
    r.identity.runtimeId != ""
    && match r.identity.kind
       case Driver => m.driver == r.identity.runtimeId && m.driverContract == r.contract
       case Core => m.core == r.identity.runtimeId && m.coreContract == r.contract
  }

  /** Some enabled group has a device member that fits and asks for it. */
  ghost predicate Required(groups: seq<Group>, d: Device, r: Requirement) {
    exists i :: 0 <= i < |groups| && groups[i].enabled && AskedBy(groups[i].members, d, r)
  }

  /** The order the list is sent in. */
  function RequirementColumns(r: Requirement): seq<Atom> {
    [Text(if r.identity.kind.Driver? then "driver" else "core"), Text(r.identity.runtimeId), Int(r.contract)]
  }

  /** Cores before drivers, then by id, then by contract. */
  predicate ListedBefore(a: Requirement, b: Requirement) {
    if a.identity.kind != b.identity.kind then a.identity.kind == Core
    else if a.identity.runtimeId != b.identity.runtimeId then Le(a.identity.runtimeId, b.identity.runtimeId)
    else a.contract <= b.contract
  }

  lemma ColumnsOrder(a: Requirement, b: Requirement)
    ensures By(RequirementColumns)(a, b) ==> ListedBefore(a, b)
  {
    var (x, y) := (RequirementColumns(a), RequirementColumns(b));
    var (v, w) := ([Int(a.contract)], [Int(b.contract)]);
    assert x == [x[0]] + ([x[1]] + v) && y == [y[0]] + ([y[1]] + w);
    FirstColumn(x[0], [x[1]] + v, y[0], [y[1]] + w);
    FirstColumn(x[1], v, y[1], w);
    assert "core"[0] < "driver"[0];
  }

  /** ListRuntimeAttestationRequirementsForDevice. */
  method RequirementsFor(groups: seq<Group>, d: Device) returns (items: seq<Requirement>)
    ensures forall r :: r in items <==> Required(groups, d, r)
    ensures forall i, j | 0 <= i < j < |items| :: items[i] != items[j]
    ensures forall i, j | 0 <= i < j < |items| :: ListedBefore(items[i], items[j])
  {
    var collected := CollectRequirements(groups, d);
    items := Sort(By(RequirementColumns), collected);
    ByIsComparison(RequirementColumns);
    SortSorts(By(RequirementColumns), collected);
    SortPermutes(By(RequirementColumns), collected);
    assert forall r :: r in items <==> r in multiset(items);
    assert forall r :: r in collected <==> r in multiset(collected);
    DistinctPermutes(collected, items);
    forall i, j | 0 <= i < j < |items| ensures ListedBefore(items[i], items[j]) { ColumnsOrder(items[i], items[j]); }
  }

  /** The groups' members in order, each requirement once. */
  method CollectRequirements(groups: seq<Group>, d: Device) returns (items: seq<Requirement>)
    ensures forall r :: r in items <==> Required(groups, d, r)
    ensures forall i, j | 0 <= i < j < |items| :: items[i] != items[j]
  {
    items := [];
    for i := 0 to |groups|
      invariant forall r :: r in items <==> Required(groups[..i], d, r)
      invariant forall a, b | 0 <= a < b < |items| :: items[a] != items[b]
    {
      var found := if groups[i].enabled then groups[i].members else [];
      items := AppendMembers(items, found, d);
      forall r ensures r in items <==> Required(groups[..i + 1], d, r) {
        RequiredNext(groups, i, d, r);
      }
    }
    assert groups[..|groups|] == groups;
  }

  lemma RequiredNext(groups: seq<Group>, n: nat, d: Device, r: Requirement)
    requires n < |groups|
    ensures Required(groups[..n + 1], d, r) <==>
              Required(groups[..n], d, r) || (groups[n].enabled && AskedBy(groups[n].members, d, r))
  {
    var (some, more) := (groups[..n], groups[..n + 1]);
    assert more[n] == groups[n] && forall i | 0 <= i < n :: more[i] == some[i];
    if i :| 0 <= i < |some| && some[i].enabled && AskedBy(some[i].members, d, r) {
      assert AskedBy(more[i].members, d, r);
    }
  }

  predicate FitsAndAsks(m: Member, d: Device, r: Requirement) {
    MemberFits(m, d) && Asks(m, r)
  }

  ghost predicate AskedBy(members: seq<Member>, d: Device, r: Requirement) {
    exists j :: 0 <= j < |members| && FitsAndAsks(members[j], d, r)
  }

  /** appendRequirement: never twice, never without an id. */
  function Append(items: seq<Requirement>, r: Requirement): seq<Requirement> {
    if r.identity.runtimeId == "" || r in items then items else items + [r]
  }

  predicate NoRepeats(items: seq<Requirement>) {
    forall i, j | 0 <= i < j < |items| :: items[i] != items[j]
  }

  lemma AppendAdds(items: seq<Requirement>, r: Requirement)
    requires NoRepeats(items)
    ensures NoRepeats(Append(items, r))
    ensures forall x :: x in Append(items, r) <==> x in items || (x == r && r.identity.runtimeId != "")
  {
  }

  function DriverOf(m: Member): Requirement { Requirement(Identity(Driver, m.driver), m.driverContract) }

  function CoreOf(m: Member): Requirement { Requirement(Identity(Core, m.core), m.coreContract) }

  lemma AsksMeans(m: Member, r: Requirement)
    ensures Asks(m, r) <==> r.identity.runtimeId != "" && (r == DriverOf(m) || r == CoreOf(m))
  {
  }

  method AppendMembers(items: seq<Requirement>, members: seq<Member>, d: Device) returns (after: seq<Requirement>)
    requires NoRepeats(items)
    ensures NoRepeats(after)
    ensures forall r :: r in after <==> r in items || AskedBy(members, d, r)
  {
    after := items;
    for j := 0 to |members|
      invariant NoRepeats(after)
      invariant forall r :: r in after <==> r in items || AskedBy(members[..j], d, r)
    {
      ghost var before := after;
      if MemberFits(members[j], d) {
        AppendAdds(after, DriverOf(members[j]));
        after := Append(after, DriverOf(members[j]));
        AppendAdds(after, CoreOf(members[j]));
        after := Append(after, CoreOf(members[j]));
      }
      forall r ensures r in after <==> r in items || AskedBy(members[..j + 1], d, r) {
        AskedNext(members, j, d, r);
        AsksMeans(members[j], r);
      }
    }
    assert members[..|members|] == members;
  }

  lemma AskedNext(members: seq<Member>, n: nat, d: Device, r: Requirement)
    requires n < |members|
    ensures AskedBy(members[..n + 1], d, r) <==> AskedBy(members[..n], d, r) || FitsAndAsks(members[n], d, r)
  {
    var (some, more) := (members[..n], members[..n + 1]);
    assert more[n] == members[n] && forall j | 0 <= j < n :: more[j] == some[j];
    if j :| 0 <= j < |some| && FitsAndAsks(some[j], d, r) {
      assert FitsAndAsks(more[j], d, r);
    }
  }

  /*************** one report ***************/

  function ParseKind(s: string): Option<Kind> {
    if s == "driver" then Some(Driver) else if s == "core" then Some(Core) else None
  }

  /** The identity and the measurement of a well-formed report. */
  function Parsed(report: Report): Option<(Requirement, Attestation)> {
    var kind := ParseKind(TrimSpace(report.kind));
    var id := TrimSpace(report.runtimeId);
    var digest := Digest(report.sha256);
    if id == "" || report.contract < 1 || report.size <= 0 || digest.None? || kind.None? then None
    else Some((Requirement(Identity(kind.value, id), report.contract),
               Attestation(report.contract, digest.value, report.size)))
  }

  const HEX_DIGITS := "0123456789abcdef"

  /** A report names a driver or a core, a contract, a size and a digest of 64 hexadecimal characters. */
  predicate WellFormed(report: Report) {
    && TrimSpace(report.kind) in {"driver", "core"} && !Blank(report.runtimeId)
    && report.contract >= 1 && report.size > 0
    && |TrimSpace(report.sha256)| == 64 && forall c | c in Folded(report.sha256) :: c in HEX_DIGITS
  }

  lemma HexDigit(c: char)
    ensures IsHex(c) <==> c in HEX_DIGITS
  {
    assert HEX_DIGITS[0] == '0' && HEX_DIGITS[1] == '1' && HEX_DIGITS[2] == '2' && HEX_DIGITS[3] == '3';
    assert HEX_DIGITS[4] == '4' && HEX_DIGITS[5] == '5' && HEX_DIGITS[6] == '6' && HEX_DIGITS[7] == '7';
    assert HEX_DIGITS[8] == '8' && HEX_DIGITS[9] == '9' && HEX_DIGITS[10] == 'a' && HEX_DIGITS[11] == 'b';
    assert HEX_DIGITS[12] == 'c' && HEX_DIGITS[13] == 'd' && HEX_DIGITS[14] == 'e' && HEX_DIGITS[15] == 'f';
  }

  lemma DigestMeans(value: string)
    ensures Digest(value).Some? <==> |TrimSpace(value)| == 64 && forall c | c in Folded(value) :: c in HEX_DIGITS
    ensures Digest(value).Some? ==> Digest(value).value == Folded(value)
  {
    var v := Folded(value);
    forall c: char ensures IsHex(c) <==> c in HEX_DIGITS { HexDigit(c); }
    assert |v| == |TrimSpace(value)|;
  }

  /** What a well-formed report reports about. */
  function AskedIn(report: Report): Requirement {
    Requirement(Identity(if TrimSpace(report.kind) == "driver" then Driver else Core, TrimSpace(report.runtimeId)),
                report.contract)
  }

  lemma ParsedMeans(report: Report)
    ensures Parsed(report).Some? <==> WellFormed(report)
    ensures Parsed(report).Some? ==>
              Parsed(report).value ==
                (AskedIn(report), Attestation(report.contract, Folded(report.sha256), report.size))
  {
    DigestMeans(report.sha256);
    assert "driver" != "core" by { assert |"driver"| != |"core"|; }
  }

  /** The runtime exists, is enabled and has this contract version. */
  predicate UpToDate(runtimes: map<Identity, Runtime>, r: Requirement) {
    r.identity in runtimes && runtimes[r.identity].enabled && runtimes[r.identity].contract == r.contract
  }

  /** Well formed, current, and asked for by the device's own requirements. */
  ghost predicate Acceptable(reg: Registry, d: Device, report: Report) {
    Parsed(report).Some? && UpToDate(reg.runtimes, Parsed(report).value.0)
      && Required(reg.groups, d, Parsed(report).value.0)
  }

  /** The scan over the members that ask for this identity. */
  method Requested(groups: seq<Group>, d: Device, r: Requirement) returns (found: bool)
    ensures found <==> Required(groups, d, r)
  {
    found := false;
    for i := 0 to |groups|
      invariant found <==> Required(groups[..i], d, r)
    {
      if groups[i].enabled {
        var asked := false;
        var members := groups[i].members;
        for j := 0 to |members|
          invariant asked <==> AskedBy(members[..j], d, r)
        {
          AskedNext(members, j, d, r);
          if Asks(members[j], r) && MemberFits(members[j], d) { asked := true; }
        }
        assert members[..|members|] == members;
        found := found || asked;
      }
      RequiredNext(groups, i, d, r);
    }
    assert groups[..|groups|] == groups;
  }

  /** validateRuntimeAttestationTx: accepts exactly the acceptable reports. */
  method Validate(reg: Registry, d: Device, report: Report) returns (r: Option<(Requirement, Attestation)>)
    ensures r.Some? <==> Acceptable(reg, d, report)
    ensures r.Some? ==> r == Parsed(report)
    ensures r.Some? <==>
              && WellFormed(report) && Required(reg.groups, d, AskedIn(report))
              && AskedIn(report).identity in reg.runtimes
              && reg.runtimes[AskedIn(report).identity] == Runtime(report.contract, true)
    ensures r.Some? ==>
              r.value == (AskedIn(report), Attestation(report.contract, Folded(report.sha256), report.size))
  {
    ParsedMeans(report);
    var parsed := Parsed(report);
    if parsed.None? || !UpToDate(reg.runtimes, parsed.value.0) { return None; }
    var requested := Requested(reg.groups, d, parsed.value.0);
    return if requested then parsed else None;
  }

  /*************** one heartbeat ***************/

  type Snapshot = map<Identity, Attestation>

  /** What a list of accepted reports says. */
  function SnapshotOf(reports: seq<Report>): Snapshot {
    if reports == [] then map[]
    else
      var (init, last) := (reports[..|reports| - 1], Parsed(reports[|reports| - 1]));
      if last.None? then SnapshotOf(init) else SnapshotOf(init)[last.value.0.identity := last.value.1]
  }

  predicate SameIdentity(a: Report, b: Report) {
    Parsed(a).Some? && Parsed(b).Some? && Parsed(a).value.0.identity == Parsed(b).value.0.identity
  }

  predicate OneReportEach(reports: seq<Report>) {
    forall i, j | 0 <= i < j < |reports| :: !SameIdentity(reports[i], reports[j])
  }

  ghost predicate AllAcceptable(reg: Registry, d: Device, reports: seq<Report>) {
    forall i | 0 <= i < |reports| :: Acceptable(reg, d, reports[i])
  }

  predicate Carries(report: Report, id: Identity) {
    Parsed(report).Some? && Parsed(report).value.0.identity == id
  }

  ghost predicate Reported(reports: seq<Report>, id: Identity) {
    exists i :: 0 <= i < |reports| && Carries(reports[i], id)
  }

  lemma ReportedLast(reports: seq<Report>, id: Identity)
    requires reports != []
    ensures Reported(reports, id) <==> Reported(reports[..|reports| - 1], id) || Carries(reports[|reports| - 1], id)
  {
    var init := reports[..|reports| - 1];
    if i :| 0 <= i < |init| && Carries(init[i], id) {
      assert Carries(reports[i], id);
    }
    if i :| 0 <= i < |reports| && Carries(reports[i], id) {
      assert i < |init| ==> Carries(init[i], id);
    }
  }

  /** An identity is in the snapshot exactly when some report carries it. */
  lemma {:induction false} SnapshotHas(reports: seq<Report>, id: Identity)
    ensures id in SnapshotOf(reports) <==> Reported(reports, id)
  {
    if reports != [] {
      SnapshotHas(reports[..|reports| - 1], id);
      ReportedLast(reports, id);
    }
  }

  /** ... and then says what that report says. */
  lemma {:induction false} SnapshotSays(reports: seq<Report>, i: nat)
    requires forall k | 0 <= k < |reports| :: Parsed(reports[k]).Some?
    requires OneReportEach(reports) && i < |reports|
    ensures var (r, a) := Parsed(reports[i]).value;
            r.identity in SnapshotOf(reports) && SnapshotOf(reports)[r.identity] == a
  {
    var n := |reports| - 1;
    if i < n {
      SnapshotSays(reports[..n], i);
      assert !SameIdentity(reports[i], reports[n]);
    }
  }

  ghost predicate Valid(reg: Registry, d: Device, reports: seq<Report>) {
    AllAcceptable(reg, d, reports) && OneReportEach(reports)
  }

  lemma PrefixNext<R>(s: seq<R>, i: nat)
    requires i < |s|
    ensures s[..i + 1][i] == s[i] && forall j | 0 <= j < i :: s[..i + 1][j] == s[..i][j]
  {
  }

  lemma AllAcceptableNext(reg: Registry, d: Device, reports: seq<Report>, i: nat)
    requires i < |reports| && AllAcceptable(reg, d, reports[..i])
    ensures AllAcceptable(reg, d, reports[..i + 1]) <==> Acceptable(reg, d, reports[i])
  {
    PrefixNext(reports, i);
    var more := reports[..i + 1];
    if Acceptable(reg, d, reports[i]) {
      forall j | 0 <= j < |more| ensures Acceptable(reg, d, more[j]) {
        if j < i { assert more[j] == reports[..i][j]; }
      }
    } else {
      assert !Acceptable(reg, d, more[i]);
    }
  }

  lemma OneReportEachNext(reports: seq<Report>, i: nat)
    requires i < |reports| && Parsed(reports[i]).Some?
    ensures OneReportEach(reports[..i + 1]) <==>
              OneReportEach(reports[..i]) && !Reported(reports[..i], Parsed(reports[i]).value.0.identity)
  {
    var (some, more, id) := (reports[..i], reports[..i + 1], Parsed(reports[i]).value.0.identity);
    assert more[i] == reports[i];
    assert forall j | 0 <= j < i :: more[j] == some[j];
    assert forall j | 0 <= j < i :: SameIdentity(some[j], reports[i]) <==> Carries(some[j], id);
  }

  lemma ValidNext(reg: Registry, d: Device, reports: seq<Report>, i: nat)
    requires i < |reports| && Valid(reg, d, reports[..i])
    ensures Valid(reg, d, reports[..i + 1]) <==>
              Acceptable(reg, d, reports[i]) && !Reported(reports[..i], Parsed(reports[i]).value.0.identity)
  {
    AllAcceptableNext(reg, d, reports, i);
    if Acceptable(reg, d, reports[i]) {
      OneReportEachNext(reports, i);
    }
  }

  lemma PrefixValid(reg: Registry, d: Device, reports: seq<Report>, n: nat)
    requires n <= |reports|
    ensures Valid(reg, d, reports) ==> Valid(reg, d, reports[..n])
  {
  }

  /** One more report is taken, or makes the whole list invalid. */
  lemma TakeReport(reg: Registry, d: Device, reports: seq<Report>, i: nat)
    requires i < |reports| && Valid(reg, d, reports[..i])
    ensures if Acceptable(reg, d, reports[i]) && Parsed(reports[i]).value.0.identity !in SnapshotOf(reports[..i])
            then Valid(reg, d, reports[..i + 1])
                 && SnapshotOf(reports[..i + 1]) ==
                    SnapshotOf(reports[..i])[Parsed(reports[i]).value.0.identity := Parsed(reports[i]).value.1]
            else !Valid(reg, d, reports)
  {
    ValidNext(reg, d, reports, i);
    PrefixValid(reg, d, reports, i + 1);
    if Acceptable(reg, d, reports[i]) {
      SnapshotHas(reports[..i], Parsed(reports[i]).value.0.identity);
      assert reports[..i + 1][..i] == reports[..i];
    }
  }

  /** The validation loop of RecordDeviceHeartbeat. */
  method ValidateAll(reg: Registry, d: Device, reports: seq<Report>) returns (r: Option<Snapshot>)
    ensures r.Some? <==> Valid(reg, d, reports)
    ensures r.Some? ==> r.value == SnapshotOf(reports)
  {
    var snapshot: Snapshot := map[];
    for i := 0 to |reports|
      invariant Valid(reg, d, reports[..i]) && snapshot == SnapshotOf(reports[..i])
    {
      TakeReport(reg, d, reports, i);
      var valid := Validate(reg, d, reports[i]);
      if valid.None? || valid.value.0.identity in snapshot { return None; }
      snapshot := snapshot[valid.value.0.identity := valid.value.1];
    }
    assert reports[..|reports|] == reports;
    return Some(snapshot);
  }

  /*************** authority ***************/

  /** runtimeMemberMatchesDevice. */
  predicate MemberMatches(m: Member, d: Device, snapshot: Snapshot) {
    && MemberFits(m, d)
    && Identity(Driver, m.driver) in snapshot
    && snapshot[Identity(Driver, m.driver)] == Attestation(m.driverContract, m.driverSha256, m.driverSize)
    && (m.core == "" || (Identity(Core, m.core) in snapshot
                         && snapshot[Identity(Core, m.core)] == Attestation(m.coreContract, m.coreSha256, m.coreSize)))
  }

  function FindGroup(groups: seq<Group>, id: string): Option<Group> {
    if groups == [] then None
    else if groups[0].id == id then Some(groups[0])
    else FindGroup(groups[1..], id)
  }

  /** The binding's runtime is an attested member of the group. */
  ghost predicate AttestedMember(g: Group, b: Binding, d: Device, snapshot: Snapshot) {
    exists j :: 0 <= j < |g.members| && g.members[j].driver == b.driver && g.members[j].core == b.core
      && MemberMatches(g.members[j], d, snapshot)
  }

  /** saveBindingRuntimeAuthorized: the stream's own driver, or attested membership. */
  ghost predicate RuntimeAuthorized(reg: Registry, d: Device, snapshot: Snapshot, b: Binding) {
    b.stream in reg.streams
    && var stream := reg.streams[b.stream];
       b.driver == stream.driver
       || (stream.group != "" && FindGroup(reg.groups, stream.group).Some?
           && FindGroup(reg.groups, stream.group).value.enabled
           && AttestedMember(FindGroup(reg.groups, stream.group).value, b, d, snapshot))
  }

  /** SaveBindingRuntimeAuthorized. */
  ghost predicate Authorized(reg: Registry, d: Device, snapshot: Snapshot, b: Binding) {
    b.enabled && (b.profile == "" || b.profile == d.profile) && RuntimeAuthorized(reg, d, snapshot, b)
  }

  /** At most 128 well-formed reports, one for each identity. */
  ghost predicate Readable(reports: seq<Report>) {
    |reports| <= 128 && OneReportEach(reports) && forall i | 0 <= i < |reports| :: Parsed(reports[i]).Some?
  }

  lemma ValidIsReadable(reg: Registry, d: Device, reports: seq<Report>)
    requires |reports| <= 128 && Valid(reg, d, reports)
    ensures Readable(reports)
  {
    forall i | 0 <= i < |reports| ensures Parsed(reports[i]).Some? { assert Acceptable(reg, d, reports[i]); }
  }

  /** One of the reports states exactly this measurement. */
  ghost predicate States(reports: seq<Report>, id: Identity, a: Attestation) {
    exists i :: 0 <= i < |reports| && Parsed(reports[i]) == Some((Requirement(id, a.contract), a))
  }

  /** The reports match the member, driver and core, by contract, digest and size. */
  ghost predicate ReportsMatch(m: Member, d: Device, reports: seq<Report>) {
    && MemberFits(m, d)
    && States(reports, Identity(Driver, m.driver), Attestation(m.driverContract, m.driverSha256, m.driverSize))
    && (m.core == "" || States(reports, Identity(Core, m.core), Attestation(m.coreContract, m.coreSha256, m.coreSize)))
  }

  /** The stream's group is enabled and has a member for the binding's runtime that these reports match. */
  ghost predicate ReportedMember(reg: Registry, d: Device, reports: seq<Report>, b: Binding)
    requires b.stream in reg.streams
  {
    var group := FindGroup(reg.groups, reg.streams[b.stream].group);
    && reg.streams[b.stream].group != "" && group.Some? && group.value.enabled
    && exists j ::
         0 <= j < |group.value.members| && group.value.members[j].driver == b.driver
           && group.value.members[j].core == b.core
                   && ReportsMatch(group.value.members[j], d, reports)
  }

  ghost predicate Agree(devices: set<string>, attestations: map<string, Snapshot>,
                        heartbeats: map<string, seq<Report>>)
  {
    && attestations.Keys == heartbeats.Keys <= devices
    && forall id | id in attestations :: attestations[id] == SnapshotOf(heartbeats[id]) && Readable(heartbeats[id])
  }

  lemma AgreeNext(devices: set<string>, attestations: map<string, Snapshot>, heartbeats: map<string, seq<Report>>,
                  id: string, reports: seq<Report>)
    requires Agree(devices, attestations, heartbeats) && Readable(reports) && id in devices
    ensures Agree(devices, attestations[id := SnapshotOf(reports)], heartbeats[id := reports])
  {
  }

  lemma AgreeWithout(devices: set<string>, attestations: map<string, Snapshot>, heartbeats: map<string, seq<Report>>,
                     id: string)
    requires Agree(devices, attestations, heartbeats)
    ensures Agree(devices - {id}, attestations - {id}, heartbeats - {id})
  {
  }

  datatype Error = NotFound | Revoked | TooMany | Unacceptable | HasRevisions | Refused

  class Hub {
    var registry: Registry
    /** Table runtime_attestations, by device. */
    var attestations: map<string, Snapshot>
    /** The two capabilities the hub computes itself: reported anything, matches a group. */
    var capabilities: map<string, (bool, bool)>
    /** Each device's last accepted heartbeat. */
    ghost var heartbeats: map<string, seq<Report>>

    /** The stored attestations of every device are exactly its last accepted reports,
        and belong to a device. */
    ghost predicate Consistent()
      reads this
    {
      Agree(registry.devices.Keys, attestations, heartbeats)
    }

    constructor (initial: Registry)
      ensures Consistent() && registry == initial
    {
      registry, attestations, capabilities, heartbeats := initial, map[], map[], map[];
    }

    /** Any change administrators make, except deleting a device. */
    method Administer(next: Registry)
      requires Consistent() && registry.devices.Keys <= next.devices.Keys
      modifies this
      ensures Consistent() && registry == next && attestations == old(attestations) && heartbeats == old(heartbeats)
    {
      registry := next;
    }

    /** DeleteDevice: its attestations are deleted with it, unless it has save revisions. */
    method DeleteDevice(id: string, hasRevisions: bool, commits: bool) returns (r: Result<(), Error>)
      requires Consistent()
      modifies this
      ensures Consistent()
      ensures r.Ok? <==> commits && !hasRevisions && id in old(registry).devices
      ensures r.Err? ==> registry == old(registry) && attestations == old(attestations) && heartbeats == old(heartbeats)
      ensures r.Ok? ==> registry == old(registry).(devices := old(registry).devices - {id})
                        && attestations == old(attestations) - {id} && heartbeats == old(heartbeats) - {id}
      ensures r.Ok? ==> SnapshotFor(id) == map[] && LastReports(id) == []
    {
      if hasRevisions { return Err(HasRevisions); }
      if id !in registry.devices { return Err(NotFound); }
      if !commits { return Err(Refused); }
      AgreeWithout(registry.devices.Keys, attestations, heartbeats, id);
      assert (registry.devices - {id}).Keys == registry.devices.Keys - {id};
      registry := registry.(devices := registry.devices - {id});
      attestations, heartbeats, capabilities := attestations - {id}, heartbeats - {id}, capabilities - {id};
      return Ok(());
    }

    function SnapshotFor(id: string): Snapshot
      reads this
    {
      if id in attestations then attestations[id] else map[]
    }

    /** RecordDeviceHeartbeat: all reports replace the device's attestations, or nothing changes. */
    method RecordDeviceHeartbeat(deviceId: string, reports: seq<Report>, commits: bool) returns (r: Result<(), Error>)
      requires Consistent()
      modifies this
      ensures Consistent() && registry == old(registry)
      ensures r.Err? ==>
                attestations == old(attestations) && heartbeats == old(heartbeats) && capabilities == old(capabilities)
      ensures r.Ok? <==>
                && commits && |reports| <= 128 && TrimSpace(deviceId) in registry.devices
                && !registry.devices[TrimSpace(deviceId)].revoked
                && Valid(registry, registry.devices[TrimSpace(deviceId)], reports)
      ensures r.Ok? ==> Recorded(TrimSpace(deviceId), reports, old(attestations), old(heartbeats), old(capabilities))
    {
      var id := TrimSpace(deviceId);
      var checked := CheckHeartbeat(id, reports);
      if checked.Err? { return Err(checked.error); }
      if !commits { return Err(Refused); }
      AgreeNext(registry.devices.Keys, attestations, heartbeats, id, reports);
      attestations := attestations[id := checked.value.0];
      heartbeats := heartbeats[id := reports];
      capabilities := capabilities[id := (|reports| > 0, checked.value.1)];
      return Ok(());
    }

    /** The device may report, and all its reports are accepted. */
    ghost predicate HeartbeatFits(id: string, reports: seq<Report>)
      reads this
    {
      |reports| <= 128 && id in registry.devices && !registry.devices[id].revoked
        && Valid(registry, registry.devices[id], reports)
    }

    /** The tables hold these reports as the device's only ones, and are otherwise as before. */
    ghost predicate Recorded(id: string, reports: seq<Report>, attested: map<string, Snapshot>,
                             heard: map<string, seq<Report>>,
                             capable: map<string, (bool, bool)>)
      requires id in registry.devices
      reads this
    {
      && attestations == attested[id := SnapshotOf(reports)] && heartbeats == heard[id := reports]
      && capabilities ==
         capable[id := (|reports| > 0, BridgeVerified(registry.groups, registry.devices[id], SnapshotOf(reports)))]
    }

    /** The checks before anything is written; gives the new attestations and whether they match a group. */
    method CheckHeartbeat(id: string, reports: seq<Report>) returns (r: Result<(Snapshot, bool), Error>)
      ensures r.Ok? <==> HeartbeatFits(id, reports)
      ensures r.Ok? ==>
                Readable(reports)
                  && r.value ==
                     (SnapshotOf(reports), BridgeVerified(registry.groups, registry.devices[id], SnapshotOf(reports)))
    {
      if |reports| > 128 { return Err(TooMany); }
      if id !in registry.devices { return Err(NotFound); }
      var d := registry.devices[id];
      if d.revoked { return Err(Revoked); }
      var snapshot := ValidateAll(registry, d, reports);
      if snapshot.None? { return Err(Unacceptable); }
      ValidIsReadable(registry, d, reports);
      var verified := VerifyBridge(registry.groups, d, snapshot.value);
      return Ok((snapshot.value, verified));
    }

    /** The reports of the device's last accepted heartbeat. */
    ghost function LastReports(id: string): seq<Report>
      reads this
    {
      if id in heartbeats then heartbeats[id] else []
    }

    lemma SnapshotIsLastReports(id: string)
      requires Consistent()
      ensures SnapshotFor(id) == SnapshotOf(LastReports(id)) && Readable(LastReports(id))
    {
    }

    /** SaveBindingRuntimeAuthorized. Across drivers the answer depends on the device's
        last accepted heartbeat alone. */
    method BindingAuthorized(deviceId: string, d: Device, b: Binding) returns (ok: bool)
      requires Consistent()
      ensures ok <==> Authorized(registry, d, SnapshotFor(deviceId), b)
      ensures b.stream in registry.streams && b.driver != registry.streams[b.stream].driver ==>
                (ok <==>
                   b.enabled && (b.profile == "" || b.profile == d.profile)
                   && ReportedMember(registry, d, LastReports(deviceId), b))
      ensures b.stream in registry.streams && b.driver == registry.streams[b.stream].driver ==>
                (ok <==> b.enabled && (b.profile == "" || b.profile == d.profile))
      ensures b.stream !in registry.streams ==> !ok
    {
      ok := RuntimeIsAuthorized(deviceId, d, b);
      if b.stream in registry.streams && b.driver != registry.streams[b.stream].driver {
        SnapshotIsLastReports(deviceId);
        HeartbeatsDecide(registry, d, LastReports(deviceId), b);
      }
    }

    /** The decision on the stored tables. */
    method RuntimeIsAuthorized(deviceId: string, d: Device, b: Binding) returns (ok: bool)
      ensures ok <==> Authorized(registry, d, SnapshotFor(deviceId), b)
    {
      if !b.enabled || (b.profile != "" && b.profile != d.profile) || b.stream !in registry.streams { return false; }
      var stream := registry.streams[b.stream];
      if b.driver == stream.driver { return true; }
      if stream.group == "" { return false; }
      var group := FindGroup(registry.groups, stream.group);
      if group.None? || !group.value.enabled { return false; }
      var members := group.value.members;
      for j := 0 to |members|
        invariant forall k | 0 <= k < j ::
                    !(members[k].driver == b.driver && members[k].core == b.core
                      && MemberMatches(members[k], d, SnapshotFor(deviceId)))
      {
        if members[j].driver == b.driver && members[j].core == b.core
          && MemberMatches(members[j], d, SnapshotFor(deviceId)) {
          return true;
        }
      }
      return false;
    }

    /** DeviceAuthorizedSaveStreams over the bindings of the device's profile. */
    method AuthorizedStreams(deviceId: string, d: Device, bindings: seq<Binding>) returns (allowed: set<string>)
      requires Consistent()
      ensures forall s :: s in allowed <==>
                exists i :: 0 <= i < |bindings| && bindings[i].stream == s
                  && !(d.profile == "" && bindings[i].profile != "")
                            && Authorized(registry, d, SnapshotFor(deviceId), bindings[i])
    {
      allowed := {};
      for i := 0 to |bindings|
        invariant forall s :: s in allowed <==>
                    exists j :: 0 <= j < i && bindings[j].stream == s && !(d.profile == "" && bindings[j].profile != "")
                                && Authorized(registry, d, SnapshotFor(deviceId), bindings[j])
      {
        if d.profile == "" && bindings[i].profile != "" { continue; }
        var ok := BindingAuthorized(deviceId, d, bindings[i]);
        if ok { allowed := allowed + {bindings[i].stream}; }
      }
    }
  }

  /** Some enabled group has a member the snapshot matches. */
  ghost predicate BridgeVerified(groups: seq<Group>, d: Device, snapshot: Snapshot) {
    exists i, j ::
        0 <= i < |groups| && 0 <= j < |groups[i].members| && groups[i].enabled
          && MemberMatches(groups[i].members[j], d, snapshot)
  }

  method VerifyBridge(groups: seq<Group>, d: Device, snapshot: Snapshot) returns (verified: bool)
    ensures verified <==> BridgeVerified(groups, d, snapshot)
  {
    for i := 0 to |groups|
      invariant forall a, b | 0 <= a < i && 0 <= b < |groups[a].members| ::
                  !(groups[a].enabled && MemberMatches(groups[a].members[b], d, snapshot))
    {
      if groups[i].enabled {
        for j := 0 to |groups[i].members|
          invariant forall b | 0 <= b < j :: !MemberMatches(groups[i].members[b], d, snapshot)
        {
          if MemberMatches(groups[i].members[j], d, snapshot) { return true; }
        }
      }
    }
    return false;
  }

  /*************** heartbeats alone decide ***************/

  lemma StatedIsInSnapshot(reports: seq<Report>, id: Identity, a: Attestation)
    requires Readable(reports) && States(reports, id, a)
    ensures id in SnapshotOf(reports) && SnapshotOf(reports)[id] == a
  {
    var i :| 0 <= i < |reports| && Parsed(reports[i]) == Some((Requirement(id, a.contract), a));
    SnapshotSays(reports, i);
  }

  lemma ParsedContract(report: Report)
    requires Parsed(report).Some?
    ensures Parsed(report).value.0.contract == Parsed(report).value.1.contract
  {
  }

  lemma InSnapshotIsStated(reports: seq<Report>, id: Identity)
    requires Readable(reports) && id in SnapshotOf(reports)
    ensures States(reports, id, SnapshotOf(reports)[id])
  {
    SnapshotHas(reports, id);
    var i :| 0 <= i < |reports| && Carries(reports[i], id);
    SnapshotSays(reports, i);
    ParsedContract(reports[i]);
    var (r, a) := Parsed(reports[i]).value;
    assert Parsed(reports[i]) == Some((Requirement(id, a.contract), a));
  }

  lemma StatesIffInSnapshot(reports: seq<Report>, id: Identity, a: Attestation)
    requires Readable(reports)
    ensures States(reports, id, a) <==> id in SnapshotOf(reports) && SnapshotOf(reports)[id] == a
  {
    if States(reports, id, a) { StatedIsInSnapshot(reports, id, a); }
    if id in SnapshotOf(reports) { InSnapshotIsStated(reports, id); }
  }

  /** A binding whose driver is not its stream's is authorized exactly when the stream's
      group is enabled and has a member for the binding's runtime that the reports match. */
  lemma HeartbeatsDecide(reg: Registry, d: Device, reports: seq<Report>, b: Binding)
    requires Readable(reports)
    requires b.stream in reg.streams && b.driver != reg.streams[b.stream].driver
    ensures RuntimeAuthorized(reg, d, SnapshotOf(reports), b) <==> ReportedMember(reg, d, reports, b)
  {
    forall m: Member ensures MemberMatches(m, d, SnapshotOf(reports)) <==> ReportsMatch(m, d, reports) {
      StatesIffInSnapshot(reports, Identity(Driver, m.driver),
                          Attestation(m.driverContract, m.driverSha256, m.driverSize));
      StatesIffInSnapshot(reports, Identity(Core, m.core), Attestation(m.coreContract, m.coreSha256, m.coreSize));
    }
  }

  /*************** a size the protocol document rules out ***************/

  const DOCUMENTED_LIMIT := 512 * 1024 * 1024

  const ZEROS: string := seq(64, i => '0')

  /** The hub asks only for a positive size: this report is accepted. */
  lemma OversizeIsAccepted() returns (reg: Registry, d: Device, report: Report)
    ensures report.size > DOCUMENTED_LIMIT && Acceptable(reg, d, report)
  {
    var m := Member("d", "", true, 1, 0, "linux", "x86_64", ZEROS, 1, "", 0);
    d := Device("linux", "x86_64", false, "");
    report := Report("driver", "d", 1, ZEROS, DOCUMENTED_LIMIT + 1);
    var r := Requirement(Identity(Driver, "d"), 1);
    reg := Registry(map[], [Group("g", true, [m])], map[Identity(Driver, "d") := Runtime(1, true)], map[]);
    TrimmedStays("driver");
    TrimmedStays("d");
    TrimmedStays(ZEROS);
    assert Lower(ZEROS) == ZEROS;
    assert MemberFits(m, d) && Asks(m, r);
    assert AskedBy([m], d, r) by { assert FitsAndAsks([m][0], d, r); }
    assert Parsed(report) == Some((r, Attestation(1, ZEROS, report.size)));
    assert reg.groups[0].enabled && AskedBy(reg.groups[0].members, d, r);
  }
}
