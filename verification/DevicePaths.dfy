/** Which target paths a device accepts (`validateDeviceTargetPath` in
    internal/bundler/device_preflight.go). */
module DevicePaths {
  import opened Storage
  import opened Text

  /** The path fields of a device profile. */
  datatype PathRule = PathRule(windows: bool, maxPath: int, illegal: string)

  const RESERVED_NAMES: set<string> := {"CON", "PRN", "AUX", "NUL", "CLOCK$"}

  /** The text before the first dot. */
  function BeforeDot(s: string): string {
    if s == "" || s[0] == '.' then "" else [s[0]] + BeforeDot(s[1..])
  }

  /** isWindowsReservedName. */
  predicate IsReservedName(segment: string) {
    var base := BeforeDot(Upper(segment));
    base in RESERVED_NAMES || (|base| == 4 && base[..3] in {"COM", "LPT"} && '1' <= base[3] <= '9')
  }

  lemma {:induction false} BeforeDotIs(s: string, name: string)
    requires '.' !in name
    ensures BeforeDot(s) == name <==> s == name || name + "." <= s
  {
    if s != "" && s[0] != '.' && name != "" {
      assert forall c | c in name[1..] :: c in name;
      BeforeDotIs(s[1..], name[1..]);
      assert s == [s[0]] + s[1..] && name == [name[0]] + name[1..];
      assert name + "." == [name[0]] + (name[1..] + ".");
    }
  }

  /** A name that Windows keeps for a device. */
  predicate IsDeviceName(name: string) {
    name in {"CON", "PRN", "AUX", "NUL", "CLOCK$"}
    || exists digit: char | '1' <= digit <= '9' :: name == "COM" + [digit] || name == "LPT" + [digit]
  }

  lemma NoDotInDeviceName(name: string)
    requires IsDeviceName(name)
    ensures '.' !in name
  {
  }

  lemma DeviceNameIff(base: string)
    ensures IsDeviceName(base) <==>
              base in RESERVED_NAMES || (|base| == 4 && base[..3] in {"COM", "LPT"} && '1' <= base[3] <= '9')
  {
    if |base| == 4 { assert base == base[..3] + [base[3]]; }
  }

  /** A segment is reserved when it is a device name, in any case, or begins with one and a dot. */
  lemma ReservedMeans(segment: string)
    ensures IsReservedName(segment) <==>
              exists name | IsDeviceName(name) :: Upper(segment) == name || name + "." <= Upper(segment)
  {
    var s := Upper(segment);
    var base := BeforeDot(s);
    DeviceNameIff(base);
    if IsReservedName(segment) {
      NoDotInDeviceName(base);
      BeforeDotIs(s, base);
    }
    if name :| IsDeviceName(name) && (s == name || name + "." <= s) {
      NoDotInDeviceName(name);
      BeforeDotIs(s, name);
    }
  }

  predicate LegalCharacter(r: PathRule, c: char) {
    c !in r.illegal && (r.windows ==> c >= ' ')
  }

  /** A device of this kind can have a file or directory of this name. */
  predicate PortableSegment(r: PathRule, s: string) {
    && s != "" && LegalText(r, s)
    && (r.windows ==> s[|s| - 1] != ' ' && s[|s| - 1] != '.' && !IsReservedName(s))
  }

  /** The length the device counts. */
  function PathLength(r: PathRule, target: string): nat {
    if r.windows then Utf16Length(target) else Utf8Length(target)
  }

  predicate FitsLength(r: PathRule, target: string) {
    r.maxPath > 0 ==> PathLength(r, target) <= r.maxPath
  }

  /** Every part of the trimmed path is portable and the whole is short enough. */
  predicate Accepts(r: PathRule, target: string) {
    var path := TrimSpace(target);
    && path != "" && FitsLength(r, path)
    && forall i | 0 <= i < |Split(path, '/')| :: PortableSegment(r, Split(path, '/')[i])
  }

  /** The checks of one segment. */
  method ValidateSegment(segment: string, r: PathRule) returns (ok: bool)
    ensures ok <==> PortableSegment(r, segment)
    ensures ok <==>
              && segment != "" && (forall c | c in segment :: c !in r.illegal)
              && (r.windows ==> (forall c | c in segment :: c as int >= 32)
                                && segment[|segment| - 1] !in {' ', '.'} && !IsReservedName(segment))
  {
    if segment == "" { return false; }
    for i := 0 to |segment|
      invariant forall j | 0 <= j < i :: LegalCharacter(r, segment[j])
    {
      if segment[i] in r.illegal { return false; }
      if r.windows && segment[i] < ' ' { return false; }
    }
    if r.windows {
      if segment[|segment| - 1] == ' ' || segment[|segment| - 1] == '.' { return false; }
      if IsReservedName(segment) { return false; }
    }
    return true;
  }

  /** validateDeviceTargetPath. */
  method ValidateDeviceTargetPath(target: string, r: PathRule) returns (ok: bool)
    ensures ok <==> Accepts(r, target)
  {
    var path := TrimSpace(target);
    if path == "" { return false; }
    if r.maxPath > 0 && PathLength(r, path) > r.maxPath { return false; }
    var segments := Split(path, '/');
    for i := 0 to |segments|
      invariant forall j | 0 <= j < i :: PortableSegment(r, segments[j])
    {
      var portable := ValidateSegment(segments[i], r);
      if !portable { return false; }
    }
    return true;
  }

  /*************** what the rule means for a path ***************/

  /** The path as the plan writes it. */
  function Joined(p: Path): string {
    if p == [] then "" else if |p| == 1 then p[0] else p[0] + "/" + Joined(p[1..])
  }

  /** A cleaned path: at least one segment, and no separator inside one. */
  predicate Segmented(p: Path) {
    p != [] && forall i | 0 <= i < |p| :: '/' !in p[i]
  }

  lemma {:induction false} SplitSegment(s: string)
    requires '/' !in s
    ensures Split(s, '/') == [s]
  {
    if s != "" {
      assert forall c | c in s[1..] :: c in s;
      SplitSegment(s[1..]);
      assert [s[0]] + s[1..] == s;
    }
  }

  lemma {:induction false} SplitFirst(s: string, rest: string)
    requires '/' !in s
    ensures Split(s + "/" + rest, '/') == [s] + Split(rest, '/')
  {
    var whole := s + "/" + rest;
    if s == "" {
      assert whole[1..] == rest;
    } else {
      assert forall c | c in s[1..] :: c in s;
      SplitFirst(s[1..], rest);
      assert whole[1..] == s[1..] + "/" + rest && whole[0] == s[0];
      assert [s[0]] + s[1..] == s;
    }
  }

  /** Splitting the written path gives back its segments. */
  lemma {:induction false} SplitJoined(p: Path)
    requires Segmented(p)
    ensures Split(Joined(p), '/') == p
    decreases |p|
  {
    if |p| == 1 {
      SplitSegment(p[0]);
    } else {
      SplitJoined(p[1..]);
      SplitFirst(p[0], Joined(p[1..]));
      assert p == [p[0]] + p[1..];
    }
  }

  /** A path that neither starts nor ends in white space is accepted exactly when it is
      short enough and the device can have each of its segments. */
  lemma AcceptsMeans(r: PathRule, p: Path)
    requires Segmented(p) && Trimmed(Joined(p))
    ensures Accepts(r, Joined(p)) <==>
              && Joined(p) != "" && (forall i | 0 <= i < |p| :: PortableSegment(r, p[i]))
              && (r.maxPath > 0 ==> r.maxPath >= if r.windows then Utf16Length(Joined(p)) else Utf8Length(Joined(p)))
  {
    TrimmedStays(Joined(p));
    SplitJoined(p);
  }

  /*************** what trimming hides ***************/

  lemma {:induction false} SplitPrepend(a: string, t: string)
    requires '/' !in a
    ensures Split(a + t, '/') == [a + Split(t, '/')[0]] + Split(t, '/')[1..]
  {
    if a == "" {
      assert a + t == t && a + Split(t, '/')[0] == Split(t, '/')[0];
    } else {
      assert forall c | c in a[1..] :: c in a;
      SplitPrepend(a[1..], t);
      assert (a + t)[1..] == a[1..] + t && (a + t)[0] == a[0];
      assert [a[0]] + (a[1..] + Split(t, '/')[0]) == a + Split(t, '/')[0];
    }
  }

  /** `b` after the last part. */
  function Glued(parts: seq<string>, b: string): seq<string>
    requires parts != []
  {
    parts[..|parts| - 1] + [parts[|parts| - 1] + b]
  }

  lemma GluedCons(x: string, rest: seq<string>, b: string)
    requires rest != []
    ensures Glued([x] + rest, b) == [x] + Glued(rest, b)
  {
  }

  lemma GluedHead(c: char, rest: seq<string>, b: string)
    requires rest != []
    ensures Glued([[c] + rest[0]] + rest[1..], b) == [[c] + Glued(rest, b)[0]] + Glued(rest, b)[1..]
  {
    if |rest| == 1 { assert [c] + (rest[0] + b) == [c] + rest[0] + b; }
  }

  lemma {:induction false} SplitAppend(t: string, b: string)
    requires '/' !in b
    ensures Split(t + b, '/') == Glued(Split(t, '/'), b)
  {
    if t == "" {
      SplitSegment(b);
      assert t + b == b && "" + b == b;
    } else {
      SplitAppend(t[1..], b);
      assert (t + b)[1..] == t[1..] + b && (t + b)[0] == t[0];
      GluedCons("", Split(t[1..], '/'), b);
      GluedHead(t[0], Split(t[1..], '/'), b);
    }
  }

  /** Padding goes to the first and the last part. */
  ghost predicate Padded(whole: seq<string>, parts: seq<string>, a: string, b: string) {
    var n := |parts| - 1;
    && |whole| == |parts| > 0 && (forall i | 0 < i < n :: whole[i] == parts[i])
    && (n == 0 ==> whole[0] == a + parts[0] + b)
    && (n > 0 ==> whole[0] == a + parts[0] && whole[n] == parts[n] + b)
  }

  lemma SplitPadded(a: string, t: string, b: string)
    requires '/' !in a && '/' !in b
    ensures Padded(Split(a + t + b, '/'), Split(t, '/'), a, b)
  {
    SplitAppend(t, b);
    SplitPrepend(a, t + b);
    assert a + (t + b) == a + t + b;
    GluedIsPadded(Split(t, '/'), a, b);
  }

  lemma GluedIsPadded(parts: seq<string>, a: string, b: string)
    requires parts != []
    ensures var glued := Glued(parts, b);
            Padded([a + glued[0]] + glued[1..], parts, a, b)
  {
    if |parts| == 1 { assert a + (parts[0] + b) == a + parts[0] + b; }
  }

  /** What is cut off in front and behind. */
  function CutLeft(s: string): string {
    TrimLeftTrims(s);
    s[..|s| - |TrimLeft(s)|]
  }

  function CutRight(s: string): string {
    TrimRightTrims(TrimLeft(s));
    TrimLeft(s)[|TrimSpace(s)|..]
  }

  lemma {:induction false} CutLeftIsSpace(s: string)
    ensures forall c | c in CutLeft(s) :: IsSpace(c)
  {
    if s != "" && IsSpace(s[0]) {
      CutLeftIsSpace(s[1..]);
      TrimLeftTrims(s[1..]);
      assert CutLeft(s) == [s[0]] + CutLeft(s[1..]);
    }
  }

  lemma {:induction false} CutIsSpace(s: string)
    ensures |TrimRight(s)| <= |s| && forall c | c in s[|TrimRight(s)|..] :: IsSpace(c)
  {
    TrimRightTrims(s);
    if s != "" && IsSpace(s[|s| - 1]) {
      var n := |s| - 1;
      CutIsSpace(s[..n]);
      assert s[|TrimRight(s)|..] == s[..n][|TrimRight(s)|..] + [s[n]];
    }
  }

  lemma CutsAre(s: string)
    ensures s == CutLeft(s) + TrimSpace(s) + CutRight(s)
    ensures (forall i | 0 <= i < |CutLeft(s)| :: IsSpace(CutLeft(s)[i])) && forall i | 0 <= i < |CutRight(s)| ::
              IsSpace(CutRight(s)[i])
  {
    TrimLeftTrims(s);
    TrimRightTrims(TrimLeft(s));
    CutLeftIsSpace(s);
    CutIsSpace(TrimLeft(s));
    assert s == CutLeft(s) + TrimLeft(s);
    assert TrimLeft(s) == TrimSpace(s) + CutRight(s);
  }

  lemma SpaceBeforeIsNotReserved(a: string, s: string)
    requires a != "" && IsSpace(a[0])
    ensures !IsReservedName(a + s)
  {
    var whole := Upper(a + s);
    assert whole[0] == a[0] && whole[0] != '.';
    assert BeforeDot(whole)[0] == a[0];
    assert forall n | n in RESERVED_NAMES :: n[0] != a[0];
    assert "COM"[0] != a[0] && "LPT"[0] != a[0];
  }

  predicate LegalText(r: PathRule, s: string) {
    forall i | 0 <= i < |s| :: LegalCharacter(r, s[i])
  }

  lemma LegalConcat(r: PathRule, a: string, b: string)
    ensures LegalText(r, a + b) <==> LegalText(r, a) && LegalText(r, b)
  {
    assert forall i | 0 <= i < |a| :: (a + b)[i] == a[i];
    assert forall i | 0 <= i < |b| :: (a + b)[|a| + i] == b[i];
  }

  /** A segment that white space precedes is as portable as its characters are legal. */
  lemma PaddedFront(r: PathRule, a: string, s: string)
    requires PortableSegment(r, s) && forall i | 0 <= i < |a| :: IsSpace(a[i])
    ensures PortableSegment(r, a + s) <==> LegalText(r, a)
  {
    LegalConcat(r, a, s);
    assert (a + s)[|a + s| - 1] == s[|s| - 1];
    if a != "" {
      SpaceBeforeIsNotReserved(a, s);
    } else {
      assert a + s == s;
    }
  }

  /** White space around a portable segment keeps it portable when it is legal, and on
      Windows none follows. */
  lemma PaddedSegment(r: PathRule, a: string, s: string, b: string)
    requires PortableSegment(r, s) && (forall i | 0 <= i < |a| :: IsSpace(a[i])) && forall i | 0 <= i < |b| ::
               IsSpace(b[i])
    ensures PortableSegment(r, a + s + b) <==> LegalText(r, a) && LegalText(r, b) && (r.windows ==> b == "")
  {
    LegalConcat(r, a, s);
    LegalConcat(r, a + s, b);
    PaddedFront(r, a, s);
    if b != "" {
      assert (a + s + b)[|a + s + b| - 1] == b[|b| - 1];
    } else {
      assert a + s + b == a + s;
    }
  }

  lemma SpaceIsNoSeparator(s: string)
    requires forall i | 0 <= i < |s| :: IsSpace(s[i])
    ensures '/' !in s
  {
  }

  /** The segments of a path and those that are looked at differ by what is cut off. */
  lemma CutSegments(p: Path)
    requires Segmented(p)
    ensures Padded(p, Split(TrimSpace(Joined(p)), '/'), CutLeft(Joined(p)), CutRight(Joined(p)))
  {
    var j := Joined(p);
    CutsAre(j);
    SpaceIsNoSeparator(CutLeft(j));
    SpaceIsNoSeparator(CutRight(j));
    SplitPadded(CutLeft(j), TrimSpace(j), CutRight(j));
    SplitJoined(p);
  }

  /** Padding the ends of portable parts keeps all of them portable under the same condition. */
  lemma PaddedParts(r: PathRule, whole: seq<string>, parts: seq<string>, a: string, b: string)
    requires Padded(whole, parts, a, b) && (forall i | 0 <= i < |a| :: IsSpace(a[i])) && forall i | 0 <= i < |b| ::
               IsSpace(b[i])
    requires forall i | 0 <= i < |parts| :: PortableSegment(r, parts[i])
    ensures (forall i | 0 <= i < |whole| :: PortableSegment(r, whole[i])) <==>
              LegalText(r, a) && LegalText(r, b) && (r.windows ==> b == "")
  {
    var n := |parts| - 1;
    if n == 0 {
      PaddedSegment(r, a, parts[0], b);
    } else {
      assert a + parts[0] + "" == whole[0] && "" + parts[n] + b == whole[n];
      PaddedSegment(r, a, parts[0], "");
      PaddedSegment(r, "", parts[n], b);
      assert forall i | 0 <= i < |whole| :: i == 0 || i == n || whole[i] == parts[i];
    }
  }

  /** The device can have every segment of an accepted path exactly when the white space
      around the path is legal, and on Windows none follows it. */
  lemma AcceptedIsPortableIff(r: PathRule, p: Path)
    requires Segmented(p) && Accepts(r, Joined(p))
    ensures var before, behind := CutLeft(Joined(p)), CutRight(Joined(p));
            (forall i | 0 <= i < |p| :: PortableSegment(r, p[i])) <==>
              LegalText(r, before) && LegalText(r, behind) && (r.windows ==> behind == "")
  {
    CutsAre(Joined(p));
    CutSegments(p);
    PaddedParts(r, p, Split(TrimSpace(Joined(p)), '/'), CutLeft(Joined(p)), CutRight(Joined(p)));
  }

  /** Windows cannot have a name that ends in a space, but a target of that name is accepted. */
  lemma TrailingSpaceIsAccepted()
    ensures var r, p := PathRule(true, 255, ""), ["a "];
            Segmented(p) && Accepts(r, Joined(p)) && !PortableSegment(r, p[0])
  {
    var r := PathRule(true, 255, "");
    assert TrimRight("a ") == "a" by { assert "a "[..1] == "a"; }
    SplitSegment("a");
    assert Upper("a") == "A" && "A"[1..] == "";
    assert BeforeDot("A") == "A" && |"A"| == 1;
    assert forall s | s in RESERVED_NAMES :: |s| >= 3;
    assert "a"[1..] == "" && Utf16Length("a") == 1;
  }
}
