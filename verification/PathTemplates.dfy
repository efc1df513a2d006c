/** Save path templates: the server's validator (internal/catalog/sync_store.go) and
    the agent's renderer (internal/deviceagent/sync.go) read them the same way. */
module PathTemplates {
  import opened Text
  import opened Wrappers

  /*************** library text functions ***************/

  predicate BraceFree(s: string) {
    forall i | 0 <= i < |s| :: s[i] != '{' && s[i] != '}'
  }

  /** strings.Index: the first position of `sub`. */
  function Index(s: string, sub: string): Option<nat> {
    if sub <= s then Some(0)
    else if s == "" then None
    else match Index(s[1..], sub) case None => None case Some(i) => Some(i + 1)
  }

  /** Whatever Index finds is there. */
  lemma {:induction false} IndexFits(s: string, sub: string)
    ensures Index(s, sub).Some? ==> Index(s, sub).value + |sub| <= |s| && sub <= s[Index(s, sub).value..]
  {
    if !(sub <= s) && s != "" {
      IndexFits(s[1..], sub);
    }
  }

  /** strings.ReplaceAll for a non-empty `from`. */
  function ReplaceAll(s: string, from: string, to: string): string
    requires from != ""
  {
    if s == "" then ""
    else if from <= s then to + ReplaceAll(s[|from|..], from, to)
    else [s[0]] + ReplaceAll(s[1..], from, to)
  }

  /*************** the validator ***************/

  const EDITION_NAMES: set<string> := {
    "edition.id", "edition.save_namespace", "edition.serial", "edition.product_code", "edition.title_id",
    "edition.title_id_high", "edition.title_id_low" }

  const DEVICE_NAMES: set<string> := {
    "device.id", "device.target", "device.config_dir", "device.save_dir", "device.core_dir", "device.emulator_dir" }

  const RUNTIME_NAMES: set<string> := { "platform.id", "rom.stem", "driver.id", "driver.user_dir" }

  /** The variables the validator allows; the agent provides a value for each of them. */
  const ALLOWED: set<string> := EDITION_NAMES + DEVICE_NAMES + RUNTIME_NAMES

  predicate IsNameChar(c: char) {
    'a' <= c <= 'z' || '0' <= c <= '9' || c == '_' || c == '.'
  }

  predicate IsName(s: string) {
    s != "" && forall i | 0 <= i < |s| :: IsNameChar(s[i])
  }

  function NameRun(s: string): nat {
    if s != "" && IsNameChar(s[0]) then 1 + NameRun(s[1..]) else 0
  }

  lemma {:induction false} NameRunIsPrefix(s: string)
    ensures NameRun(s) <= |s| && forall i | 0 <= i < NameRun(s) :: IsNameChar(s[i])
  {
    if s != "" && IsNameChar(s[0]) {
      NameRunIsPrefix(s[1..]);
    }
  }

  const OPEN := "{{"
  const CLOSE := "}}"

  function Placeholder(name: string): string {
    OPEN + name + CLOSE
  }

  /** The name of the placeholder that `s` starts with: two braces, a name, two braces. */
  function MatchAt(s: string): Option<string> {
    if !(OPEN <= s) then None
    else
      var n := NameRun(s[2..]);
      NameRunIsPrefix(s[2..]);
      if n > 0 && CLOSE <= s[2 + n..] then Some(s[2..2 + n]) else None
  }

  lemma MatchIsPlaceholder(s: string)
    requires MatchAt(s).Some?
    ensures IsName(MatchAt(s).value) && |MatchAt(s).value| + 4 <= |s|
    ensures s == Placeholder(MatchAt(s).value) + s[|MatchAt(s).value| + 4..]
  {
    NameRunIsPrefix(s[2..]);
    var n := NameRun(s[2..]);
    assert s[2..][..n] == s[2..2 + n];
    assert s == s[..2] + s[2..2 + n] + s[2 + n..4 + n] + s[4 + n..];
  }

  /** The template with every allowed placeholder removed, left to right. */
  function Strip(s: string): string {
    if s == "" then ""
    else match MatchAt(s)
      case None => [s[0]] + Strip(s[1..])
      case Some(name) =>
        MatchIsPlaceholder(s);
        (if name in ALLOWED then "" else Placeholder(name)) + Strip(s[|name| + 4..])
  }

  function Normalize(value: string): string {
    TrimSpace(ReplaceAll(value, "\\", "/"))
  }

  predicate IsLetter(c: char) {
    'A' <= c <= 'Z' || 'a' <= c <= 'z'
  }

  predicate IsAbsolute(s: string) {
    (s != "" && s[0] == '/') || (|s| >= 3 && IsLetter(s[0]) && s[1] == ':' && s[2] == '/')
  }

  /** What the validator asks of a path besides its placeholders. */
  predicate InertPath(s: string) {
    && s != "" && Utf8Length(s) <= 1024
    && (forall c | c in s :: c != '\0' && c != '\r' && c != '\n')
    && !IsAbsolute(s)
    && ".." !in Split(s, '/')
  }

  /** ValidateSavePathTemplate. */
  predicate Accepts(value: string) {
    InertPath(Normalize(value)) && BraceFree(Strip(Normalize(value)))
  }

  /*************** the meaning of a template ***************/

  datatype Token = Text(text: string) | Variable(name: string)

  function Flatten(ts: seq<Token>): string {
    if ts == [] then ""
    else (match ts[0] case Text(t) => t case Variable(n) => Placeholder(n)) + Flatten(ts[1..])
  }

  predicate GoodToken(t: Token) {
    match t case Text(x) => x != "" && BraceFree(x) case Variable(n) => IsName(n) && n in ALLOWED
  }

  /** Brace-free texts, never empty and never side by side, between allowed placeholders. */
  predicate WellFormed(ts: seq<Token>) {
    && (forall i | 0 <= i < |ts| :: GoodToken(ts[i]))
    && (forall i | 0 <= i < |ts| - 1 :: !(ts[i].Text? && ts[i + 1].Text?))
  }

  function Prepend(c: char, ts: seq<Token>): seq<Token> {
    if ts != [] && ts[0].Text? then [Text([c] + ts[0].text)] + ts[1..] else [Text([c])] + ts
  }

  /** Reads a template: placeholders and the text between them. */
  function Parse(s: string): seq<Token> {
    if s == "" then []
    else match MatchAt(s)
      case None => Prepend(s[0], Parse(s[1..]))
      case Some(name) =>
        MatchIsPlaceholder(s);
        [Variable(name)] + Parse(s[|name| + 4..])
  }

  lemma FlattenCons(t: Token, ts: seq<Token>)
    ensures Flatten([t] + ts) == (match t case Text(x) => x case Variable(n) => Placeholder(n)) + Flatten(ts)
  {
    assert ([t] + ts)[1..] == ts;
  }

  lemma FlattenPrepend(c: char, ts: seq<Token>)
    ensures Flatten(Prepend(c, ts)) == [c] + Flatten(ts)
  {
    if ts != [] && ts[0].Text? {
      FlattenCons(Text([c] + ts[0].text), ts[1..]);
    } else {
      FlattenCons(Text([c]), ts);
    }
  }

  /** Reading loses nothing. */
  lemma {:induction false} FlattenParse(s: string)
    ensures Flatten(Parse(s)) == s
  {
    if s != "" {
      match MatchAt(s)
      case None =>
        FlattenParse(s[1..]);
        FlattenPrepend(s[0], Parse(s[1..]));
      case Some(name) =>
        MatchIsPlaceholder(s);
        FlattenParse(s[|name| + 4..]);
        assert Parse(s)[1..] == Parse(s[|name| + 4..]);
    }
  }

  lemma BraceFreeConcat(a: string, b: string)
    ensures BraceFree(a + b) <==> BraceFree(a) && BraceFree(b)
  {
    assert forall i | 0 <= i < |a| :: (a + b)[i] == a[i];
    assert forall i | 0 <= i < |b| :: (a + b)[|a| + i] == b[i];
  }

  lemma PlaceholderHasBrace(name: string)
    ensures !BraceFree(Placeholder(name))
  {
    assert Placeholder(name)[0] == '{';
  }

  lemma WellFormedCons(t: Token, ts: seq<Token>)
    requires WellFormed(ts)
    requires GoodToken(t) && (t.Text? && ts != [] ==> !ts[0].Text?)
    ensures WellFormed([t] + ts)
  {
  }

  lemma WellFormedTail(ts: seq<Token>)
    requires ts != [] && WellFormed(ts)
    ensures WellFormed(ts[1..])
  {
  }

  /** An accepted template reads as brace-free text and allowed placeholders. */
  lemma {:induction false} AcceptedIsWellFormed(s: string)
    requires BraceFree(Strip(s))
    ensures WellFormed(Parse(s))
  {
    if s != "" {
      match MatchAt(s)
      case None =>
        BraceFreeConcat([s[0]], Strip(s[1..]));
        AcceptedIsWellFormed(s[1..]);
        var rest := Parse(s[1..]);
        if rest != [] && rest[0].Text? {
          BraceFreeConcat([s[0]], rest[0].text);
          WellFormedTail(rest);
          WellFormedCons(Text([s[0]] + rest[0].text), rest[1..]);
        } else {
          WellFormedCons(Text([s[0]]), rest);
        }
      case Some(name) =>
        MatchIsPlaceholder(s);
        var rest := s[|name| + 4..];
        PlaceholderHasBrace(name);
        BraceFreeConcat(if name in ALLOWED then "" else Placeholder(name), Strip(rest));
        AcceptedIsWellFormed(rest);
        WellFormedCons(Variable(name), Parse(rest));
    }
  }

  lemma {:induction false} NameRunStops(name: string, rest: string)
    requires (forall i | 0 <= i < |name| :: IsNameChar(name[i])) && (rest == "" || !IsNameChar(rest[0]))
    ensures NameRun(name + rest) == |name|
  {
    if name != "" {
      assert (name + rest)[1..] == name[1..] + rest;
      NameRunStops(name[1..], rest);
    } else {
      assert name + rest == rest;
    }
  }

  /** A placeholder is matched where it starts, whatever follows. */
  lemma PlaceholderMatches(name: string, rest: string)
    requires IsName(name)
    ensures MatchAt(Placeholder(name) + rest) == Some(name)
    ensures (Placeholder(name) + rest)[|name| + 4..] == rest
  {
    var s := Placeholder(name) + rest;
    assert s[2..] == name + (CLOSE + rest);
    NameRunStops(name, CLOSE + rest);
    assert s[2..2 + |name|] == name;
    assert s[2 + |name|..] == CLOSE + rest;
  }

  /** Well-formed tokens and accepted templates are two views of the same thing:
      writing tokens out and reading them back gives the same tokens, and the
      validator removes exactly their placeholders. */
  lemma {:induction false} ParseFlatten(ts: seq<Token>)
    requires WellFormed(ts)
    ensures Parse(Flatten(ts)) == ts && BraceFree(Strip(Flatten(ts)))
    decreases ts, 1
  {
    if ts != [] {
      WellFormedTail(ts);
      ParseFlatten(ts[1..]);
      var rest := Flatten(ts[1..]);
      match ts[0]
      case Text(x) =>
        ParseText(x, rest);
        StripText(x, rest);
        assert ts == [Text(x)] + ts[1..];
      case Variable(n) =>
        PlaceholderMatches(n, rest);
        assert ts == [Variable(n)] + ts[1..];
    }
  }

  lemma ParseChar(c: char, s: string)
    requires c != '{'
    ensures Parse([c] + s) == Prepend(c, Parse(s)) && Strip([c] + s) == [c] + Strip(s)
  {
    assert ([c] + s)[1..] == s && ([c] + s)[0] == c;
    assert MatchAt([c] + s) == None;
  }

  lemma ParsePrefix(c: char, x: string, s: string, following: seq<Token>)
    requires c != '{' && Parse(s) == (if x == "" then following else [Text(x)] + following)
    requires x == "" && following != [] ==> !following[0].Text?
    ensures Parse([c] + s) == [Text([c] + x)] + following
  {
    ParseChar(c, s);
    if x == "" {
      assert [c] + x == [c];
    } else {
      assert Parse(s)[1..] == following;
    }
  }

  lemma {:induction false} ParseText(x: string, rest: string)
    requires x != "" && BraceFree(x) && (Parse(rest) != [] ==> !Parse(rest)[0].Text?)
    ensures Parse(x + rest) == [Text(x)] + Parse(rest)
    decreases x
  {
    var s := x[1..] + rest;
    assert x == [x[0]] + x[1..] && x + rest == [x[0]] + s;
    if |x| == 1 {
      assert s == rest;
    } else {
      ParseText(x[1..], rest);
    }
    ParsePrefix(x[0], x[1..], s, Parse(rest));
  }

  lemma {:induction false} StripText(x: string, rest: string)
    requires BraceFree(x) && BraceFree(Strip(rest))
    ensures BraceFree(Strip(x + rest))
  {
    if x == "" {
      assert x + rest == rest;
    } else {
      assert x == [x[0]] + x[1..];
      BraceFreeConcat([x[0]], x[1..]);
      StripText(x[1..], rest);
      assert x + rest == [x[0]] + (x[1..] + rest);
      StripChar(x[0], x[1..] + rest);
    }
  }

  lemma StripChar(c: char, s: string)
    requires BraceFree([c]) && BraceFree(Strip(s))
    ensures BraceFree(Strip([c] + s))
  {
    assert [c][0] == c;
    ParseChar(c, s);
    BraceFreeConcat([c], Strip(s));
  }

  /** The text with slashes only, without the white space around it. */
  function Slashed(value: string): string {
    TrimSpace(seq(|value|, i requires 0 <= i < |value| => if value[i] == '\\' then '/' else value[i]))
  }

  lemma {:induction false} BackslashesGo(value: string)
    ensures ReplaceAll(value, "\\", "/") ==
              seq(|value|, i requires 0 <= i < |value| => if value[i] == '\\' then '/' else value[i])
  {
    if value != "" {
      BackslashesGo(value[1..]);
      assert "\\" <= value <==> value[0] == '\\';
    }
  }

  /** A path that stays below the place it is put: it is not empty, has at most 1024 bytes on one
      line, begins with neither a slash nor a drive, and no part of it leads upwards. */
  predicate StaysBelow(s: string) {
    && s != "" && Utf8Length(s) <= 1024 && OneLine(s)
    && s[0] != '/' && (|s| >= 3 && s[1..3] == ":/" ==> !('A' <= Upper(s)[0] <= 'Z'))
    && forall part | part in Split(s, '/') :: part != ".."
  }

  lemma InertIff(value: string)
    ensures Normalize(value) == Slashed(value)
    ensures InertPath(Normalize(value)) <==> StaysBelow(Slashed(value))
  {
    BackslashesGo(value);
    var s := Slashed(value);
    if |s| >= 3 { assert s[1..3] == ":/" <==> s[1] == ':' && s[2] == '/'; }
  }

  /** The validator accepts a template exactly when it stays below its place and splits into
      brace-free text and allowed placeholders; the split is unique. */
  lemma AcceptedSplitsUniquely(value: string)
    ensures Accepts(value) <==>
              StaysBelow(Slashed(value)) && exists ts :: WellFormed(ts) && Flatten(ts) == Slashed(value)
    ensures forall ts, ts' :: WellFormed(ts) && WellFormed(ts') && Flatten(ts) == Flatten(ts') ==> ts == ts'
  {
    InertIff(value);
    var s := Normalize(value);
    if Accepts(value) {
      AcceptedIsWellFormed(s);
      FlattenParse(s);
      assert WellFormed(Parse(s)) && Flatten(Parse(s)) == s;
    }
    forall ts: seq<Token> | WellFormed(ts) ensures Parse(Flatten(ts)) == ts && BraceFree(Strip(Flatten(ts))) {
      ParseFlatten(ts);
    }
  }

  /*************** the agent: finding variables ***************/

  function Names(ts: seq<Token>): seq<string> {
    if ts == [] then []
    else (match ts[0] case Text(_) => [] case Variable(n) => [n]) + Names(ts[1..])
  }

  /** The text between the first opening braces and the next closing ones, and what follows. */
  function FirstVariable(s: string): (r: Option<(string, string)>)
    ensures r.Some? ==> |r.value.1| < |s|
  {
    IndexFits(s, OPEN);
    match Index(s, OPEN)
    case None => None
    case Some(left) =>
      var body := s[left + 2..];
      IndexFits(body, CLOSE);
      match Index(body, CLOSE)
      case None => None
      case Some(right) => Some((body[..right], body[right + 2..]))
  }

  /** What templateVariables collects from a position on. */
  function VariablesFrom(s: string): seq<string>
    decreases |s|
  {
    match FirstVariable(s)
    case None => []
    case Some((name, rest)) => [name] + VariablesFrom(rest)
  }

  /** One round of the search: the name and the position after its closing braces. */
  method FindVariable(s: string) returns (found: bool, name: string, next: nat)
    ensures found ==> 0 < next <= |s| && FirstVariable(s) == Some((name, s[next..]))
    ensures !found ==> FirstVariable(s) == None
  {
    found, name, next := false, "", 0;
    IndexFits(s, OPEN);
    var left := Index(s, OPEN);
    if left.None? { return; }
    var body := s[left.value + 2..];
    IndexFits(body, CLOSE);
    var right := Index(body, CLOSE);
    if right.None? { return; }
    found, name, next := true, body[..right.value], left.value + 2 + right.value + 2;
    assert body[right.value + 2..] == s[next..];
  }

  lemma VariablesUnfold(s: string, name: string, rest: string)
    requires FirstVariable(s) == Some((name, rest))
    ensures VariablesFrom(s) == [name] + VariablesFrom(rest)
  {
  }

  /** templateVariables; `rest` is the part of the template from `start` on. */
  method TemplateVariables(value: string) returns (result: seq<string>)
    ensures result == VariablesFrom(value)
  {
    result := [];
    var rest, searching := value, true;
    while searching
      invariant result + (if searching then VariablesFrom(rest) else []) == VariablesFrom(value)
      decreases searching, |rest|
    {
      var found, name, next := FindVariable(rest);
      if found {
        VariablesUnfold(rest, name, rest[next..]);
        result, rest := result + [name], rest[next..];
      } else {
        searching := false;
      }
    }
  }

  /** Text without the first character of the pattern only delays a search. */
  lemma {:induction false} IndexSkips(t: string, s: string, sub: string)
    requires sub != "" && forall i | 0 <= i < |t| :: t[i] != sub[0]
    ensures Index(t + s, sub) == match Index(s, sub) case None => None case Some(i) => Some(|t| + i)
  {
    if t != "" {
      assert (t + s)[1..] == t[1..] + s && (t + s)[0] == t[0];
      assert !(sub <= t + s);
      IndexSkips(t[1..], s, sub);
    } else {
      assert t + s == s;
    }
  }

  /** The agent finds exactly the placeholders of an accepted template, in order. */
  lemma {:induction false} VariablesAreNames(ts: seq<Token>)
    requires WellFormed(ts)
    ensures VariablesFrom(Flatten(ts)) == Names(ts)
    decreases |ts|
  {
    if ts != [] {
      WellFormedTail(ts);
      VariablesAreNames(ts[1..]);
      var rest := Flatten(ts[1..]);
      match ts[0]
      case Text(x) => VariablesSkipText(x, rest);
      case Variable(n) => VariablesTakeName(n, rest);
    }
  }

  lemma FirstVariableSkipsText(x: string, rest: string)
    requires BraceFree(x)
    ensures FirstVariable(x + rest) == FirstVariable(rest)
  {
    IndexSkips(x, rest, OPEN);
    IndexFits(rest, OPEN);
    match Index(rest, OPEN)
    case None =>
    case Some(left) => assert (x + rest)[|x| + left + 2..] == rest[left + 2..];
  }

  lemma VariablesDependOnFirst(a: string, b: string)
    requires FirstVariable(a) == FirstVariable(b)
    ensures VariablesFrom(a) == VariablesFrom(b)
  {
  }

  lemma VariablesSkipText(x: string, rest: string)
    requires BraceFree(x)
    ensures VariablesFrom(x + rest) == VariablesFrom(rest)
  {
    FirstVariableSkipsText(x, rest);
    VariablesDependOnFirst(x + rest, rest);
  }

  lemma VariablesTakeName(n: string, rest: string)
    requires IsName(n)
    ensures VariablesFrom(Placeholder(n) + rest) == [n] + VariablesFrom(rest)
  {
    var s := Placeholder(n) + rest;
    assert FirstVariable(s) == Some((n, rest)) by {
      assert OPEN <= s && s[2..] == n + (CLOSE + rest);
      IndexSkips(n, CLOSE + rest, CLOSE);
      assert CLOSE <= CLOSE + rest;
      assert s[2..][..|n|] == n;
      assert s[2..][|n| + 2..] == rest;
    }
  }

  /*************** the agent: substitution ***************/

  /** Text that may have become empty or adjacent through substitution. */
  predicate Clean(ts: seq<Token>) {
    forall i | 0 <= i < |ts| :: BraceFree(if ts[i].Text? then ts[i].text else ts[i].name)
  }

  function Substitute(ts: seq<Token>, names: set<string>, values: map<string, string>): seq<Token>
    requires names <= values.Keys
  {
    if ts == [] then []
    else
      [if ts[0].Variable? && ts[0].name in names then Text(values[ts[0].name]) else ts[0]]
      + Substitute(ts[1..], names, values)
  }

  /** Every placeholder replaced at once. */
  function Simultaneous(ts: seq<Token>, values: map<string, string>): string
    requires forall i | 0 <= i < |ts| && ts[i].Variable? :: ts[i].name in values
  {
    if ts == [] then ""
    else (match ts[0] case Text(x) => x case Variable(n) => values[n]) + Simultaneous(ts[1..], values)
  }

  predicate Among(names: seq<string>, values: map<string, string>) {
    forall i | 0 <= i < |names| :: names[i] in values
  }

  /** The loop of the renderer, for one order in which the map may be iterated. */
  function Sequential(s: string, order: seq<string>, values: map<string, string>): string
    requires Among(order, values)
  {
    if order == [] then s
    else
      var last := |order| - 1;
      ReplaceAll(Sequential(s, order[..last], values), Placeholder(order[last]), values[order[last]])
  }

  lemma {:induction false} ReplaceSkips(t: string, s: string, from: string, to: string)
    requires from != "" && forall i | 0 <= i < |t| :: t[i] != from[0]
    ensures ReplaceAll(t + s, from, to) == t + ReplaceAll(s, from, to)
  {
    if t != "" {
      assert (t + s)[1..] == t[1..] + s && (t + s)[0] == t[0];
      assert !(from <= t + s);
      ReplaceSkips(t[1..], s, from, to);
      assert t == [t[0]] + t[1..];
    } else {
      assert t + s == s;
    }
  }

  /** A placeholder starts with another one only if they are the same. */
  lemma PlaceholderPrefix(n: string, m: string, rest: string)
    requires BraceFree(n) && BraceFree(m) && Placeholder(n) <= Placeholder(m) + rest
    ensures n == m
  {
    var a, b := Placeholder(n), Placeholder(m) + rest;
    var tail := b[|a|..];
    assert b == a + tail;
    assert b[2..] == n + (CLOSE + tail) && b[2..] == m + (CLOSE + rest);
    IndexSkips(n, CLOSE + tail, CLOSE);
    IndexSkips(m, CLOSE + rest, CLOSE);
    assert CLOSE <= CLOSE + tail && CLOSE <= CLOSE + rest;
    assert b[2..][..|n|] == n && b[2..][..|m|] == m;
  }

  lemma ReplacePlaceholder(m: string, rest: string, n: string, to: string)
    requires BraceFree(m) && BraceFree(n)
    ensures ReplaceAll(Placeholder(m) + rest, Placeholder(n), to) ==
              (if m == n then to else Placeholder(m)) + ReplaceAll(rest, Placeholder(n), to)
  {
    var s, from := Placeholder(m) + rest, Placeholder(n);
    if m == n {
      assert s[|from|..] == rest;
    } else {
      if from <= s { PlaceholderPrefix(n, m, rest); }
      var inner := m + CLOSE;
      assert s[1..] == ['{'] + inner + rest;
      assert s[1..][1..] == inner + rest;
      assert s[2] == (inner + rest)[0] == inner[0] != '{';
      assert from[1] == '{';
      assert !(from <= s[1..]);
      ReplaceSkips(inner, rest, from, to);
      assert Placeholder(m) == ['{'] + (['{'] + inner);
    }
  }

  /** Replacing one placeholder in written-out tokens is replacing one kind of token. */
  lemma {:induction false} ReplaceIsSubstitute(ts: seq<Token>, n: string, values: map<string, string>)
    requires Clean(ts) && BraceFree(n) && n in values
    ensures ReplaceAll(Flatten(ts), Placeholder(n), values[n]) == Flatten(Substitute(ts, {n}, values))
  {
    if ts != [] {
      ReplaceIsSubstitute(ts[1..], n, values);
      var rest := Flatten(ts[1..]);
      match ts[0]
      case Text(x) => ReplaceSkips(x, rest, Placeholder(n), values[n]);
      case Variable(m) => ReplacePlaceholder(m, rest, n, values[n]);
    }
  }

  lemma {:induction false} SubstituteTwice(ts: seq<Token>, done: set<string>, n: string, values: map<string, string>)
    requires done <= values.Keys && n in values
    ensures Substitute(Substitute(ts, done, values), {n}, values) == Substitute(ts, done + {n}, values)
  {
    if ts != [] {
      SubstituteTwice(ts[1..], done, n, values);
      assert Substitute(ts, done, values)[1..] == Substitute(ts[1..], done, values);
    }
  }

  /** The values put in for these names contain no brace. */
  predicate PlainAmong(ts: seq<Token>, names: set<string>, values: map<string, string>) {
    names <= values.Keys && forall i | 0 <= i < |ts| && ts[i].Variable? && ts[i].name in names ::
        BraceFree(values[ts[i].name])
  }

  lemma {:induction false} SubstituteClean(ts: seq<Token>, done: set<string>, values: map<string, string>)
    requires Clean(ts) && PlainAmong(ts, done, values)
    ensures Clean(Substitute(ts, done, values))
  {
    if ts != [] {
      SubstituteClean(ts[1..], done, values);
      var rest := Substitute(ts[1..], done, values);
      assert Substitute(ts, done, values)[1..] == rest;
    }
  }

  lemma {:induction false} SubstituteAll(ts: seq<Token>, names: set<string>, values: map<string, string>)
    requires names <= values.Keys && forall i | 0 <= i < |ts| && ts[i].Variable? :: ts[i].name in names
    ensures Flatten(Substitute(ts, names, values)) == Simultaneous(ts, values)
  {
    if ts != [] {
      SubstituteAll(ts[1..], names, values);
      assert Substitute(ts, names, values)[1..] == Substitute(ts[1..], names, values);
    }
  }

  function Elements(order: seq<string>): set<string> {
    set n | n in order
  }

  lemma ElementsLast(order: seq<string>)
    requires order != []
    ensures Elements(order) == Elements(order[..|order| - 1]) + {order[|order| - 1]}
  {
    assert order == order[..|order| - 1] + [order[|order| - 1]];
  }

  lemma SubstituteOne(ts: seq<Token>, done: set<string>, n: string, values: map<string, string>)
    requires Clean(ts) && PlainAmong(ts, done, values) && n in values && BraceFree(n)
    ensures ReplaceAll(Flatten(Substitute(ts, done, values)), Placeholder(n), values[n]) ==
            Flatten(Substitute(ts, done + {n}, values))
  {
    SubstituteClean(ts, done, values);
    ReplaceIsSubstitute(Substitute(ts, done, values), n, values);
    SubstituteTwice(ts, done, n, values);
  }

  /** As long as only brace-free values are put in, the loop replaces kinds of tokens. */
  lemma {:induction false} SequentialIsSubstitute(ts: seq<Token>, order: seq<string>, values: map<string, string>)
    requires Clean(ts) && PlainAmong(ts, Elements(order), values)
    requires forall i | 0 <= i < |order| :: order[i] in values && BraceFree(order[i])
    ensures Sequential(Flatten(ts), order, values) == Flatten(Substitute(ts, Elements(order), values))
  {
    if order == [] {
      SubstituteNothing(ts, values);
      assert Elements(order) == {};
    } else {
      var last := |order| - 1;
      ElementsLast(order);
      SequentialIsSubstitute(ts, order[..last], values);
      SubstituteOne(ts, Elements(order[..last]), order[last], values);
    }
  }

  lemma {:induction false} SubstituteNothing(ts: seq<Token>, values: map<string, string>)
    ensures Substitute(ts, {}, values) == ts
  {
    if ts != [] {
      SubstituteNothing(ts[1..], values);
    }
  }

  /*************** the agreement ***************/

  lemma EditionNamesAreNames(n: string)
    requires n in EDITION_NAMES
    ensures IsName(n)
  {
  }

  lemma DeviceNamesAreNames(n: string)
    requires n in DEVICE_NAMES
    ensures IsName(n)
  {
  }

  lemma RuntimeNamesAreNames(n: string)
    requires n in RUNTIME_NAMES
    ensures IsName(n)
  {
  }

  lemma AllowedAreNames(n: string)
    requires n in ALLOWED
    ensures IsName(n) && BraceFree(n)
  {
    if n in EDITION_NAMES {
      EditionNamesAreNames(n);
    } else if n in DEVICE_NAMES {
      DeviceNamesAreNames(n);
    } else {
      RuntimeNamesAreNames(n);
    }
  }

  /** The values of the placeholders a template uses contain no brace. */
  predicate PlainValues(ts: seq<Token>, values: map<string, string>) {
    forall i | 0 <= i < |ts| && ts[i].Variable? :: ts[i].name in values && BraceFree(values[ts[i].name])
  }

  lemma {:induction false} SimultaneousBraces(ts: seq<Token>, values: map<string, string>)
    requires WellFormed(ts) && forall i | 0 <= i < |ts| && ts[i].Variable? :: ts[i].name in values
    ensures BraceFree(Simultaneous(ts, values)) <==> PlainValues(ts, values)
  {
    if ts != [] {
      WellFormedTail(ts);
      SimultaneousBraces(ts[1..], values);
      var head := match ts[0] case Text(x) => x case Variable(n) => values[n];
      BraceFreeConcat(head, Simultaneous(ts[1..], values));
      assert PlainValues(ts, values) <==> BraceFree(head) && PlainValues(ts[1..], values) by {
        assert forall i | 1 <= i < |ts| :: ts[i] == ts[1..][i - 1];
        assert ts[0].Text? ==> GoodToken(ts[0]);
      }
    }
  }

  lemma WellFormedIsClean(ts: seq<Token>)
    requires WellFormed(ts)
    ensures Clean(ts)
  {
    forall i | 0 <= i < |ts| ensures BraceFree(if ts[i].Text? then ts[i].text else ts[i].name) {
      assert GoodToken(ts[i]);
    }
  }

  lemma PlainRendering(ts: seq<Token>, order: seq<string>, values: map<string, string>)
    requires WellFormed(ts) && values.Keys == ALLOWED && Elements(order) == ALLOWED && PlainValues(ts, values)
    ensures Sequential(Flatten(ts), order, values) == Simultaneous(ts, values)
  {
    WellFormedIsClean(ts);
    forall i | 0 <= i < |order| ensures order[i] in values && BraceFree(order[i]) {
      assert order[i] in Elements(order);
      AllowedAreNames(order[i]);
    }
    SequentialIsSubstitute(ts, order, values);
    forall i | 0 <= i < |ts| && ts[i].Variable? ensures ts[i].name in ALLOWED { assert GoodToken(ts[i]); }
    SubstituteAll(ts, ALLOWED, values);
  }

  predicate HasControl(s: string) {
    exists i | 0 <= i < |s| :: s[i] == '\0' || s[i] == '\r' || s[i] == '\n'
  }

  lemma HasControlIff(s: string)
    ensures HasControl(s) <==> !OneLine(s)
  {
    forall c: char | c in s ensures exists i :: 0 <= i < |s| && s[i] == c {}
  }

  predicate SomeBlank(ts: seq<Token>, values: map<string, string>)
    requires forall i | 0 <= i < |ts| && ts[i].Variable? :: ts[i].name in values
  {
    exists i | 0 <= i < |ts| :: ts[i].Variable? && Blank(values[ts[i].name])
  }

  /** What the renderer should produce. */
  function Rendered(ts: seq<Token>, values: map<string, string>): Option<string>
    requires forall i | 0 <= i < |ts| && ts[i].Variable? :: ts[i].name in values
  {
    var s := Simultaneous(ts, values);
    if SomeBlank(ts, values) || HasControl(s) || Blank(s) then None
    else Some(s)
  }

  lemma {:induction false} NamesAre(ts: seq<Token>, n: string)
    ensures n in Names(ts) <==> exists i | 0 <= i < |ts| :: ts[i] == Variable(n)
  {
    if ts != [] {
      NamesAre(ts[1..], n);
      assert forall i | 1 <= i < |ts| :: ts[i] == ts[1..][i - 1];
      if n in Names(ts[1..]) {
        var i :| 0 <= i < |ts[1..]| && ts[1..][i] == Variable(n);
        assert ts[i + 1] == Variable(n);
      }
    }
  }

  /*************** the agent: every order of the map ***************/

  /** An order in which a map with these keys may be iterated: each key once. */
  ghost predicate Walk(order: seq<string>, names: set<string>) {
    Elements(order) == names && forall i, j | 0 <= i < j < |order| :: order[i] != order[j]
  }

  /** ... of this map. */
  ghost predicate MapWalk(order: seq<string>, values: map<string, string>) {
    Walk(order, values.Keys) && Among(order, values)
  }

  lemma WalkIsAmong(order: seq<string>, values: map<string, string>)
    requires Walk(order, values.Keys)
    ensures MapWalk(order, values)
  {
    assert forall i | 0 <= i < |order| :: order[i] in Elements(order);
  }

  lemma WalkJoin(a: seq<string>, x: set<string>, b: seq<string>, y: set<string>)
    requires Walk(a, x) && Walk(b, y) && x !! y
    ensures Walk(a + b, x + y)
  {
    assert forall i | 0 <= i < |a| :: a[i] in Elements(a);
    assert forall i | 0 <= i < |b| :: b[i] in Elements(b);
    assert Elements(a + b) == Elements(a) + Elements(b);
  }

  lemma {:induction false} WalkExists(names: set<string>) returns (order: seq<string>)
    ensures Walk(order, names)
  {
    order := [];
    if x :| x in names {
      order := WalkExists(names - {x});
      WalkJoin(order, names - {x}, [x], {x});
      assert names - {x} + {x} == names;
      order := order + [x];
    }
  }

  /** The check before the loop fails. */
  predicate Lacking(names: seq<string>, values: map<string, string>) {
    exists i | 0 <= i < |names| :: names[i] !in values || Blank(values[names[i]])
  }

  /** The checks after the loop. */
  function Checked(s: string): Option<string> {
    if !BraceFree(s) || HasControl(s) || Blank(s) then None else Some(s)
  }

  /** The textual part of renderBindingPath when the map is iterated in this order. */
  function RenderAlong(template: string, order: seq<string>, values: map<string, string>): Option<string>
    requires Among(order, values)
  {
    if Lacking(VariablesFrom(template), values) then None
    else Checked(Sequential(template, order, values))
  }

  /** Whatever replaces something, a brace stays when every replacement has one. */
  lemma {:induction false} ReplaceKeepsBraces(s: string, from: string, to: string)
    requires from != "" && !BraceFree(s) && !BraceFree(to)
    ensures !BraceFree(ReplaceAll(s, from, to))
  {
    if from <= s {
      BraceFreeConcat(to, ReplaceAll(s[|from|..], from, to));
    } else {
      BraceFreeConcat([s[0]], ReplaceAll(s[1..], from, to));
      if BraceFree([s[0]]) {
        BraceFreeConcat([s[0]], s[1..]);
        assert s == [s[0]] + s[1..];
        ReplaceKeepsBraces(s[1..], from, to);
      }
    }
  }

  lemma {:induction false} SequentialKeepsBraces(s: string, order: seq<string>, values: map<string, string>)
    requires !BraceFree(s) && Among(order, values) && forall i | 0 <= i < |order| :: !BraceFree(values[order[i]])
    ensures !BraceFree(Sequential(s, order, values))
  {
    if order != [] {
      var last := |order| - 1;
      SequentialKeepsBraces(s, order[..last], values);
      ReplaceKeepsBraces(Sequential(s, order[..last], values), Placeholder(order[last]), values[order[last]]);
    }
  }

  lemma {:induction false} SequentialJoin(s: string, a: seq<string>, b: seq<string>, values: map<string, string>)
    requires Among(a, values) && Among(b, values)
    ensures Among(a + b, values)
    ensures Sequential(s, a + b, values) == Sequential(Sequential(s, a, values), b, values)
  {
    if b == [] {
      assert a + b == a;
    } else {
      var last := |b| - 1;
      SequentialJoin(s, a, b[..last], values);
      assert (a + b)[..|a + b| - 1] == a + b[..last];
    }
  }

  lemma {:induction false} LeftOverHasBraces(ts: seq<Token>, done: set<string>, values: map<string, string>, i: nat)
    requires done <= values.Keys && i < |ts| && ts[i].Variable? && ts[i].name !in done
    ensures !BraceFree(Flatten(Substitute(ts, done, values)))
  {
    var now := Substitute(ts, done, values);
    assert now[1..] == Substitute(ts[1..], done, values);
    BraceFreeConcat(match now[0] case Text(x) => x case Variable(n) => Placeholder(n), Flatten(now[1..]));
    if i == 0 {
      PlaceholderHasBrace(ts[0].name);
    } else {
      LeftOverHasBraces(ts[1..], done, values, i - 1);
    }
  }

  /** Walking the names with braced values last leaves a brace in the text. */
  lemma BracedLast(ts: seq<Token>, values: map<string, string>, plain: set<string>, a: seq<string>, b: seq<string>)
    requires WellFormed(ts) && values.Keys == ALLOWED && !PlainValues(ts, values)
    requires plain == set n | n in ALLOWED && BraceFree(values[n])
    requires Walk(a, plain) && Walk(b, ALLOWED - plain)
    ensures Among(a + b, values) && !BraceFree(Sequential(Flatten(ts), a + b, values))
  {
    WellFormedIsClean(ts);
    forall i | 0 <= i < |a| ensures a[i] in values && BraceFree(a[i]) {
      assert a[i] in Elements(a);
      AllowedAreNames(a[i]);
    }
    forall i | 0 <= i < |b| ensures b[i] in values && !BraceFree(values[b[i]]) { assert b[i] in Elements(b); }
    SequentialIsSubstitute(ts, a, values);
    var i :| 0 <= i < |ts| && ts[i].Variable? && !(ts[i].name in values && BraceFree(values[ts[i].name]));
    LeftOverHasBraces(ts, plain, values, i);
    SequentialKeepsBraces(Sequential(Flatten(ts), a, values), b, values);
    SequentialJoin(Flatten(ts), a, b, values);
  }

  lemma BracedWalk(ts: seq<Token>, values: map<string, string>) returns (order: seq<string>)
    requires WellFormed(ts) && values.Keys == ALLOWED && !PlainValues(ts, values)
    ensures MapWalk(order, values) && !BraceFree(Sequential(Flatten(ts), order, values))
  {
    var plain := set n | n in ALLOWED && BraceFree(values[n]);
    var a := WalkExists(plain);
    var b := WalkExists(ALLOWED - plain);
    BracedLast(ts, values, plain, a, b);
    WalkJoin(a, plain, b, ALLOWED - plain);
    assert plain + (ALLOWED - plain) == ALLOWED;
    order := a + b;
    WalkIsAmong(order, values);
  }

  /** The blank check reads the template as its tokens. */
  lemma BlankIsFound(ts: seq<Token>, values: map<string, string>)
    requires WellFormed(ts) && values.Keys == ALLOWED
    ensures forall i | 0 <= i < |ts| && ts[i].Variable? :: ts[i].name in values
    ensures SomeBlank(ts, values) <==> Lacking(VariablesFrom(Flatten(ts)), values)
  {
    var names := VariablesFrom(Flatten(ts));
    VariablesAreNames(ts);
    forall i | 0 <= i < |ts| && ts[i].Variable? ensures ts[i].name in values && ts[i].name in names {
      assert GoodToken(ts[i]);
      NamesAre(ts, ts[i].name);
    }
    forall i | 0 <= i < |names| ensures exists j :: 0 <= j < |ts| && ts[j] == Variable(names[i]) {
      NamesAre(ts, names[i]);
    }
  }

  /** With values free of braces every walk renders the simultaneous substitution. */
  lemma RenderAlongIs(ts: seq<Token>, order: seq<string>, values: map<string, string>)
    requires WellFormed(ts) && values.Keys == ALLOWED && PlainValues(ts, values)
    requires MapWalk(order, values)
    ensures RenderAlong(Flatten(ts), order, values) == Rendered(ts, values)
  {
    PlainRendering(ts, order, values);
    SimultaneousBraces(ts, values);
    BlankIsFound(ts, values);
  }

  /** An accepted template is rendered whatever order the map is iterated in exactly
      when the values it uses are free of braces and not blank, and putting them in all
      at once gives a text that is not blank and has no control character. That text
      is then the result of every order. */
  lemma RendersInEveryOrderIff(ts: seq<Token>, values: map<string, string>)
    requires WellFormed(ts) && values.Keys == ALLOWED
    ensures forall i | 0 <= i < |ts| && ts[i].Variable? :: ts[i].name in values
    ensures (forall order | MapWalk(order, values) :: RenderAlong(Flatten(ts), order, values).Some?) <==>
              PlainValues(ts, values) && Rendered(ts, values).Some?
    ensures PlainValues(ts, values) ==>
              forall order | MapWalk(order, values) :: RenderAlong(Flatten(ts), order, values) == Rendered(ts, values)
  {
    BlankIsFound(ts, values);
    if PlainValues(ts, values) {
      forall order | MapWalk(order, values) ensures RenderAlong(Flatten(ts), order, values) == Rendered(ts, values) {
        RenderAlongIs(ts, order, values);
      }
      var some := WalkExists(ALLOWED);
      WalkIsAmong(some, values);
    } else {
      var order := BracedWalk(ts, values);
      assert RenderAlong(Flatten(ts), order, values) == None;
    }
  }

  lemma {:induction false} OthersStay(a: string, order: seq<string>, values: map<string, string>)
    requires IsName(a) && a !in Elements(order) && Among(order, values) && forall i | 0 <= i < |order| ::
               IsName(order[i])
    ensures Sequential(Placeholder(a), order, values) == Placeholder(a)
  {
    if order != [] {
      var last := |order| - 1;
      ElementsLast(order);
      OthersStay(a, order[..last], values);
      assert order[last] in Elements(order);
      NamesAreBraceFree(order[last]);
      NamesAreBraceFree(a);
      ReplacePlaceholder(a, "", order[last], values[order[last]]);
      assert Placeholder(a) + "" == Placeholder(a);
    }
  }

  lemma NamesAreBraceFree(n: string)
    requires IsName(n)
    ensures BraceFree(n)
  {
  }

  lemma NotBlank(s: string)
    requires OPEN <= s && CLOSE <= s[|s| - 2..]
    ensures !Blank(s)
  {
  }

  lemma PairOfSteps(s: string, a: string, b: string, values: map<string, string>)
    requires a in values && b in values
    ensures Sequential(s, [a, b], values) ==
            ReplaceAll(ReplaceAll(s, Placeholder(a), values[a]), Placeholder(b), values[b])
  {
    assert [a, b][..1] == [a] && [a][..0] == [];
    assert Sequential(s, [a], values) == ReplaceAll(s, Placeholder(a), values[a]);
  }

  /** A value that itself looks like a placeholder: replaced in turn, or left in place. */
  lemma PairRendersTwice(a: string, b: string, values: map<string, string>)
    requires a != b && IsName(a) && IsName(b) && a in values && b in values && values[a] == Placeholder(b)
    ensures Sequential(Placeholder(a), [a, b], values) == values[b]
    ensures Sequential(Placeholder(a), [b, a], values) == Placeholder(b)
  {
    var s, t := Placeholder(a), Placeholder(b);
    assert s + "" == s && t + "" == t && values[b] + "" == values[b];
    NamesAreBraceFree(a);
    NamesAreBraceFree(b);
    ReplacePlaceholder(a, "", a, values[a]);
    ReplacePlaceholder(b, "", b, values[b]);
    ReplacePlaceholder(a, "", b, values[b]);
    PairOfSteps(s, a, b, values);
    PairOfSteps(s, b, a, values);
  }

  /** Two names appended to a walk of all others. */
  lemma ThenPair(s: string, others: seq<string>, c: string, d: string, values: map<string, string>)
    requires c in values && d in values && c != d && Walk(others, values.Keys - {c, d}) && Among(others, values)
    requires Sequential(s, others, values) == s
    ensures MapWalk(others + [c, d], values) && Sequential(s, others + [c, d], values) == Sequential(s, [c, d], values)
  {
    assert values.Keys - {c, d} + {c, d} == values.Keys;
    assert Elements([c, d]) == {c, d};
    WalkJoin(others, values.Keys - {c, d}, [c, d], {c, d});
    WalkIsAmong(others + [c, d], values);
    SequentialJoin(s, others, [c, d], values);
  }

  /** Every key is a placeholder's name. */
  ghost predicate NamedKeys(values: map<string, string>) {
    forall n | n in values :: IsName(n)
  }

  lemma OthersFirst(a: string, others: seq<string>, names: set<string>, values: map<string, string>)
    requires NamedKeys(values) && a in values && names <= values.Keys - {a} && Walk(others, names)
    ensures Among(others, values) && Sequential(Placeholder(a), others, values) == Placeholder(a)
  {
    forall i | 0 <= i < |others| ensures others[i] in values && IsName(others[i]) {
      assert others[i] in Elements(others);
    }
    OthersStay(a, others, values);
  }

  lemma NothingLacking(a: string, values: map<string, string>)
    requires IsName(a) && a in values && !Blank(values[a])
    ensures !Lacking(VariablesFrom(Placeholder(a)), values)
  {
    VariablesTakeName(a, "");
    assert Placeholder(a) + "" == Placeholder(a);
    assert VariablesFrom("") == [];
  }

  lemma TwoWalks(a: string, b: string, others: seq<string>, values: map<string, string>)
    requires NamedKeys(values) && a in values && b in values && a != b && values[a] == Placeholder(b)
    requires Walk(others, values.Keys - {a, b})
    ensures MapWalk(others + [a, b], values) && Sequential(Placeholder(a), others + [a, b], values) == values[b]
    ensures MapWalk(others + [b, a], values) && Sequential(Placeholder(a), others + [b, a], values) == Placeholder(b)
  {
    OthersFirst(a, others, values.Keys - {a, b}, values);
    PairRendersTwice(a, b, values);
    ThenPair(Placeholder(a), others, a, b, values);
    assert {b, a} == {a, b};
    ThenPair(Placeholder(a), others, b, a, values);
  }

  /** Two orders of the same complete map, for a value that looks like a placeholder:
      the first renders a path, the second fails. */
  lemma BraceValueDependsOnOrder(a: string, b: string, values: map<string, string>)
    returns (x: seq<string>, y: seq<string>)
    requires values.Keys == ALLOWED && a in ALLOWED && b in ALLOWED && a != b
    requires values[a] == Placeholder(b) && Checked(values[b]) == Some(values[b])
    ensures MapWalk(x, values) && RenderAlong(Placeholder(a), x, values) == Some(values[b])
    ensures MapWalk(y, values) && RenderAlong(Placeholder(a), y, values) == None
  {
    forall n | n in values ensures IsName(n) { AllowedAreNames(n); }
    var others := WalkExists(values.Keys - {a, b});
    TwoWalks(a, b, others, values);
    x, y := others + [a, b], others + [b, a];
    NotBlank(values[a]);
    NothingLacking(a, values);
    PlaceholderHasBrace(b);
  }

  /** The blank check: every named variable has a value that is not blank. */
  method Available(names: seq<string>, values: map<string, string>) returns (all: bool, missing: string)
    ensures all <==> !Lacking(names, values)
    ensures !all ==> missing in names && (missing !in values || Blank(values[missing]))
  {
    missing := "";
    for i := 0 to |names|
      invariant forall j | 0 <= j < i :: names[j] in values && !Blank(values[names[j]])
    {
      if names[i] !in values || Blank(values[names[i]]) { return false, names[i]; }
    }
    all := true;
  }

  /** The replacement loop, walking the values in an arbitrary order. */
  method ReplaceEach(template: string, values: map<string, string>) returns (rendered: string, ghost order: seq<string>)
    ensures MapWalk(order, values)
    ensures rendered == Sequential(template, order, values)
  {
    var pending := values.Keys;
    ghost var done := {};
    rendered, order := template, [];
    while pending != {}
      invariant done + pending == values.Keys && done !! pending
      invariant Walk(order, done) && Among(order, values)
      invariant rendered == Sequential(template, order, values)
      decreases pending
    {
      var n :| n in pending;
      rendered := ReplaceAll(rendered, Placeholder(n), values[n]);
      assert (order + [n])[..|order|] == order;
      assert Elements([n]) == {n};
      WalkJoin(order, done, [n], {n});
      order, done, pending := order + [n], done + {n}, pending - {n};
    }
    assert done == values.Keys;
  }

  /** The textual part of renderBindingPath: the rendering along some order of the map. */
  method RenderBindingPath(template: string, values: map<string, string>) returns (r: Option<string>)
    requires values.Keys == ALLOWED
    ensures exists order :: MapWalk(order, values) && r == RenderAlong(template, order, values)
    ensures r.Some? ==> '{' !in r.value && '}' !in r.value && OneLine(r.value) && TrimSpace(r.value) != ""
    ensures forall ts: seq<Token> | WellFormed(ts) && Flatten(ts) == template && PlainValues(ts, values) ::
              r == Rendered(ts, values)
  {
    var names := TemplateVariables(template);
    var all, missing := Available(names, values);
    ghost var order: seq<string>;
    if !all {
      order := WalkExists(ALLOWED);
      WalkIsAmong(order, values);
      r := None;
    } else {
      var rendered;
      rendered, order := ReplaceEach(template, values);
      r := if !BraceFree(rendered) || HasControl(rendered) || Blank(rendered) then None else Some(rendered);
    }
    assert r == RenderAlong(template, order, values);
    if r.Some? { HasControlIff(r.value); }
    forall ts: seq<Token> | WellFormed(ts) && Flatten(ts) == template && PlainValues(ts, values)
      ensures r == Rendered(ts, values) {
      RenderAlongIs(ts, order, values);
    }
  }
}
