/** The operator's environment file: `KEY=VALUE` lines in a strict subset of shell assignment syntax. */
module EnvFile {
  import opened Text

  /** The keys the file may set. */
  const KEYS: set<string> := {
    "GUARDIAN_PULUMI_DIR",
    "GUARDIAN_STACK",
    "GUARDIAN_PROXY_PULUMI_DIR",
    "HASHI_MONITOR_PULUMI_DIR",
    "GUARDIAN_PROXY_URL",
    "PULUMI_VERSION",
    "GUARDIAN_PROXY_WORKFLOW",
    "GUARDIAN_WORKFLOWS",
    "KP_BUCKET",
    "KP_ROSTER_DIR",
    "KP_THRESHOLD",
    "NEW_KP_ROSTER_DIR",
    "NEW_KP_THRESHOLD",
    "SUI_RPC",
    "SUI_GRAPHQL_URL",
    "HASHI_PACKAGE_ID",
    "HASHI_OBJECT_ID",
    "BITCOIN_NETWORK",
    "RETENTION_ENVIRONMENT",
    "TUNNEL_PORT"
  }

  predicate IsKey(key: string) {
    key in KEYS
  }

  datatype ValueError =
    | Unterminated
    | QuoteOrOperator
    | Tilde
    | TextAfterValue
    | Escape
    | OtherDollar
    | HomeUnset

  datatype LineError =
    | NotAssignment
    | Exported
    | UnknownKey
    | BadValue(error: ValueError)
    | Repeated

  /** What one line asks for. */
  datatype Entry = Skip | Set(key: string, value: string) | Bad(error: LineError)

  datatype FileError = FileError(line: nat, error: LineError)

  /** How many characters after a `$` name HOME; zero if it is anything else. */
  function HomeLength(after: string): (n: nat)
    ensures n <= |after|
  {
    if StartsWith(after, "{HOME}") then 6
    else if StartsWith(after, "HOME") && (|after| == 4 || !IsNameChar(after[4])) then 4
    else 0
  }

  function Prefixed(s: string, r: Result<string, ValueError>): Result<string, ValueError> {
    match r
    case Ok(v) => Ok(s + v)
    case Err(e) => Err(e)
  }

  lemma PrefixedTwice(a: string, b: string, r: Result<string, ValueError>)
    ensures Prefixed(a, Prefixed(b, r)) == Prefixed(a + b, r)
    ensures Prefixed("", r) == r
  {
    if r.Ok? {
      assert a + (b + r.value) == a + b + r.value;
      assert "" + r.value == r.value;
    }
  }

  function ExpandFrom(rest: string, home: Option<string>): Result<string, ValueError>
    decreases |rest|
  {
    var start := Find(rest, '$');
    if start == |rest| then Ok(rest)
    else
      var after := rest[start + 1..];
      var n := HomeLength(after);
      if n == 0 then Err(OtherDollar)
      else if home.None? then Err(HomeUnset)
      else Prefixed(rest[..start] + home.value, ExpandFrom(after[n..], home))
  }

  function ExpandSpec(text: string, home: Option<string>): Result<string, ValueError> {
    if '\\' in text || '`' in text then Err(Escape) else ExpandFrom(text, home)
  }

  method Expand(text: string, home: Option<string>) returns (r: Result<string, ValueError>)
    ensures r == ExpandSpec(text, home)
  {
    if '\\' in text || '`' in text {
      return Err(Escape);
    }
    var out, rest := "", text;
    PrefixedTwice("", "", ExpandFrom(text, home));
    while Find(rest, '$') < |rest|
      invariant ExpandFrom(text, home) == Prefixed(out, ExpandFrom(rest, home))
      decreases |rest|
    {
      var start := Find(rest, '$');
      var after := rest[start + 1..];
      var n := HomeLength(after);
      if n == 0 {
        return Err(OtherDollar);
      }
      if home.None? {
        return Err(HomeUnset);
      }
      PrefixedTwice(out, rest[..start] + home.value, ExpandFrom(after[n..], home));
      out := out + (rest[..start] + home.value);
      rest := after[n..];
    }
    r := Ok(out + rest);
  }

  /** Whether a bare word holds a quote or a shell operator. */
  predicate HasOperator(word: string) {
    exists i :: 0 <= i < |word| && word[i] in "\"';&|<>()"
  }

  predicate HasTilde(word: string) {
    (word != "" && word[0] == '~') || exists i :: 0 <= i < |word| - 1 && word[i] == ':' && word[i + 1] == '~'
  }

  predicate IsQuoted(raw: string) {
    raw != "" && (raw[0] == '"' || raw[0] == '\'')
  }

  /** The length of the value, quotes included; the whole text when a quote is left open. */
  function ValueLength(raw: string): (n: nat)
    ensures n <= |raw|
  {
    if IsQuoted(raw) then
      var end := Find(raw[1..], raw[0]);
      if end == |raw| - 1 then |raw| else end + 2
    else FindWhitespace(raw)
  }

  /** The value without what follows it. */
  function ReadValue(raw: string, home: Option<string>): Result<string, ValueError> {
    if IsQuoted(raw) then
      var end := Find(raw[1..], raw[0]);
      if end == |raw| - 1 then Err(Unterminated)
      else if raw[0] == '"' then ExpandSpec(raw[1..1 + end], home)
      else Ok(raw[1..1 + end])
    else
      var word := raw[..FindWhitespace(raw)];
      if HasOperator(word) then Err(QuoteOrOperator)
      else if HasTilde(word) then Err(Tilde)
      else ExpandSpec(word, home)
  }

  /** Whether what follows a value is nothing, or a comment set off by whitespace. */
  predicate OnlyComment(rest: string) {
    var comment := TrimStart(rest);
    comment == "" || (|comment| != |rest| && comment[0] == '#')
  }

  function ParseValue(raw: string, home: Option<string>): Result<string, ValueError> {
    match ReadValue(raw, home)
    case Err(e) => Err(e)
    case Ok(v) => if OnlyComment(raw[ValueLength(raw)..]) then Ok(v) else Err(TextAfterValue)
  }

  /** One line, already trimmed. */
  function ParseLine(line: string, home: Option<string>): Entry {
    if line == "" || line[0] == '#' then Skip
    else
      var eq := Find(line, '=');
      if eq == |line| then Bad(NotAssignment)
      else if StartsWith(line[..eq], "export ") then Bad(Exported)
      else if !IsKey(line[..eq]) then Bad(UnknownKey)
      else
        match ParseValue(line[eq + 1..], home)
        case Err(e) => Bad(BadValue(e))
        case Ok(v) => Set(line[..eq], v)
  }

  type Values = map<string, string>

  /** What each line asks for, in order. */
  function Entries(lines: seq<string>, home: Option<string>): (es: seq<Entry>)
    ensures |es| == |lines|
    ensures forall i :: 0 <= i < |lines| ==> es[i] == ParseLine(Trim(lines[i]), home)
  {
    seq(|lines|, i requires 0 <= i < |lines| => ParseLine(Trim(lines[i]), home))
  }

  /** Adds entries to `values`; the first bad or repeating one, counted from `number`, ends it. */
  function Collect(entries: seq<Entry>, number: nat, values: Values): Result<Values, FileError> {
    if entries == [] then Ok(values)
    else
      match entries[0]
      case Skip => Collect(entries[1..], number + 1, values)
      case Bad(e) => Err(FileError(number, e))
      case Set(k, v) =>
        if k in values then Err(FileError(number, Repeated))
        else Collect(entries[1..], number + 1, values[k := v])
  }

  function ParseSpec(text: string, home: Option<string>): Result<Values, FileError> {
    Collect(Entries(Lines(text), home), 1, map[])
  }

  method Parse(text: string, home: Option<string>) returns (r: Result<Values, FileError>)
    ensures r == ParseSpec(text, home)
  {
    hide ParseLine, Lines, Trim;
    var values: Values := map[];
    var lines := Lines(text);
    ghost var entries := Entries(lines, home);
    var index := 0;
    while index < |lines|
      invariant index <= |lines|
      invariant Collect(entries, 1, map[]) == Collect(entries[index..], index + 1, values)
    {
      var entry := ParseLine(Trim(lines[index]), home);
      assert entries[index..][1..] == entries[index + 1..];
      match entry {
        case Skip =>
        case Bad(e) => return Err(FileError(index + 1, e));
        case Set(k, v) =>
          if k in values {
            return Err(FileError(index + 1, Repeated));
          }
          values := values[k := v];
      }
      index := index + 1;
    }
    r := Ok(values);
  }
}
