/**
 A reference evaluator for the part of the Shell Command Language of POSIX.1-2017 that consists of
 variable assignments: quoting (section 2.2), token recognition (2.3), tilde expansion (2.6.1),
 parameter expansion (2.6.2) and assignment-only simple commands (2.9.1). It reads the whole script
 character by character, so a quoted string may span lines. Whatever would run a command, redirect,
 substitute a command or leave a quote open has no result (`None`, `Stuck`).
 */
module Shell {
  import opened Text

  type Vars = map<string, string>

  /** One unit of a word: a character, quoted or not, or a parameter expansion. */
  datatype Piece = Char(c: char, quoted: bool) | Param(name: string)

  type Word = seq<Piece>

  datatype Scan = Scan(pieces: Word, rest: string) | Stuck

  predicate IsBlank(c: char) {
    c == ' ' || c == '\t'
  }

  predicate IsOperator(c: char) {
    c in "&;|<>()"
  }

  predicate EndsWord(c: char) {
    IsBlank(c) || c == '\n' || IsOperator(c)
  }

  function Prepend(pieces: Word, scan: Scan): Scan {
    match scan
    case Scan(more, rest) => Scan(pieces + more, rest)
    case Stuck => Stuck
  }

  function Chars(s: string, quoted: bool): (w: Word)
    ensures |w| == |s| && forall i :: 0 <= i < |s| ==> w[i] == Char(s[i], quoted)
  {
    seq(|s|, i requires 0 <= i < |s| => Char(s[i], quoted))
  }

  /** The length of the longest prefix of name characters. */
  function NameRun(s: string): (k: nat)
    ensures k <= |s|
    ensures forall i :: 0 <= i < k ==> IsNameChar(s[i])
    ensures k < |s| ==> !IsNameChar(s[k])
  {
    if s == "" || !IsNameChar(s[0]) then 0 else 1 + NameRun(s[1..])
  }

  predicate IsName(s: string) {
    s != "" && !IsDigit(s[0]) && forall i :: 0 <= i < |s| ==> IsNameChar(s[i])
  }

  /** What follows a `$`: a name, or a name in braces. */
  function ReadDollar(s: string): (r: Scan)
    ensures r.Scan? ==> |r.rest| < |s|
  {
    if s != "" && s[0] == '{' then
      var k := Find(s, '}');
      if k < |s| && IsName(s[1..k]) then Scan([Param(s[1..k])], s[k + 1..]) else Stuck
    else
      var k := NameRun(s);
      if IsName(s[..k]) then Scan([Param(s[..k])], s[k..]) else Stuck
  }

  /** The inside of double quotes, up to and over the closing one. */
  function ReadDouble(s: string): (r: Scan)
    ensures r.Scan? ==> |r.rest| < |s|
    decreases |s|
  {
    if s == "" || s[0] == '`' then Stuck
    else if s[0] == '"' then Scan([], s[1..])
    else if s[0] == '\\' then
      if |s| == 1 || s[1] == '\n' then Stuck
      else if s[1] in "$`\"\\" then Prepend([Char(s[1], true)], ReadDouble(s[2..]))
      else Prepend([Char('\\', true)], ReadDouble(s[1..]))
    else if s[0] == '$' then
      match ReadDollar(s[1..])
      case Stuck => Stuck
      case Scan(p, rest) => Prepend(p, ReadDouble(rest))
    else Prepend([Char(s[0], true)], ReadDouble(s[1..]))
  }

  /** A word: pieces up to the first unquoted blank, newline or operator. */
  function ReadWord(s: string): (r: Scan)
    ensures r.Scan? ==> |r.rest| <= |s|
    ensures r.Scan? && s != "" && !EndsWord(s[0]) ==> |r.rest| < |s|
    decreases |s|
  {
    if s == "" || EndsWord(s[0]) then Scan([], s)
    else if s[0] == '`' then Stuck
    else if s[0] == '\'' then
      var k := Find(s[1..], '\'');
      if k == |s| - 1 then Stuck
      else Prepend(Chars(s[1..1 + k], true), ReadWord(s[k + 2..]))
    else if s[0] == '"' then
      match ReadDouble(s[1..])
      case Stuck => Stuck
      case Scan(p, rest) => Prepend(p, ReadWord(rest))
    else if s[0] == '\\' then
      if |s| == 1 || s[1] == '\n' then Stuck
      else Prepend([Char(s[1], true)], ReadWord(s[2..]))
    else if s[0] == '$' then
      match ReadDollar(s[1..])
      case Stuck => Stuck
      case Scan(p, rest) => Prepend(p, ReadWord(rest))
    else Prepend([Char(s[0], false)], ReadWord(s[1..]))
  }

  function SkipBlanks(s: string): (t: string)
    ensures |t| <= |s| && (t == "" || !IsBlank(t[0]))
  {
    if s != "" && IsBlank(s[0]) then SkipBlanks(s[1..]) else s
  }

  datatype Command = Command(words: seq<Word>, rest: string) | NoCommand

  /** The words of one command, up to and over its newline; `#` where a token could begin is a comment. */
  function ReadCommand(s: string): (r: Command)
    ensures r.Command? && s != "" ==> |r.rest| < |s|
    ensures r.Command? ==> |r.rest| <= |s|
    decreases |s|
  {
    var t := SkipBlanks(s);
    if t == "" then Command([], "")
    else if t[0] == '\n' then Command([], t[1..])
    else if t[0] == '#' then
      var k := Find(t, '\n');
      Command([], if k < |t| then t[k + 1..] else "")
    else if IsOperator(t[0]) then NoCommand
    else
      match ReadWord(t)
      case Stuck => NoCommand
      case Scan(word, rest) =>
        match ReadCommand(rest)
        case NoCommand => NoCommand
        case Command(words, rest') => Command([word] + words, rest')
  }

  /** The number of leading unquoted name characters. */
  function NameLength(w: Word): (k: nat)
    ensures k <= |w|
    ensures forall i :: 0 <= i < k ==> w[i].Char? && !w[i].quoted && IsNameChar(w[i].c)
    ensures k < |w| ==> !(w[k].Char? && !w[k].quoted && IsNameChar(w[k].c))
  {
    if w != [] && w[0].Char? && !w[0].quoted && IsNameChar(w[0].c) then 1 + NameLength(w[1..]) else 0
  }

  function NameOf(w: Word): string {
    var k := NameLength(w);
    seq(k, i requires 0 <= i < k => w[i].c)
  }

  /** A word that begins with an unquoted name and an unquoted `=`. */
  predicate IsAssignment(w: Word) {
    NameLength(w) < |w| && w[NameLength(w)] == Char('=', false) && IsName(NameOf(w))
  }

  /**
   The value a word's pieces expand to. `atPrefix` holds where an unquoted `~` begins a tilde-prefix:
   after the `=` and after each unquoted colon. Only a bare `~` is expanded, from HOME.
   */
  function Value(w: Word, vars: Vars, atPrefix: bool): Option<string> {
    if w == [] then Some("")
    else if w[0] == Char('~', false) && atPrefix then
      if "HOME" in vars && (|w| == 1 || w[1] == Char('/', false) || w[1] == Char(':', false)) then
        Join(vars["HOME"], Value(w[1..], vars, false))
      else None
    else
      match w[0]
      case Char(c, quoted) => Join([c], Value(w[1..], vars, c == ':' && !quoted))
      case Param(name) => Join(if name in vars then vars[name] else "", Value(w[1..], vars, false))
  }

  function Join(s: string, o: Option<string>): Option<string> {
    match o
    case Some(t) => Some(s + t)
    case None => None
  }

  /** Assigns each word in turn; a word that is no assignment would be a command to run. */
  function Execute(words: seq<Word>, vars: Vars): Option<Vars> {
    if words == [] then Some(vars)
    else if !IsAssignment(words[0]) then None
    else
      match Value(words[0][NameLength(words[0]) + 1..], vars, true)
      case None => None
      case Some(v) => Execute(words[1..], vars[NameOf(words[0]) := v])
  }

  /** The variables a script of assignments leaves behind. */
  function Run(script: string, vars: Vars): Option<Vars>
    decreases |script|
  {
    if script == "" then Some(vars)
    else
      match ReadCommand(script)
      case NoCommand => None
      case Command(words, rest) =>
        match Execute(words, vars)
        case None => None
        case Some(vars') => Run(rest, vars')
  }
}
