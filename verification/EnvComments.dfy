/** Why exactness is stated for plain trailing comments: one can undo the difference its own line makes. */
module EnvComments {
  import opened Text
  import opened Shell
  import opened EnvFile
  import opened EnvShell
  import opened EnvAgreement
  import opened EnvLimits
  import opened EnvRoundTrip

  const NBSP := "\U{A0}"

  /** To the parser, two comments; to a shell, one quoted newline. */
  const BRIDGE := "\U{A0}#'\n#' "

  /** An empty assignment, then the same again behind the bridge. */
  function Twice(k: string): string {
    k + ['='] + (BRIDGE + Again(k)) + ""
  }

  function Again(k: string): string {
    k + ['='] + "" + ['\n']
  }

  lemma BridgeReads(t: string)
    ensures ReadWord(BRIDGE + t) == Scan(Chars(NBSP + "#", false) + Chars("\n#", true), " " + t)
  {
    var rest := "'" + "\n#" + ['\''] + (" " + t);
    assert BRIDGE + t == (NBSP + "#") + rest;
    assert Ordinary('#') && Ordinary(NBSP[0]);
    OrdinaryWord(NBSP + "#", rest);
    SingleWordReads("\n#", " " + t);
    assert rest == ['\''] + "\n#" + ['\''] + (" " + t);
    assert ReadWord(" " + t) == Scan([], " " + t);
    assert Chars("\n#", true) + [] == Chars("\n#", true);
  }

  lemma AgainReads(k: string)
    requires IsKey(k)
    ensures ReadCommand(" " + Again(k)) == Command([AssignmentWord(k, [])], "")
  {
    hide IsKey, AssignmentWord, ReadWord, ReadCommand;
    KeysAreNames(k);
    NameStarts(k, "", ['\n']);
    assert "" + ['\n'] == ['\n'];
    EmptyWord([], ['\n']);
    Newline();
    KeyReads(k, "", ['\n'], [], ['\n']);
    SkipAllBlank(" ", Again(k));
    OneWord(" " + Again(k), Again(k), AssignmentWord(k, []), ['\n'], "");
  }

  lemma Newline()
    ensures ReadCommand(['\n']) == Command([], "") && ReadWord(['\n']) == Scan([], ['\n'])
  {
    assert SkipBlanks(['\n']) == ['\n'] && ['\n'][1..] == "";
  }

  lemma SecondWord(s: string, t: string, w: Word, r: string, w': Word)
    requires SkipBlanks(s) == t && t != "" && !EndsWord(t[0]) && t[0] != '#'
    requires ReadWord(t) == Scan(w, r) && ReadCommand(r) == Command([w'], "")
    ensures ReadCommand(s) == Command([w, w'], "")
  {
    hide ReadWord;
    assert [w] + [w'] == [w, w'];
  }

  /** The shell sees two assignments to the same variable, the second of nothing. */
  lemma TwiceRuns(k: string, vars: Vars)
    requires IsKey(k)
    ensures Run(Twice(k), vars) == Some(vars[k := ""])
  {
    hide IsKey, ReadWord, ReadCommand, IsAssignment, NameOf, NameLength, Value, Execute, IsName, AssignmentWord;
    hide SkipBlanks;
    var p := Chars(NBSP + "#", false) + Chars("\n#", true);
    var w, w' := AssignmentWord(k, p), AssignmentWord(k, []);
    var raw, text := BRIDGE + Again(k), Twice(k);
    KeysAreNames(k);
    BridgeReads(Again(k));
    assert raw + "" == raw;
    KeyReads(k, raw, "", p, " " + Again(k));
    NameStarts(k, raw, "");
    AgainReads(k);
    NoBlanks(text);
    SecondWord(text, text, w, " " + Again(k), w');
    AssignmentOf(k, p);
    AssignmentOf(k, []);
    var v := BridgeValue(vars);
    var after := vars[k := v];
    NoValue(after);
    AssignsOne(w', k, "", after);
    FirstAssigns(w, w', k, v, vars);
    assert after[k := ""] == vars[k := ""];
    RunOne(text, [w, w'], "", vars, vars[k := ""]);
    NoEntries(None, vars[k := ""]);
  }

  lemma NoBlanks(s: string)
    requires s != "" && !EndsWord(s[0])
    ensures SkipBlanks(s) == s
  {
  }

  lemma NoValue(vars: Vars)
    ensures Value([], vars, true) == Some("")
  {
  }

  lemma FirstAssigns(w: Word, w': Word, k: string, v: string, vars: Vars)
    requires IsAssignment(w) && NameOf(w) == k && Value(w[NameLength(w) + 1..], vars, true) == Some(v)
    ensures Execute([w, w'], vars) == Execute([w'], vars[k := v])
  {
    assert [w, w'][1..] == [w'];
  }

  lemma BridgeValue(vars: Vars) returns (v: string)
    ensures Value(Chars(NBSP + "#", false) + Chars("\n#", true), vars, true) == Some(v)
  {
    hide Value;
    var c, d := NBSP[0], '#';
    var p := Chars(NBSP + "#", false) + Chars("\n#", true);
    var p2, p3 := [Char('\n', true), Char(d, true)], [Char(d, true)];
    var p1 := [Char(d, false), Char('\n', true), Char(d, true)];
    assert p == [Char(c, false)] + p1 && p1 == [Char(d, false)] + p2 && p2 == [Char('\n', true)] + p3;
    assert p3 == [Char(d, true)] + [];
    CharValue(c, false, p1, vars, true);
    CharValue(d, false, p2, vars, false);
    CharValue('\n', true, p3, vars, false);
    CharValue(d, true, [], vars, false);
    EmptyValue(vars);
    v := [c] + ([d] + (['\n'] + ([d] + "")));
  }

  lemma EmptyValue(vars: Vars)
    ensures Value([], vars, false) == Some("")
  {
  }

  const HEAD := "\U{A0}#'"

  lemma HeadParses(home: Option<string>)
    ensures ParseValue(HEAD, home) == Ok("")
    ensures ValueLength(HEAD) == 0 && !AllBlank(HEAD[..Lead(HEAD)])
  {
    assert IsWhitespace(HEAD[0]) && !IsBlank(HEAD[0]) && !IsWhitespace(HEAD[1]) && HEAD[1] == '#';
    assert FindWhitespace(HEAD) == 0 && HEAD[..0] == "" && HEAD[0..] == HEAD;
    assert Lead(HEAD[1..]) == 0 && Lead(HEAD) == 1;
    assert HEAD[..1][0] == HEAD[0];
    assert Find("", '$') == 0;
  }

  lemma FirstParses(k: string, home: Option<string>)
    requires IsKey(k)
    ensures var line := k + ['='] + HEAD;
            && ParseLine(TrimStart(line), home) == Set(k, "") && '\n' !in line
            && !PlainLine(line) && TrailingComment(line)
  {
    hide IsKey, ParseValue, ValueLength, StartsWith, Lead, TrimStart, IsWhitespace, AllBlank;
    var line := k + ['='] + HEAD;
    KeyHasNo(k);
    StartsBare(line);
    FindSplit(k, '=', HEAD);
    assert line[..|k|] == k && line[|k| + 1..] == HEAD;
    HeadParses(home);
    assert HEAD[0..] == HEAD && HEAD[1] == '#';
  }

  lemma TwiceLines(k: string)
    requires IsKey(k)
    ensures var rest := "#' " + k + "=" + ['\n'];
            && Twice(k) != "" && FirstLine(Twice(k)) == k + ['='] + HEAD && Following(Twice(k)) == rest
            && FirstLine(rest) == "#' " + k + "=" && Following(rest) == ""
  {
    hide IsKey, Find;
    KeyHasNo(k);
    var line, second := k + ['='] + HEAD, "#' " + k + "=";
    assert Twice(k) == line + ['\n'] + (second + ['\n']);
    FindSplit(line, '\n', second + ['\n']);
    assert second + ['\n'] == second + ['\n'] + "";
    FindSplit(second, '\n', "");
  }

  lemma HashSkips(k: string, home: Option<string>)
    ensures ParseLine(TrimStart("#' " + k + "="), home) == Skip
  {
    hide TrimStart, Lead;
    StartsBare("#' " + k + "=");
  }

  /** A file that is not plain and yet reads alike: its comment hides a newline from the shell, not from the parser. */
  lemma CommentUndoes(k: string, home: Option<string>, vars: Vars)
    requires IsKey(k)
    ensures ParseSpec(Twice(k), home) == Ok(map[k := ""])
    ensures !PlainText(Twice(k)) && TrailingComment(FirstLine(Twice(k)))
    ensures Run(Twice(k), vars) == Some(vars + map[k := ""])
  {
    hide IsKey, ParseLine, TrimStart, PlainLine, Entries, Lines, Run, Twice, PlainText, FirstLine, Following;
    hide TrailingComment;
    TwiceRuns(k, vars);
    assert vars + map[k := ""] == vars[k := ""];
    TwiceLines(k);
    FirstParses(k, home);
    HashSkips(k, home);
    EntriesStep(Twice(k), home);
    EntriesStep(Following(Twice(k)), home);
    NoEntries(home, vars);
    PlainSplit(Twice(k));
    assert Entries(Lines(Twice(k)), home) == [Set(k, ""), Skip];
    Collects(k);
  }

  lemma Collects(k: string)
    ensures Collect([Set(k, ""), Skip], 1, map[]) == Ok(map[k := ""])
  {
    var values: Values := map[][k := ""];
    assert [Set(k, ""), Skip][1..] == [Skip] && [Skip][1..] == [];
    assert Collect([], 3, values) == Ok(values);
    assert Collect([Skip], 2, values) == Ok(values);
  }
}
