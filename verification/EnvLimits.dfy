/**
 Where agreement with the shell ends: blanks only Rust knows. A file that separates tokens with one is
 read differently, so for files whose commented lines are plain, agreement holds exactly when every
 line is.
 */
module EnvLimits {
  import opened Text
  import opened EnvFile
  import opened Shell
  import opened EnvShell
  import opened EnvAgreement
  import opened EnvRoundTrip

  /** Blank to the parser, an ordinary character to a shell. */
  predicate Exotic(c: char) {
    IsWhitespace(c) && !IsBlank(c) && c != '\n'
  }

  lemma ExoticOrdinary(c: char)
    requires Exotic(c)
    ensures Ordinary(c) && !IsNameChar(c) && c != '#' && c != '~' && c != '='
  {
  }

  /** The length of the leading run of exotic characters. */
  function ExoticRun(s: string): (k: nat)
    ensures k <= |s|
    ensures forall i :: 0 <= i < k ==> Exotic(s[i])
    ensures k < |s| ==> !Exotic(s[k])
  {
    if s == "" || !Exotic(s[0]) then 0 else 1 + ExoticRun(s[1..])
  }

  /** The length of the leading run of spaces and tabs. */
  function BlankRun(s: string): (k: nat)
    ensures k <= |s|
    ensures AllBlank(s[..k]) && (k == |s| ==> AllBlank(s))
    ensures k < |s| ==> !IsBlank(s[k])
  {
    if s == "" || !IsBlank(s[0]) then 0 else 1 + BlankRun(s[1..])
  }

  /** A command that is not read, or whose first word is none to assign. */
  predicate RunsNothing(command: Command) {
    command.Command? ==> command.words != [] && !IsAssignment(command.words[0])
  }

  lemma ExoticWord(t: string)
    requires t != "" && Exotic(t[0])
    ensures ReadWord(t).Scan? ==> !IsAssignment(ReadWord(t).pieces)
  {
    hide IsWhitespace;
    ExoticOrdinary(t[0]);
    assert t == [t[0]] + t[1..];
    OrdinaryWord([t[0]], t[1..]);
    var w := ReadWord(t);
    if w.Scan? {
      assert w.pieces[0] == Char(t[0], false);
    }
  }

  lemma ExoticCommand(s: string, t: string)
    requires SkipBlanks(s) == t && t != "" && Exotic(t[0])
    ensures RunsNothing(ReadCommand(s))
  {
    hide IsWhitespace, ReadWord, IsAssignment;
    ExoticOrdinary(t[0]);
    ExoticWord(t);
  }

  /** Whitespace that is not all spaces and tabs makes a command to run. */
  lemma UnplainRest(rest: string, more: string)
    requires AllWhitespace(rest) && '\n' !in rest && !AllBlank(rest)
    ensures RunsNothing(ReadCommand(rest + more))
  {
    hide ReadCommand, SkipBlanks, IsWhitespace, IsAssignment, RunsNothing;
    var k := BlankRun(rest);
    assert Exotic(rest[k]);
    var t := rest[k..] + more;
    assert rest + more == rest[..k] + t;
    SkipAllBlank(rest[..k], t);
    ExoticCommand(rest + more, t);
  }

  lemma StuckRun(script: string, vars: Vars)
    requires script != "" && RunsNothing(ReadCommand(script))
    ensures Run(script, vars) == None
  {
    hide ReadCommand, IsAssignment;
  }

  lemma UnplainLead(line: string, tail: string, vars: Vars)
    requires '\n' !in line && !AllBlank(line[..Lead(line)])
    ensures Run(line + tail, vars) == None
  {
    hide Run, ReadCommand, IsWhitespace, RunsNothing;
    var n := Lead(line);
    assert line + tail == line[..n] + (line[n..] + tail);
    UnplainRest(line[..n], line[n..] + tail);
    StuckRun(line + tail, vars);
  }

  lemma ExecuteStops(w: Word, words: seq<Word>, vars: Vars)
    requires words != [] && !IsAssignment(words[0])
    ensures Execute([w] + words, vars) == None
  {
    hide IsAssignment, Value;
    assert ([w] + words)[1..] == words;
  }

  lemma TwoWords(s: string, t: string, w: Word, r: string, vars: Vars)
    requires SkipBlanks(s) == t && t != "" && !EndsWord(t[0]) && t[0] != '#'
    requires ReadWord(t) == Scan(w, r) && RunsNothing(ReadCommand(r))
    ensures Run(s, vars) == None
  {
    hide ReadWord, IsAssignment, Execute;
    if ReadCommand(r).Command? {
      ExecuteStops(w, ReadCommand(r).words, vars);
    }
  }

  /** The exotic characters after a value become part of it. */
  lemma ValueTakes(k: string, raw: string, tail: string, home: Option<string>)
    requires IsKey(k) && ParseValue(raw, home).Ok? && EndsLine(tail)
    requires AllWhitespace(raw[ValueLength(raw)..]) && '\n' !in raw
    ensures var rest := raw[ValueLength(raw)..];
            var n := ExoticRun(rest);
            ReadWord(k + ['='] + raw + tail) ==
            Scan(AssignmentWord(k, ValueWord(raw) + Chars(rest[..n], false)), rest[n..] + tail)
  {
    hide ReadWord, ParseValue, ValueLength, ValueWord, IsWhitespace, AssignmentWord, IsKey;
    var rest := raw[ValueLength(raw)..];
    var n := ExoticRun(rest);
    var x, y := rest[..n], rest[n..] + tail;
    forall i | 0 <= i < |x| ensures Ordinary(x[i]) {
      ExoticOrdinary(x[i]);
    }
    assert rest + tail == x + y;
    OrdinaryWord(x, y);
    assert n < |rest| ==> IsBlank(rest[n]);
    EmptyWord(Chars(x, false), y);
    KeysAreNames(k);
    ValueReads(raw, tail, home);
    KeyReads(k, raw, tail, ValueWord(raw) + Chars(x, false), y);
  }

  /** What follows a line's value when the line is neither plain nor commented. */
  predicate UnplainAfter(raw: string) {
    var rest := raw[ValueLength(raw)..];
    AllWhitespace(rest) && !AllBlank(rest)
  }

  /** The characters a shell takes into the value. */
  function Extra(raw: string): string {
    var rest := raw[ValueLength(raw)..];
    rest[..ExoticRun(rest)]
  }

  /** The shell runs nothing, or gives the key a longer value. */
  predicate Deviates(script: string, k: string, v: string, extra: string, next: string, vars: Vars) {
    Run(script, vars) == None || (extra != "" && Run(script, vars) == Run(next, vars[k := v + extra]))
  }

  lemma UnplainTrail(lead: string, k: string, raw: string, tail: string, home: Option<string>, vars: Vars)
    requires AllBlank(lead) && IsKey(k) && '\n' !in raw && EndsLine(tail) && ParseValue(raw, home).Ok?
    requires UnplainAfter(raw) && HomeIs(vars, home)
    ensures Deviates(lead + (k + ['='] + raw + tail), k, ParseValue(raw, home).value, Extra(raw), NextLines(tail), vars)
  {
    hide ReadWord, ReadCommand, SkipBlanks, ParseValue, ValueLength, ValueWord, IsWhitespace, AssignmentWord;
    hide IsKey, Run, IsAssignment, NameOf, NameLength, Execute, Value, IsName;
    var rest := raw[ValueLength(raw)..];
    var n := ExoticRun(rest);
    var x, y := rest[..n], rest[n..];
    var p := ValueWord(raw) + Chars(x, false);
    var w, t := AssignmentWord(k, p), k + ['='] + raw + tail;
    ValueTakes(k, raw, tail, home);
    NameStarts(k, raw, tail);
    SkipAllBlank(lead, t);
    assert n == 0 ==> y == rest;
    if AllBlank(y) {
      AllBlankLead(y);
      NoWords(y, tail);
      OneWord(lead + t, t, w, y + tail, NextLines(tail));
      KeysAreNames(k);
      AssignmentOf(k, p);
      forall i | 0 <= i < |x| ensures x[i] != '~' {
        ExoticOrdinary(x[i]);
      }
      ValueMeans(raw, x, vars, home);
      var v := ParseValue(raw, home).value;
      AssignsOne(w, k, v + x, vars);
      RunOne(lead + t, [w], NextLines(tail), vars, vars[k := v + x]);
    } else {
      UnplainRest(y, tail);
      TwoWords(lead + t, t, w, y + tail, vars);
    }
  }

  lemma NameStarts(k: string, raw: string, tail: string)
    requires IsKey(k)
    ensures var t := k + ['='] + raw + tail; t != "" && !EndsWord(t[0]) && t[0] != '#'
  {
    hide IsKey;
    KeysAreNames(k);
    assert (k + ['='] + raw + tail)[0] == k[0];
  }

  lemma AllBlankLead(y: string)
    requires AllBlank(y)
    ensures Lead(y) == |y| && y[..Lead(y)] == y
  {
  }

  // ---- Whole files ----

  /** Whether a line has a `#` after its value. */
  predicate TrailingComment(line: string) {
    var s := TrimStart(line);
    s != "" && s[0] != '#' && Find(s, '=') < |s| && '#' in AfterValue(s)
  }

  /** Every line with a comment after its value is plain. */
  predicate CommentsPlain(text: string)
    decreases |text|
  {
    (TrailingComment(FirstLine(text)) ==> PlainLine(FirstLine(text))) &&
    (Find(text, '\n') < |text| ==> CommentsPlain(Following(text)))
  }

  function FirstEntry(text: string, home: Option<string>): Entry {
    ParseLine(TrimStart(FirstLine(text)), home)
  }

  /** The characters a shell takes into the value a line sets. */
  function LineExtra(line: string, home: Option<string>): string {
    var s := TrimStart(line);
    var entry := ParseLine(s, home);
    if entry.Set? && |entry.key| < |s| then Extra(s[|entry.key| + 1..]) else ""
  }

  /** What an uncommented line leaves after its value is whitespace. */
  lemma UncommentedRest(raw: string, home: Option<string>)
    requires ParseValue(raw, home).Ok? && '#' !in raw[ValueLength(raw)..]
    ensures AllWhitespace(raw[ValueLength(raw)..])
  {
    hide ParseValue, ValueLength, IsWhitespace;
    CommentFollows(raw, home);
  }

  lemma UnplainSet(line: string, tail: string, home: Option<string>, vars: Vars)
    requires '\n' !in line && !TrailingComment(line) && EndsLine(tail) && HomeIs(vars, home)
    requires !PlainLine(line) && AllBlank(line[..Lead(line)]) && !ParseLine(TrimStart(line), home).Bad?
    ensures var entry := ParseLine(TrimStart(line), home);
            entry.Set? && Deviates(line + tail, entry.key, entry.value, LineExtra(line, home), NextLines(tail), vars)
  {
    hide ParseLine, ParseValue, ValueLength, IsWhitespace, IsKey, Run, Extra, Deviates, Lead, Find, UnplainAfter;
    var s := TrimStart(line);
    var lead := line[..Lead(line)];
    LineParts(s, home);
    assert line == lead + s;
    assert s != "" && s[0] != '#';
    var k := ParseLine(s, home).key;
    var raw := s[|k| + 1..];
    assert raw[ValueLength(raw)..] == AfterValue(s) && '\n' !in raw;
    UncommentedRest(raw, home);
    AfterIs(s, k, raw);
    Regroup(lead, s, tail);
    UnplainTrail(lead, k, raw, tail, home, vars);
  }

  /** One line of a file whose trailing comments are plain: nothing runs, or one assignment, exact iff plain. */
  lemma FirstStep(text: string, home: Option<string>, vars: Vars)
    requires text != "" && HomeIs(vars, home) && !FirstEntry(text, home).Bad? && CommentsPlain(text)
    ensures |Following(text)| < |text| && CommentsPlain(Following(text))
    ensures var entry := FirstEntry(text, home);
            var extra := if PlainLine(FirstLine(text)) then "" else LineExtra(FirstLine(text), home);
            || Run(text, vars) == None
            || (entry.Skip? && PlainLine(FirstLine(text)) && Run(text, vars) == Run(Following(text), vars))
            || (&& entry.Set? && (extra == "" <==> PlainLine(FirstLine(text)))
                && Run(text, vars) == Run(Following(text), vars[entry.key := entry.value + extra]))
  {
    hide ParseLine, PlainLine, TrimStart, Run, LineExtra, CommentsPlain, Lead, TrailingComment;
    CommentsStep(text);
    var line, tail := FirstLine(text), text[Find(text, '\n')..];
    assert text == line + tail;
    if PlainLine(line) {
      FirstRuns(text, home, vars);
      if FirstEntry(text, home).Set? {
        NothingAfter([], FirstEntry(text, home).value);
      }
    } else if AllBlank(line[..Lead(line)]) {
      UnplainSet(line, tail, home, vars);
    } else {
      UnplainLead(line, tail, vars);
    }
  }

  lemma CommentsStep(text: string)
    requires text != "" && CommentsPlain(text)
    ensures |Following(text)| < |text| && CommentsPlain(Following(text))
    ensures TrailingComment(FirstLine(text)) ==> PlainLine(FirstLine(text))
  {
    NoComments();
    hide PlainLine, TrailingComment;
  }

  lemma NoComments()
    ensures CommentsPlain("")
  {
    assert TrimStart("") == "" && FirstLine("") == "";
  }

  lemma AfterIs(s: string, k: string, raw: string)
    requires Find(s, '=') == |k| < |s| && raw == s[|k| + 1..]
    requires !AllBlank(AfterValue(s)[..Lead(AfterValue(s))]) && AllWhitespace(raw[ValueLength(raw)..])
    ensures UnplainAfter(raw)
  {
    hide ValueLength, IsWhitespace, AllBlank;
    var rest := raw[ValueLength(raw)..];
    WhitespaceLead(rest);
    hide AllWhitespace, Lead;
    assert AfterValue(s) == rest;
  }

  lemma WhitespaceLead(rest: string)
    requires AllWhitespace(rest)
    ensures rest[..Lead(rest)] == rest
  {
    hide IsWhitespace;
    assert Lead(rest) == |rest|;
  }

  predicate SetsKey(entries: seq<Entry>, k: string) {
    exists i :: 0 <= i < |entries| && entries[i].Set? && entries[i].key == k
  }

  predicate KeysDiffer(entries: seq<Entry>) {
    forall i, j :: 0 <= i < j < |entries| && entries[i].Set? && entries[j].Set? ==> entries[i].key != entries[j].key
  }

  predicate SameAt(a: Vars, b: Vars, k: string) {
    (k in a <==> k in b) && (k in a ==> a[k] == b[k])
  }

  lemma {:induction false} AssignedKeeps(entries: seq<Entry>, vars: Vars, k: string)
    requires !SetsKey(entries, k)
    ensures SameAt(Assigned(entries, vars), vars, k)
  {
    if entries != [] {
      assert forall i :: 0 <= i < |entries| - 1 ==> entries[1..][i] == entries[i + 1];
      assert !entries[0].Set? || entries[0].key != k;
      AssignedKeeps(entries[1..], Executed(entries[0], vars), k);
    }
  }

  lemma EntriesTail(text: string, home: Option<string>)
    requires text != ""
    ensures var entries := Entries(Lines(text), home);
            && entries != [] && entries[0] == FirstEntry(text, home)
            && entries[1..] == Entries(Lines(Following(text)), home)
  {
    hide ParseLine, TrimStart, Entries, Lines, FirstLine, Following;
    EntriesStep(text, home);
  }

  lemma HomeKept(text: string, home: Option<string>, vars: Vars, value: string)
    requires HomeIs(vars, home) && FirstEntry(text, home).Set?
    ensures HomeIs(vars[FirstEntry(text, home).key := value], home)
  {
    hide ParseValue, IsKey;
    KeysAreNames(FirstEntry(text, home).key);
  }

  /** A key no line sets keeps its value, whatever the other lines turn into. */
  lemma {:induction false} RunKeeps(text: string, home: Option<string>, vars: Vars, k: string)
    requires HomeIs(vars, home) && CommentsPlain(text) && NoneBad(Entries(Lines(text), home))
    requires !SetsKey(Entries(Lines(text), home), k) && Run(text, vars).Some?
    ensures SameAt(Run(text, vars).value, vars, k)
    decreases |text|
  {
    hide PlainLine, Entries, Lines, Run, Following, FirstLine, FirstEntry, LineExtra, CommentsPlain;
    NoEntries(home, vars);
    if text != "" {
      EntriesTail(text, home);
      var entries := Entries(Lines(text), home);
      assert forall i :: 0 <= i < |entries| - 1 ==> entries[1..][i] == entries[i + 1];
      assert !entries[0].Set? || entries[0].key != k;
      FirstStep(text, home, vars);
      if entries[0].Skip? {
        RunKeeps(Following(text), home, vars, k);
      } else {
        var extra := if PlainLine(FirstLine(text)) then "" else LineExtra(FirstLine(text), home);
        var Set(key, v) := entries[0];
        HomeKept(text, home, vars, v + extra);
        RunKeeps(Following(text), home, vars[key := v + extra], k);
      }
    }
  }

  /** An unplain line shows in the outcome. */
  lemma {:induction false} UnplainShows(text: string, home: Option<string>, vars: Vars)
    requires HomeIs(vars, home) && CommentsPlain(text)
    requires NoneBad(Entries(Lines(text), home)) && KeysDiffer(Entries(Lines(text), home))
    requires !PlainText(text)
    ensures Run(text, vars) != Some(Assigned(Entries(Lines(text), home), vars))
    decreases |text|
  {
    hide PlainLine, Entries, Lines, Run, Following, FirstLine, FirstEntry, LineExtra, CommentsPlain, PlainText;
    PlainSplit(text);
    if text != "" && Run(text, vars).Some? {
      EntriesTail(text, home);
      FirstStep(text, home, vars);
      var entries := Entries(Lines(text), home);
      assert forall i :: 0 <= i < |entries| - 1 ==> entries[1..][i] == entries[i + 1];
      if entries[0].Skip? {
        UnplainShows(Following(text), home, vars);
      } else {
        var extra := if PlainLine(FirstLine(text)) then "" else LineExtra(FirstLine(text), home);
        var Set(k, v) := entries[0];
        var vars' := vars[k := v + extra];
        HomeKept(text, home, vars, v + extra);
        if extra == "" {
          NothingAfter([], v);
          UnplainShows(Following(text), home, vars');
        } else {
          RunKeeps(Following(text), home, vars', k);
          AssignedKeeps(entries[1..], vars[k := v], k);
          assert |v + extra| != |v|;
        }
      }
    }
  }

  lemma PlainSplit(text: string)
    ensures PlainText(text) <==> text == "" || (PlainLine(FirstLine(text)) && PlainText(Following(text)))
  {
    if Find(text, '\n') == |text| {
      assert PlainText("");
    }
  }

  lemma {:induction false} CollectDiffers(entries: seq<Entry>, number: nat, values: Values)
    requires Collect(entries, number, values).Ok?
    ensures KeysDiffer(entries)
    ensures forall i :: 0 <= i < |entries| && entries[i].Set? ==> entries[i].key !in values
  {
    if entries != [] {
      assert forall i :: 0 < i < |entries| ==> entries[i] == entries[1..][i - 1];
      match entries[0]
      case Skip => CollectDiffers(entries[1..], number + 1, values);
      case Set(k, v) => CollectDiffers(entries[1..], number + 1, values[k := v]);
    }
  }

  /** Sourcing an accepted file agrees with the parser exactly when the file is plain. */
  lemma AgreementExact(text: string, home: Option<string>, vars: Vars)
    requires ParseSpec(text, home).Ok? && CommentsPlain(text) && HomeIs(vars, home)
    ensures Run(text, vars) == Some(vars + ParseSpec(text, home).value) <==> PlainText(text)
  {
    hide Entries, Lines, Run, PlainText, CommentsPlain;
    var entries := Entries(Lines(text), home);
    CollectAssigns(entries, 1, map[], vars);
    assert vars + map[] == vars;
    CollectDiffers(entries, 1, map[]);
    if PlainText(text) {
      SourcingAgrees(text, home, vars);
    } else {
      UnplainShows(text, home, vars);
    }
  }

  /** A file whose only whitespace is spaces, tabs and newlines is plain. */
  lemma {:induction false} OrdinarySpaces(text: string)
    requires forall i :: 0 <= i < |text| ==> !Exotic(text[i])
    ensures PlainText(text)
    decreases |text|
  {
    hide PlainText, IsWhitespace, ValueLength, Following, FirstLine;
    PlainSplit(text);
    if text != "" {
      OrdinaryParts(text);
      OrdinarySpaces(Following(text));
    }
  }

  lemma OrdinaryParts(text: string)
    requires text != "" && forall i :: 0 <= i < |text| ==> !Exotic(text[i])
    ensures PlainLine(FirstLine(text)) && |Following(text)| < |text|
    ensures forall i :: 0 <= i < |Following(text)| ==> !Exotic(Following(text)[i])
  {
    hide IsWhitespace, ValueLength;
    var line := FirstLine(text);
    assert forall i :: 0 <= i < |line| ==> !Exotic(line[i]) && line[i] != '\n';
    var s := TrimStart(line);
    assert forall i :: 0 <= i < |s| ==> !Exotic(s[i]) && s[i] != '\n';
    if Find(s, '=') < |s| {
      var rest := AfterValue(s);
      assert forall i :: 0 <= i < |rest| ==> rest[i] in s;
    }
  }

  /** A DOS line ending: the parser drops the carriage return, a shell keeps it in the value. */
  lemma DosLineDiffers(k: string, v: string, home: Option<string>, vars: Vars)
    requires IsKey(k) && Representable(v) && HomeIs(vars, home)
    ensures var text := Assignment(k, v) + "\r" + ['\n'];
            && ParseSpec(text, home) == Ok(map[k := v])
            && Run(text, vars) != Some(vars + map[k := v])
  {
    hide ParseLine, PlainLine, TrimStart, Entries, Lines, Run, Assignment, IsKey, PlainText, TrailingComment;
    var line := Assignment(k, v) + "\r";
    var text := line + ['\n'] + "";
    assert text == line + ['\n'];
    AssignmentLine(k, v, home);
    FindSplit(line, '\n', "");
    assert FirstLine(text) == line && Following(text) == "";
    DosLine(k, v, home);
    EntriesStep(text, home);
    NoEntries(home, vars);
    var values: Values := map[k := v];
    assert Entries(Lines(text), home) == [Set(k, v)];
    assert Collect([], 2, values) == Ok(values);
    assert map[][k := v] == values;
    NoComments();
    PlainSplit(text);
    AgreementExact(text, home, vars);
  }

  lemma DosLine(k: string, v: string, home: Option<string>)
    requires IsKey(k) && Representable(v)
    ensures var line := Assignment(k, v) + "\r";
            && ParseLine(TrimStart(line), home) == Set(k, v) && '\n' !in line
            && !PlainLine(line) && !TrailingComment(line)
  {
    hide ParseLine, PlainLine, TrailingComment, IsKey, QuoteFor, TrimStart, Representable, IsWhitespace;
    var line := Assignment(k, v) + "\r";
    KeyHasNo(k);
    QuoteIs(v);
    AssignmentLine(k, v, home);
    StartsBare(Assignment(k, v));
    StartsBare(line);
    CarriageReturn();
    ParseLineAppend(Assignment(k, v), "\r", home);
    DosUnplain(k, v, home);
  }

  lemma CarriageReturn()
    ensures AllWhitespace("\r") && Lead("\r") == 1 && !AllBlank("\r")
  {
    assert "\r"[0] == '\r' && IsWhitespace('\r') && !IsBlank('\r');
    assert !IsBlank("\r"[0]);
  }

  lemma StartsBare(s: string)
    requires s != "" && !IsWhitespace(s[0])
    ensures TrimStart(s) == s && Lead(s) == 0
  {
    hide IsWhitespace;
  }

  lemma DosUnplain(k: string, v: string, home: Option<string>)
    requires IsKey(k) && Representable(v)
    ensures !PlainLine(Assignment(k, v) + "\r") && !TrailingComment(Assignment(k, v) + "\r")
  {
    hide ValueLength, IsKey, QuoteFor, Representable, Lead, IsWhitespace, AllBlank, TrimStart;
    var raw := [QuoteFor(v)] + v + [QuoteFor(v)];
    var line := Assignment(k, v) + "\r";
    KeyHasNo(k);
    StartsBare(line);
    assert line == k + ['='] + (raw + "\r");
    FindSplit(k, '=', raw + "\r");
    assert line[|k| + 1..] == raw + "\r";
    QuotedLength(v, home);
    assert AfterValue(line) == "\r" && "\r"[..1] == "\r";
    CarriageReturn();
  }

  lemma QuotedLength(v: string, home: Option<string>)
    requires Representable(v)
    ensures var raw := [QuoteFor(v)] + v + [QuoteFor(v)]; ValueLength(raw + "\r") == |raw|
  {
    var q := QuoteFor(v);
    var raw := [q] + v + [q] + "\r";
    assert raw[1..] == v + [q] + "\r";
    FindSplit(v, q, "\r");
  }
}
