/**
 Whatever the environment-file parser accepts means what a shell that sources the file would read, as
 long as the blanks outside quotes and comments are spaces and tabs: Rust also treats carriage returns
 and Unicode spaces as blank, a shell does not.
 */
module EnvAgreement {
  import opened Text
  import opened EnvFile
  import opened Shell
  import opened EnvShell

  /** A line's stripped carriage return does not matter to the parser. */
  lemma ParseLineCr(line: string, home: Option<string>)
    ensures ParseLine(TrimStart(StripCr(line)), home) == ParseLine(TrimStart(line), home)
  {
    hide ParseLine;
    var l := StripCr(line);
    if l != line {
      assert line == l + "\r";
      LeadAppend(l, "\r");
      if Lead(l) < |l| {
        assert TrimStart(line) == TrimStart(l) + "\r";
        ParseLineAppend(TrimStart(l), "\r", home);
      }
    }
  }

  /** The text from the second line on. */
  function Following(text: string): string {
    var k := Find(text, '\n');
    if k < |text| then text[k + 1..] else ""
  }

  function FirstLine(text: string): string {
    text[..Find(text, '\n')]
  }

  lemma LinesStep(text: string)
    requires text != ""
    ensures Lines(text) != [] && Lines(text)[1..] == Lines(Following(text))
    ensures Lines(text)[0] == FirstLine(text) || Lines(text)[0] == StripCr(FirstLine(text))
  {
    if Find(text, '\n') == |text| {
      assert FirstLine(text) == text;
    }
  }

  /** A text's entries are its first line's, untrimmed, and those of the lines that follow. */
  lemma EntriesStep(text: string, home: Option<string>)
    requires text != ""
    ensures Entries(Lines(text), home) ==
            [ParseLine(TrimStart(FirstLine(text)), home)] + Entries(Lines(Following(text)), home)
  {
    hide ParseLine, Trim, TrimStart, Lines, FirstLine, Following, StripCr;
    LinesStep(text);
    ParseLineTrimmed(Lines(text)[0], home);
    ParseLineCr(FirstLine(text), home);
    var lines := Lines(text);
    var es := Entries(lines, home);
    assert forall i :: 0 <= i < |lines| - 1 ==> lines[1..][i] == lines[i + 1];
    assert es[0] == ParseLine(TrimStart(FirstLine(text)), home);
  }

  predicate NoneBad(entries: seq<Entry>) {
    forall i :: 0 <= i < |entries| ==> !entries[i].Bad?
  }

  /** The variables after the entries' assignments, in order. */
  function Assigned(entries: seq<Entry>, vars: Vars): Vars {
    if entries == [] then vars else Assigned(entries[1..], Executed(entries[0], vars))
  }

  lemma KeepsHome(line: string, home: Option<string>, vars: Vars)
    requires HomeIs(vars, home)
    ensures HomeIs(Executed(ParseLine(line, home), vars), home)
  {
    hide IsKey, ParseValue;
    if ParseLine(line, home).Set? {
      KeysAreNames(ParseLine(line, home).key);
    }
  }

  /** Sourcing a plain text assigns its entries. */
  lemma {:induction false} PlainRuns(text: string, vars: Vars, home: Option<string>)
    requires PlainText(text) && HomeIs(vars, home) && NoneBad(Entries(Lines(text), home))
    ensures Run(text, vars) == Some(Assigned(Entries(Lines(text), home), vars))
    decreases |text|
  {
    hide ParseLine, PlainLine, TrimStart, Entries, Lines, Run, Following, FirstLine, Find;
    NoEntries(home, vars);
    if text != "" {
      var entry := ParseLine(TrimStart(FirstLine(text)), home);
      PlainStep(text);
      EntriesStep(text, home);
      var entries := Entries(Lines(text), home);
      assert entries[1..] == Entries(Lines(Following(text)), home);
      assert entries[0] == entry;
      KeepsHome(TrimStart(FirstLine(text)), home, vars);
      FirstRuns(text, home, vars);
      PlainRuns(Following(text), Executed(entry, vars), home);
    }
  }

  lemma PlainStep(text: string)
    requires text != "" && PlainText(text)
    ensures PlainLine(FirstLine(text)) && PlainText(Following(text)) && |Following(text)| < |text|
  {
  }

  lemma FirstRuns(text: string, home: Option<string>, vars: Vars)
    requires text != "" && PlainLine(FirstLine(text)) && HomeIs(vars, home)
    requires !ParseLine(TrimStart(FirstLine(text)), home).Bad?
    ensures Run(text, vars) == Run(Following(text), Executed(ParseLine(TrimStart(FirstLine(text)), home), vars))
  {
    hide ParseLine, PlainLine, TrimStart, Run, Find, Executed;
    var k := Find(text, '\n');
    var line, tail := text[..k], text[k..];
    assert text == line + tail;
    LineRuns(line, tail, home, vars);
  }

  lemma NoEntries(home: Option<string>, vars: Vars)
    ensures Entries(Lines(""), home) == [] && Run("", vars) == Some(vars)
  {
  }

  /** Collected values are the assignments, each key set once. */
  lemma {:induction false} CollectAssigns(entries: seq<Entry>, number: nat, values: Values, vars: Vars)
    requires Collect(entries, number, values).Ok?
    ensures NoneBad(entries)
    ensures Assigned(entries, vars + values) == vars + Collect(entries, number, values).value
  {
    if entries != [] {
      match entries[0]
      case Skip => CollectAssigns(entries[1..], number + 1, values, vars);
      case Set(k, v) =>
        assert (vars + values)[k := v] == vars + values[k := v];
        CollectAssigns(entries[1..], number + 1, values[k := v], vars);
      assert forall i :: 0 < i < |entries| ==> entries[i] == entries[1..][i - 1];
    }
  }

  /** The main result: sourcing an accepted file adds exactly the returned values to the variables. */
  lemma SourcingAgrees(text: string, home: Option<string>, vars: Vars)
    requires ParseSpec(text, home).Ok? && PlainText(text) && HomeIs(vars, home)
    ensures Run(text, vars) == Some(vars + ParseSpec(text, home).value)
  {
    hide Entries, Lines, Run, PlainText;
    CollectAssigns(Entries(Lines(text), home), 1, map[], vars);
    assert vars + map[] == vars;
    PlainRuns(text, vars, home);
  }
}
