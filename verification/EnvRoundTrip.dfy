/** Values printed as quoted assignments are read back unchanged, whatever HOME is. */
module EnvRoundTrip {
  import opened Text
  import opened EnvFile
  import opened EnvShell
  import opened EnvAgreement

  /** A value some quoting can carry on one line. */
  predicate Representable(v: string) {
    '\n' !in v && ('\'' !in v || ('"' !in v && '$' !in v && '\\' !in v && '`' !in v))
  }

  function QuoteFor(v: string): char {
    if '\'' in v then '"' else '\''
  }

  function Assignment(k: string, v: string): string {
    k + ['='] + ([QuoteFor(v)] + v + [QuoteFor(v)])
  }

  /** A file with one quoted assignment a line. */
  function Print(pairs: seq<(string, string)>): string {
    if pairs == [] then "" else Assignment(pairs[0].0, pairs[0].1) + ['\n'] + Print(pairs[1..])
  }

  function Pairs(pairs: seq<(string, string)>): Values {
    if pairs == [] then map[] else Pairs(pairs[1..])[pairs[0].0 := pairs[0].1]
  }

  predicate Printable(pairs: seq<(string, string)>) {
    && (forall i :: 0 <= i < |pairs| ==> IsKey(pairs[i].0) && Representable(pairs[i].1))
    && (forall i, j :: 0 <= i < j < |pairs| ==> pairs[i].0 != pairs[j].0)
  }

  lemma QuotedValue(v: string, home: Option<string>)
    requires Representable(v)
    ensures ParseValue([QuoteFor(v)] + v + [QuoteFor(v)], home) == Ok(v)
  {
    var q := QuoteFor(v);
    var raw := [q] + v + [q];
    assert raw[1..] == v + [q] + "";
    FindSplit(v, q, "");
    assert raw[1..1 + |v|] == v;
    assert raw[|v| + 2..] == "";
    if q == '"' {
      assert Find(v, '$') == |v|;
    }
  }

  lemma KeyHasNo(k: string)
    requires IsKey(k)
    ensures k != "" && !IsWhitespace(k[0]) && k[0] != '#'
    ensures '=' !in k && '\n' !in k && '#' !in k && !StartsWith(k, "export ")
  {
    hide IsKey;
    KeysAreNames(k);
    assert |k| > 6 ==> k[..7][6] == k[6];
  }

  lemma AssignmentLine(k: string, v: string, home: Option<string>)
    requires IsKey(k) && Representable(v)
    ensures ParseLine(TrimStart(Assignment(k, v)), home) == Set(k, v)
    ensures '\n' !in Assignment(k, v)
  {
    hide IsKey, StartsWith, ParseValue, IsWhitespace, QuoteFor;
    var quoted := [QuoteFor(v)] + v + [QuoteFor(v)];
    var line := Assignment(k, v);
    KeyHasNo(k);
    QuotedValue(v, home);
    FindSplit(k, '=', quoted);
    assert line[..|k|] == k && line[|k| + 1..] == quoted;
    assert TrimStart(line) == line;
    QuoteIs(v);
  }

  lemma QuoteIs(v: string)
    ensures QuoteFor(v) != '\n' && QuoteFor(v) != '#'
  {
  }

  lemma PrintedFirst(pairs: seq<(string, string)>, home: Option<string>)
    requires pairs != [] && Printable(pairs)
    ensures var entries := Entries(Lines(Print(pairs)), home);
            && entries != [] && entries[0] == Set(pairs[0].0, pairs[0].1)
            && entries[1..] == Entries(Lines(Print(pairs[1..])), home)
  {
    hide Entries, Lines, ParseLine, IsKey, Representable, TrimStart, Assignment;
    var (k, v) := pairs[0];
    var text := Print(pairs);
    AssignmentLine(k, v, home);
    FindSplit(Assignment(k, v), '\n', Print(pairs[1..]));
    assert FirstLine(text) == Assignment(k, v) && Following(text) == Print(pairs[1..]);
    EntriesStep(text, home);
  }

  lemma {:induction false} PrintedCollects(pairs: seq<(string, string)>, number: nat, values: Values,
                                           home: Option<string>)
    requires Printable(pairs) && forall i :: 0 <= i < |pairs| ==> pairs[i].0 !in values
    ensures Collect(Entries(Lines(Print(pairs)), home), number, values) == Ok(values + Pairs(pairs))
  {
    hide Entries, Lines, ParseLine, IsKey, Representable, TrimStart, Assignment;
    if pairs == [] {
      NoEntries(home, map[]);
      assert values + map[] == values;
    } else {
      var (k, v) := pairs[0];
      PrintedFirst(pairs, home);
      hide Print;
      PrintedCollects(pairs[1..], number + 1, values[k := v], home);
      assert forall i :: 0 <= i < |pairs| - 1 ==> pairs[1..][i] == pairs[i + 1];
      FreshPairs(pairs[1..], k);
      assert values[k := v] + Pairs(pairs[1..]) == values + Pairs(pairs);
    }
  }

  lemma {:induction false} FreshPairs(pairs: seq<(string, string)>, k: string)
    requires forall i :: 0 <= i < |pairs| ==> pairs[i].0 != k
    ensures k !in Pairs(pairs)
  {
    if pairs != [] {
      FreshPairs(pairs[1..], k);
    }
  }

  /** Parsing what was printed gives the map back. */
  lemma RoundTrip(pairs: seq<(string, string)>, home: Option<string>)
    requires Printable(pairs)
    ensures ParseSpec(Print(pairs), home) == Ok(Pairs(pairs))
  {
    hide Entries, Lines, Print;
    PrintedCollects(pairs, 1, map[], home);
    assert map[] + Pairs(pairs) == Pairs(pairs);
  }
}
