/** Which environment files are accepted, against a grammar of values, lines and files. */
module EnvGrammar {
  import opened Text
  import opened EnvFile
  import opened EnvExpansion
  import opened EnvAgreement
  import opened EnvLimits
  import opened EnvLines
  import opened EnvRoundTrip

  // ---- Values ----

  /** What may follow a value: nothing, whitespace, or whitespace and a comment. */
  ghost predicate IsTail(rest: string) {
    exists w, c :: rest == w + c && AllWhitespace(w) && (c == "" || (w != "" && c[0] == '#'))
  }

  lemma TailExact(rest: string)
    ensures OnlyComment(rest) <==> IsTail(rest)
  {
    assert !IsWhitespace('#');
    hide IsWhitespace;
    if OnlyComment(rest) {
      var w, c := rest[..Lead(rest)], TrimStart(rest);
      assert rest == w + c && AllWhitespace(w) && (c == "" || (w != "" && c[0] == '#'));
    }
    if IsTail(rest) {
      var w, c :| rest == w + c && AllWhitespace(w) && (c == "" || (w != "" && c[0] == '#'));
      LeadOf(w, c);
      assert rest[|w|..] == c;
    }
  }

  /** A word without whitespace, quotes, shell operators or a `~` a shell would expand. */
  predicate IsBare(word: string) {
    && (forall i :: 0 <= i < |word| ==>
          && !IsWhitespace(word[i]) && word[i] != '"' && word[i] != '\''
          && word[i] != ';' && word[i] != '&' && word[i] != '|' && word[i] != '<' && word[i] != '>'
          && word[i] != '(' && word[i] != ')')
    && (word != "" ==> word[0] != '~')
    && forall i :: 0 < i < |word| && word[i] == '~' ==> word[i - 1] != ':'
  }

  /** A text of literals and HOME references that stands for a value. */
  ghost predicate Expands(text: string, home: Option<string>, v: string) {
    exists segs :: Legal(segs) && Resolves(segs, home) && Render(segs) == text && Meanings(segs, home) == v
  }

  /** A single-quoted text, a double-quoted expandable text, or a bare expandable word. */
  ghost predicate IsBody(body: string, home: Option<string>, v: string) {
    || (body == "'" + v + "'" && '\'' !in v)
    || (|body| >= 2 && body == "\"" + body[1..|body| - 1] + "\"" && '"' !in body[1..|body| - 1]
        && Expands(body[1..|body| - 1], home, v))
    || (IsBare(body) && Expands(body, home, v))
  }

  ghost predicate IsValue(raw: string, home: Option<string>, v: string) {
    exists body, rest :: raw == body + rest && IsBody(body, home, v) && IsTail(rest)
  }

  lemma ExpandsExact(text: string, home: Option<string>, v: string)
    ensures ExpandSpec(text, home) == Ok(v) <==> Expands(text, home, v)
  {
    ExpandExact(text, home, v);
  }

  lemma BareExact(word: string)
    requires forall i :: 0 <= i < |word| ==> !IsWhitespace(word[i])
    ensures IsBare(word) <==> !HasOperator(word) && !HasTilde(word)
  {
    hide IsWhitespace;
    if HasOperator(word) {
      var i :| 0 <= i < |word| && word[i] in "\"';&|<>()";
      assert !IsBare(word);
    }
    if HasTilde(word) && word[0] != '~' {
      var i :| 0 <= i < |word| - 1 && word[i] == ':' && word[i + 1] == '~';
      assert !IsBare(word);
    }
    if !HasOperator(word) && !HasTilde(word) {
      forall i | 0 <= i < |word| ensures word[i] !in "\"';&|<>()" {
      }
      assert forall i :: 0 < i < |word| && word[i] == '~' ==> word[i - 1] != ':';
      var ops := "\"';&|<>()";
      assert ops[0] == '"' && ops[1] == '\'' && ops[2] == ';' && ops[3] == '&' && ops[4] == '|' && ops[5] == '<';
      assert ops[6] == '>' && ops[7] == '(' && ops[8] == ')';
    }
  }

  lemma {:induction false} FindWhitespaceOf(word: string, rest: string)
    requires forall i :: 0 <= i < |word| ==> !IsWhitespace(word[i])
    requires rest == "" || IsWhitespace(rest[0])
    ensures FindWhitespace(word + rest) == |word|
  {
    hide IsWhitespace;
    if word == "" {
      assert word + rest == rest;
    } else {
      assert (word + rest)[1..] == word[1..] + rest;
      FindWhitespaceOf(word[1..], rest);
    }
  }

  lemma QuotedRead(q: char, inner: string, rest: string, home: Option<string>)
    requires (q == '"' || q == '\'') && q !in inner
    ensures var raw := [q] + inner + [q] + rest;
            && ValueLength(raw) == |inner| + 2 && raw[ValueLength(raw)..] == rest
            && ReadValue(raw, home) == if q == '"' then ExpandSpec(inner, home) else Ok(inner)
  {
    hide ExpandSpec;
    var raw := [q] + inner + [q] + rest;
    assert raw[1..] == inner + [q] + rest;
    FindSplit(inner, q, rest);
    assert raw[1..1 + |inner|] == inner;
  }

  lemma BareRead(word: string, rest: string, home: Option<string>)
    requires IsBare(word) && (rest == "" || IsWhitespace(rest[0]))
    ensures var raw := word + rest;
            && ValueLength(raw) == |word| && raw[ValueLength(raw)..] == rest
            && ReadValue(raw, home) == ExpandSpec(word, home)
  {
    BareExact(word);
    assert !IsWhitespace('"') && !IsWhitespace('\'');
    hide IsWhitespace, ExpandSpec, HasOperator, HasTilde;
    var raw := word + rest;
    FindWhitespaceOf(word, rest);
    assert raw[..|word|] == word;
    assert !IsQuoted(raw) by {
      assert raw != "" ==> raw[0] == if word == "" then rest[0] else word[0];
    }
  }

  lemma TailStarts(rest: string)
    requires IsTail(rest)
    ensures rest == "" || IsWhitespace(rest[0])
  {
    hide IsWhitespace;
    var w, c :| rest == w + c && AllWhitespace(w) && (c == "" || (w != "" && c[0] == '#'));
  }

  lemma BodyParses(body: string, rest: string, home: Option<string>, v: string)
    requires IsBody(body, home, v) && IsTail(rest)
    ensures ParseValue(body + rest, home) == Ok(v)
  {
    hide ReadValue, ValueLength, OnlyComment, ExpandSpec, Expands, IsTail, IsBare;
    TailExact(rest);
    TailStarts(rest);
    if body == "'" + v + "'" && '\'' !in v {
      QuotedRead('\'', v, rest, home);
      assert body + rest == ['\''] + v + ['\''] + rest;
    } else if IsBare(body) && Expands(body, home, v) {
      BareRead(body, rest, home);
      ExpandsExact(body, home, v);
    } else {
      var inner := body[1..|body| - 1];
      QuotedRead('"', inner, rest, home);
      assert body + rest == ['"'] + inner + ['"'] + rest;
      ExpandsExact(inner, home, v);
    }
  }

  lemma ParsedBody(raw: string, home: Option<string>, v: string)
    requires ReadValue(raw, home) == Ok(v)
    ensures IsBody(raw[..ValueLength(raw)], home, v)
  {
    hide ExpandSpec, Expands, IsBare, IsWhitespace;
    var body := raw[..ValueLength(raw)];
    if IsQuoted(raw) {
      var end := Find(raw[1..], raw[0]);
      var inner := raw[1..1 + end];
      assert body == [raw[0]] + inner + [raw[0]] && raw[0] !in inner;
      if raw[0] == '"' {
        ExpandsExact(inner, home, v);
        assert body[1..|body| - 1] == inner;
      }
    } else {
      BareExact(body);
      ExpandsExact(body, home, v);
    }
  }

  /** A value is accepted, as `v`, exactly when it is one of the three forms for `v` with a proper tail. */
  lemma ValueExact(raw: string, home: Option<string>, v: string)
    ensures ParseValue(raw, home) == Ok(v) <==> IsValue(raw, home, v)
  {
    hide IsBody, IsTail, ReadValue, ValueLength, OnlyComment;
    if ParseValue(raw, home) == Ok(v) {
      var n := ValueLength(raw);
      ParsedBody(raw, home, v);
      TailExact(raw[n..]);
      assert raw == raw[..n] + raw[n..];
    }
    forall body, rest | raw == body + rest && IsBody(body, home, v) && IsTail(rest)
      ensures ParseValue(raw, home) == Ok(v)
    {
      BodyParses(body, rest, home, v);
    }
  }

  // ---- Lines ----

  /** An assignment of an allowed key. */
  ghost predicate Assigns(line: string, home: Option<string>, k: string, v: string) {
    IsKey(k) && exists raw :: line == k + "=" + raw && IsValue(raw, home, v)
  }

  predicate IsIgnored(line: string) {
    line == "" || line[0] == '#'
  }

  /** A trimmed line sets a key exactly when it is such an assignment, and is skipped exactly if blank or a comment. */
  lemma LineExact(line: string, home: Option<string>, k: string, v: string)
    ensures ParseLine(line, home) == Set(k, v) <==> Assigns(line, home, k, v)
    ensures ParseLine(line, home) == Skip <==> IsIgnored(line)
  {
    hide ParseValue, IsKey, IsValue, StartsWith, IsWhitespace;
    if ParseLine(line, home) == Set(k, v) {
      var raw := line[|k| + 1..];
      assert line == k + "=" + raw;
      ValueExact(raw, home, v);
    }
    if IsKey(k) {
      KeyHasNo(k);
      forall raw | line == k + "=" + raw && IsValue(raw, home, v) ensures ParseLine(line, home) == Set(k, v) {
        assert line == k + ['='] + raw;
        FindSplit(k, '=', raw);
        assert line[..|k|] == k && line[|k| + 1..] == raw;
        ValueExact(raw, home, v);
      }
    }
  }

  // ---- Files ----

  ghost predicate LineSets(line: string, home: Option<string>, k: string, v: string) {
    Assigns(Trim(line), home, k, v)
  }

  /** Every line is blank, a comment or an assignment of an allowed key. */
  ghost predicate AllWellFormed(lines: seq<string>, home: Option<string>) {
    forall i :: 0 <= i < |lines| ==> IsIgnored(Trim(lines[i])) || exists k, v :: LineSets(lines[i], home, k, v)
  }

  ghost predicate NoneRepeats(lines: seq<string>, home: Option<string>) {
    forall i, j, k, v, v' :: 0 <= i < j < |lines| && LineSets(lines[i], home, k, v) ==> !LineSets(lines[j], home, k, v')
  }

  lemma EntryExact(line: string, home: Option<string>)
    ensures var entry := ParseLine(Trim(line), home);
            && (entry.Skip? <==> IsIgnored(Trim(line)))
            && (entry.Set? <==> exists k, v :: LineSets(line, home, k, v))
            && (forall k, v :: entry == Set(k, v) <==> LineSets(line, home, k, v))
  {
    hide ParseLine, Assigns, Trim;
    forall k, v ensures ParseLine(Trim(line), home) == Set(k, v) <==> LineSets(line, home, k, v) {
      LineExact(Trim(line), home, k, v);
    }
    LineExact(Trim(line), home, "", "");
    var entry := ParseLine(Trim(line), home);
    if entry.Set? {
      assert LineSets(line, home, entry.key, entry.value);
    }
  }

  /** A file is accepted exactly when every line is well formed and no key repeats. */
  lemma FileExact(text: string, home: Option<string>)
    ensures ParseSpec(text, home).Ok? <==> AllWellFormed(Lines(text), home) && NoneRepeats(Lines(text), home)
  {
    hide Lines, ParseLine, Trim, LineSets, ParseSpec;
    var lines := Lines(text);
    var entries := Entries(lines, home);
    forall i | 0 <= i < |lines|
      ensures entries[i].Skip? <==> IsIgnored(Trim(lines[i]))
      ensures entries[i].Set? <==> exists k, v :: LineSets(lines[i], home, k, v)
      ensures forall k, v :: entries[i] == Set(k, v) <==> LineSets(lines[i], home, k, v)
    {
      EntryExact(lines[i], home);
    }
    AcceptsExactly(text, home);
    assert NoneBad(entries) <==> AllWellFormed(lines, home);
    RepeatsExact(entries, lines, home);
  }

  /** And it holds exactly what its lines set. */
  lemma FileHolds(text: string, home: Option<string>, k: string, v: string)
    requires ParseSpec(text, home).Ok?
    ensures (k in ParseSpec(text, home).value && ParseSpec(text, home).value[k] == v) <==>
            exists i :: 0 <= i < |Lines(text)| && LineSets(Lines(text)[i], home, k, v)
  {
    hide Lines, ParseLine, Trim, LineSets, ParseSpec;
    var lines := Lines(text);
    var entries := Entries(lines, home);
    forall i | 0 <= i < |lines| ensures entries[i] == Set(k, v) <==> LineSets(lines[i], home, k, v) {
      EntryExact(lines[i], home);
    }
    HoldsExactly(text, home, k, v);
  }

  lemma RepeatsExact(entries: seq<Entry>, lines: seq<string>, home: Option<string>)
    requires |entries| == |lines|
    requires forall i, k, v :: 0 <= i < |lines| ==> (entries[i] == Set(k, v) <==> LineSets(lines[i], home, k, v))
    ensures KeysDiffer(entries) <==> NoneRepeats(lines, home)
  {
    hide LineSets;
    if NoneRepeats(lines, home) {
      forall i, j | 0 <= i < j < |entries| && entries[i].Set? && entries[j].Set?
        ensures entries[i].key != entries[j].key
      {
        assert LineSets(lines[i], home, entries[i].key, entries[i].value);
        assert LineSets(lines[j], home, entries[j].key, entries[j].value);
      }
    }
    if KeysDiffer(entries) {
      forall i, j, k, v, v' | 0 <= i < j < |lines| && LineSets(lines[i], home, k, v)
        ensures !LineSets(lines[j], home, k, v')
      {
        assert entries[i] == Set(k, v) && entries[j] != Set(k, v');
      }
    }
  }

  // ---- Errors ----

  /** The line an error names: malformed, or setting a key an earlier line set. */
  predicate Offends(entries: seq<Entry>, i: nat, why: LineError)
    requires i < |entries|
  {
    || entries[i] == Bad(why)
    || (why == Repeated && entries[i].Set? && SetsKey(entries[..i], entries[i].key))
  }

  lemma {:induction false} CollectFails(entries: seq<Entry>, number: nat, values: Values)
    requires Collect(entries, number, values).Err?
    ensures var FileError(n, why) := Collect(entries, number, values).error;
            && number <= n < number + |entries| && NoneBad(entries[..n - number])
            && Collect(entries[..n - number], number, values).Ok?
            && (entries[n - number] == Bad(why)
                || (why == Repeated && entries[n - number].Set?
                    && entries[n - number].key in Collect(entries[..n - number], number, values).value))
  {
    var FileError(n, why) := Collect(entries, number, values).error;
    if !entries[0].Bad? && !(entries[0].Set? && entries[0].key in values) {
      var values' := if entries[0].Set? then values[entries[0].key := entries[0].value] else values;
      CollectFails(entries[1..], number + 1, values');
      var m := n - number;
      assert entries[..m][1..] == entries[1..][..m - 1] && entries[..m][0] == entries[0];
      assert entries[m] == entries[1..][m - 1];
      assert forall i :: 0 < i < m ==> entries[..m][i] == entries[1..][..m - 1][i - 1];
    }
  }

  /** An error carries the number, from one, of the first line that is malformed or repeats a key, and says which. */
  lemma ErrorExact(text: string, home: Option<string>)
    requires ParseSpec(text, home).Err?
    ensures var entries := Entries(Lines(text), home);
            var FileError(n, why) := ParseSpec(text, home).error;
            && 1 <= n <= |Lines(text)| && NoneBad(entries[..n - 1]) && KeysDiffer(entries[..n - 1])
            && Offends(entries, n - 1, why)
  {
    hide Lines, Entries;
    var entries := Entries(Lines(text), home);
    var FileError(n, why) := ParseSpec(text, home).error;
    CollectFails(entries, 1, map[]);
    var before := entries[..n - 1];
    CollectDiffers(before, 1, map[]);
    if entries[n - 1].Set? {
      var k := entries[n - 1].key;
      var m := Collect(before, 1, map[]).value;
      if k in m {
        CollectHolds(before, 1, map[], k, m[k]);
        var i :| 0 <= i < |before| && before[i] == Set(k, m[k]);
        assert SetsKey(before, k);
      }
    }
  }

  ghost predicate NoValue(raw: string, home: Option<string>) {
    forall v :: !IsValue(raw, home, v)
  }

  /** Why a line is malformed. */
  lemma MalformedExact(line: string, home: Option<string>)
    requires ParseLine(line, home).Bad?
    ensures !IsIgnored(line)
    ensures match ParseLine(line, home).error
            case NotAssignment => '=' !in line
            case Exported => exists rest :: line == "export " + rest && '=' in rest
            case UnknownKey => '=' in line && !IsKey(line[..Find(line, '=')])
            case BadValue(_) => '=' in line && IsKey(line[..Find(line, '=')])
                                && NoValue(line[Find(line, '=') + 1..], home)
            case Repeated => false
  {
    hide ParseValue, IsKey, IsValue;
    var eq := Find(line, '=');
    if eq < |line| {
      assert line[eq] == '=';
      if StartsWith(line[..eq], "export ") {
        assert line == "export " + line[7..] && line[7..][eq - 7] == '=';
      } else if IsKey(line[..eq]) {
        var raw := line[eq + 1..];
        forall v ensures !IsValue(raw, home, v) {
          ValueExact(raw, home, v);
        }
      }
    }
  }
}
