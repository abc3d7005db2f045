/** How the reference shell reads the lines the environment-file parser accepts. */
module EnvShell {
  import opened Text
  import opened EnvFile
  import opened EnvExpansion
  import opened Shell

  predicate AllBlank(s: string) {
    forall i :: 0 <= i < |s| ==> IsBlank(s[i])
  }

  /** What follows the value on a line that begins with a key. */
  function AfterValue(s: string): string
    requires Find(s, '=') < |s|
  {
    var raw := s[Find(s, '=') + 1..];
    raw[ValueLength(raw)..]
  }

  /** A line whose whitespace outside quotes and comments is spaces and tabs. */
  predicate PlainLine(line: string) {
    var s := TrimStart(line);
    && AllBlank(line[..Lead(line)])
    && (s == "" || s[0] == '#' || Find(s, '=') == |s| || AllBlank(AfterValue(s)[..Lead(AfterValue(s))]))
  }

  predicate PlainText(text: string)
    decreases |text|
  {
    var k := Find(text, '\n');
    PlainLine(text[..k]) && (k < |text| ==> PlainText(text[k + 1..]))
  }

  // ---- Trailing whitespace does not matter to the parser ----

  lemma {:induction false} FindAppend(a: string, w: string, c: char)
    requires c !in w
    ensures Find(a + w, c) == if Find(a, c) < |a| then Find(a, c) else |a| + |w|
  {
    if a == "" {
      assert a + w == w;
    } else if a[0] != c {
      FindAppend(a[1..], w, c);
      assert (a + w)[1..] == a[1..] + w;
    }
  }

  lemma {:induction false} FindWhitespaceAppend(a: string, w: string)
    requires AllWhitespace(w)
    ensures FindWhitespace(a + w) == FindWhitespace(a)
  {
    if a == "" {
      assert a + w == w;
    } else if !IsWhitespace(a[0]) {
      FindWhitespaceAppend(a[1..], w);
      assert (a + w)[1..] == a[1..] + w;
    }
  }

  lemma {:induction false} LeadAppend(a: string, w: string)
    requires AllWhitespace(w)
    ensures Lead(a + w) == if Lead(a) == |a| then |a| + |w| else Lead(a)
  {
    if a == "" {
      assert a + w == w;
    } else if IsWhitespace(a[0]) {
      LeadAppend(a[1..], w);
      assert (a + w)[1..] == a[1..] + w;
    }
  }

  lemma OnlyCommentAppend(rest: string, w: string)
    requires AllWhitespace(w)
    ensures OnlyComment(rest + w) == OnlyComment(rest)
  {
    LeadAppend(rest, w);
  }

  lemma ReadValueAppend(raw: string, w: string, home: Option<string>)
    requires AllWhitespace(w)
    ensures ReadValue(raw + w, home) == ReadValue(raw, home)
    ensures ReadValue(raw, home).Ok? ==> ValueLength(raw + w) == ValueLength(raw)
  {
    hide ExpandSpec, HasOperator, HasTilde;
    if IsQuoted(raw) {
      assert (raw + w)[1..] == raw[1..] + w;
      FindAppend(raw[1..], w, raw[0]);
      var end := Find(raw[1..], raw[0]);
      if end < |raw| - 1 {
        assert (raw + w)[1..1 + end] == raw[1..1 + end];
      }
    } else {
      FindWhitespaceAppend(raw, w);
      var k := FindWhitespace(raw);
      assert (raw + w)[..k] == raw[..k];
    }
  }

  lemma ParseValueAppend(raw: string, w: string, home: Option<string>)
    requires AllWhitespace(w)
    ensures ParseValue(raw + w, home) == ParseValue(raw, home)
  {
    hide ReadValue, ValueLength, OnlyComment;
    ReadValueAppend(raw, w, home);
    if ReadValue(raw, home).Ok? {
      var n := ValueLength(raw);
      assert (raw + w)[n..] == raw[n..] + w;
      OnlyCommentAppend(raw[n..], w);
    }
  }

  lemma ParseLineAppend(t: string, w: string, home: Option<string>)
    requires AllWhitespace(w) && (t == "" ==> w == "")
    ensures ParseLine(t + w, home) == ParseLine(t, home)
  {
    hide ParseValue, StartsWith, IsKey;
    if t == "" {
      assert t + w == t;
    } else {
      FindAppend(t, w, '=');
      var eq := Find(t, '=');
      if eq < |t| {
        assert (t + w)[..eq] == t[..eq];
        assert (t + w)[eq + 1..] == t[eq + 1..] + w;
        ParseValueAppend(t[eq + 1..], w, home);
      }
    }
  }

  lemma ParseLineTrimmed(line: string, home: Option<string>)
    ensures ParseLine(Trim(line), home) == ParseLine(TrimStart(line), home)
  {
    hide ParseLine;
    var s := TrimStart(line);
    assert s == s[..Trail(s)] + s[Trail(s)..];
    ParseLineAppend(s[..Trail(s)], s[Trail(s)..], home);
  }

  // ---- How the shell reads the pieces of an accepted line ----

  /** A character a word takes as it is, wherever it stands. */
  predicate Ordinary(c: char) {
    !EndsWord(c) && c !in "'\"`\\$"
  }

  lemma {:induction false} OrdinaryWord(a: string, t: string)
    requires forall i :: 0 <= i < |a| ==> Ordinary(a[i])
    ensures ReadWord(a + t) == Prepend(Chars(a, false), ReadWord(t))
  {
    if a == "" {
      assert a + t == t;
      PrependTwice([], [], ReadWord(t));
    } else {
      OrdinaryWord(a[1..], t);
      assert (a + t)[1..] == a[1..] + t;
      assert Chars(a, false) == [Char(a[0], false)] + Chars(a[1..], false);
      PrependTwice([Char(a[0], false)], Chars(a[1..], false), ReadWord(t));
    }
  }

  lemma PrependTwice(p: Word, q: Word, scan: Scan)
    ensures Prepend(p, Prepend(q, scan)) == Prepend(p + q, scan)
    ensures Prepend([], scan) == scan
  {
    if scan.Scan? {
      assert p + (q + scan.pieces) == p + q + scan.pieces;
      assert [] + scan.pieces == scan.pieces;
    }
  }

  lemma {:induction false} NameRunAppend(a: string, t: string)
    requires forall i :: 0 <= i < |a| ==> IsNameChar(a[i])
    requires t != "" ==> !IsNameChar(t[0])
    ensures NameRun(a + t) == |a|
  {
    if a == "" {
      assert a + t == t;
    } else {
      NameRunAppend(a[1..], t);
      assert (a + t)[1..] == a[1..] + t;
    }
  }

  lemma DollarHome(braced: bool, t: string)
    requires !braced && t != "" ==> !IsNameChar(t[0])
    ensures ReadDollar(Source(Home(braced))[1..] + t) == Scan([Param("HOME")], t)
  {
    var s := Source(Home(braced))[1..] + t;
    if braced {
      assert s == "{HOME" + ['}'] + t;
      FindSplit("{HOME", '}', t);
      assert s[1..5] == "HOME";
    } else {
      NameRunAppend("HOME", t);
      assert s[..4] == "HOME";
    }
  }

  function Pieces(segs: seq<Seg>, quoted: bool): Word {
    if segs == [] then [] else
      [match segs[0] case Lit(c) => Char(c, quoted) case Home(_) => Param("HOME")] + Pieces(segs[1..], quoted)
  }

  /** Whether `t` cannot be taken into a `$HOME` before it. */
  predicate ClosesName(t: string) {
    t == "" || !IsNameChar(t[0])
  }

  lemma RenderCloses(segs: seq<Seg>, t: string)
    requires Legal(segs) && segs != [] && segs[0] == Home(false) && ClosesName(t)
    ensures ClosesName(Render(segs[1..]) + t)
  {
    RenderStart(segs[1..]);
  }

  lemma HomeStep(braced: bool, t: string)
    requires !braced ==> ClosesName(t)
    ensures ReadDouble(Source(Home(braced)) + t) == Prepend([Param("HOME")], ReadDouble(t))
    ensures ReadWord(Source(Home(braced)) + t) == Prepend([Param("HOME")], ReadWord(t))
  {
    hide ReadDollar, ReadDouble, ReadWord;
    var s := Source(Home(braced)) + t;
    DollarHome(braced, t);
    assert s[1..] == Source(Home(braced))[1..] + t;
    DollarInDouble(s, [Param("HOME")], t);
    DollarInWord(s, [Param("HOME")], t);
  }

  lemma DollarInDouble(s: string, p: Word, rest: string)
    requires s != "" && s[0] == '$' && ReadDollar(s[1..]) == Scan(p, rest)
    ensures ReadDouble(s) == Prepend(p, ReadDouble(rest))
  {
    hide ReadDollar;
  }

  lemma DollarInWord(s: string, p: Word, rest: string)
    requires s != "" && s[0] == '$' && ReadDollar(s[1..]) == Scan(p, rest)
    ensures ReadWord(s) == Prepend(p, ReadWord(rest))
  {
    hide ReadDollar, ReadDouble;
  }

  lemma DoubleStep(c: char, t: string)
    requires c !in "\"\\`$"
    ensures ReadDouble([c] + t) == Prepend([Char(c, true)], ReadDouble(t))
  {
    assert ([c] + t)[1..] == t;
  }

  /** The shell reads a rendering inside double quotes as the same segments. */
  lemma {:induction false} DoubleReads(segs: seq<Seg>, t: string)
    requires Legal(segs) && ClosesName(t)
    requires forall i :: 0 <= i < |Render(segs)| ==> Render(segs)[i] != '"'
    ensures ReadDouble(Render(segs) + t) == Prepend(Pieces(segs, true), ReadDouble(t))
  {
    hide ReadDouble, Source;
    if segs == [] {
      assert Render(segs) + t == t;
      PrependTwice([], [], ReadDouble(t));
    } else {
      var r := Render(segs[1..]);
      assert Render(segs) + t == Source(segs[0]) + (r + t);
      assert forall i :: 0 <= i < |r| ==> r[i] == Render(segs)[|Source(segs[0])| + i];
      DoubleReads(segs[1..], t);
      match segs[0]
      case Lit(c) =>
        RenderStart(segs);
        SourceOf(c);
        DoubleStep(c, r + t);
        PrependTwice([Char(c, true)], Pieces(segs[1..], true), ReadDouble(t));
      case Home(b) =>
        if !b {
          RenderCloses(segs, t);
        }
        HomeStep(b, r + t);
        PrependTwice([Param("HOME")], Pieces(segs[1..], true), ReadDouble(t));
    }
  }

  /** The shell reads a rendering in a bare word as the same segments. */
  lemma {:induction false} BareReads(segs: seq<Seg>, t: string)
    requires Legal(segs) && ClosesName(t)
    requires forall i :: 0 <= i < |Render(segs)| ==> !EndsWord(Render(segs)[i]) && Render(segs)[i] !in "'\""
    ensures ReadWord(Render(segs) + t) == Prepend(Pieces(segs, false), ReadWord(t))
  {
    hide ReadWord, Source;
    if segs == [] {
      assert Render(segs) + t == t;
      PrependTwice([], [], ReadWord(t));
    } else {
      var r := Render(segs[1..]);
      assert Render(segs) + t == Source(segs[0]) + (r + t);
      assert forall i :: 0 <= i < |r| ==> r[i] == Render(segs)[|Source(segs[0])| + i];
      BareReads(segs[1..], t);
      match segs[0]
      case Lit(c) =>
        RenderStart(segs);
        SourceOf(c);
        OrdinaryWord([c], r + t);
        assert Chars([c], false) == [Char(c, false)];
        PrependTwice([Char(c, false)], Pieces(segs[1..], false), ReadWord(t));
      case Home(b) =>
        if !b {
          RenderCloses(segs, t);
        }
        HomeStep(b, r + t);
        PrependTwice([Param("HOME")], Pieces(segs[1..], false), ReadWord(t));
    }
  }

  lemma SourceOf(c: char)
    ensures Source(Lit(c)) == [c]
  {
  }

  // ---- What the pieces mean ----

  predicate HomeIs(vars: Vars, home: Option<string>) {
    home.Some? ==> "HOME" in vars && vars["HOME"] == home.value
  }

  /** Text without a tilde means itself. */
  lemma {:induction false} CharsValue(s: string, quoted: bool, vars: Vars, atPrefix: bool)
    requires quoted || '~' !in s
    ensures Value(Chars(s, quoted), vars, atPrefix) == Some(s)
  {
    if s != "" {
      CharsValue(s[1..], quoted, vars, s[0] == ':' && !quoted);
      assert Chars(s, quoted)[1..] == Chars(s[1..], quoted);
      assert s == [s[0]] + s[1..];
    }
  }

  lemma {:induction false} QuotedThenValue(s: string, x: string, vars: Vars, atPrefix: bool)
    requires '~' !in x
    ensures Value(Chars(s, true) + Chars(x, false), vars, atPrefix) == Some(s + x)
  {
    var w := Chars(s, true) + Chars(x, false);
    if s == "" {
      assert w == Chars(x, false) && s + x == x;
      CharsValue(x, false, vars, atPrefix);
    } else {
      QuotedThenValue(s[1..], x, vars, false);
      assert w[1..] == Chars(s[1..], true) + Chars(x, false);
      assert s + x == [s[0]] + (s[1..] + x);
    }
  }

  /** No `~` stands where a tilde-prefix could begin. */
  predicate TildeFree(word: string, atPrefix: bool) {
    word == "" || (!(atPrefix && word[0] == '~') && TildeFree(word[1..], word[0] == ':'))
  }

  lemma {:induction false} NoTilde(word: string, atPrefix: bool)
    requires atPrefix && word != "" ==> word[0] != '~'
    requires forall i :: 0 <= i < |word| - 1 ==> !(word[i] == ':' && word[i + 1] == '~')
    ensures TildeFree(word, atPrefix)
  {
    if word != "" {
      NoTilde(word[1..], word[0] == ':');
    }
  }

  lemma {:induction false} TildeFreeAfter(a: string, rest: string, atPrefix: bool)
    requires TildeFree(a + rest, atPrefix) && a != "" && ':' !in a
    ensures TildeFree(rest, false)
  {
    assert (a + rest)[1..] == a[1..] + rest;
    if |a| == 1 {
      assert a[1..] + rest == rest;
    } else {
      TildeFreeAfter(a[1..], rest, a[0] == ':');
    }
  }

  lemma TildeFreeLit(c: char, rest: string, atPrefix: bool)
    requires TildeFree([c] + rest, atPrefix)
    ensures !(atPrefix && c == '~') && TildeFree(rest, c == ':')
  {
    assert ([c] + rest)[1..] == rest;
  }

  lemma TildeFreeHome(seg: Seg, rest: string, atPrefix: bool)
    requires seg.Home? && TildeFree(Source(seg) + rest, atPrefix)
    ensures TildeFree(rest, false)
  {
    TildeFreeAfter(Source(seg), rest, atPrefix);
  }

  /** Segments mean what expansion says, and plain text after them means itself. */
  lemma {:induction false} PiecesValue(segs: seq<Seg>, quoted: bool, x: string, vars: Vars, home: Option<string>,
                                       atPrefix: bool)
    requires Resolves(segs, home) && HomeIs(vars, home) && '~' !in x
    requires quoted || TildeFree(Render(segs), atPrefix)
    ensures Value(Pieces(segs, quoted) + Chars(x, false), vars, atPrefix) == Some(Meanings(segs, home) + x)
  {
    hide Source, TildeFree, Value;
    var w := Pieces(segs, quoted) + Chars(x, false);
    if segs == [] {
      assert w == Chars(x, false);
      CharsValue(x, false, vars, atPrefix);
      assert Meanings(segs, home) + x == x;
    } else {
      var q := Pieces(segs[1..], quoted) + Chars(x, false);
      Regroup(Meaning(segs[0], home), Meanings(segs[1..], home), x);
      assert w == [Pieces(segs, quoted)[0]] + q;
      match segs[0]
      case Lit(c) =>
        SourceOf(c);
        if !quoted {
          TildeFreeLit(c, Render(segs[1..]), atPrefix);
        }
        CharValue(c, quoted, q, vars, atPrefix);
        PiecesValue(segs[1..], quoted, x, vars, home, c == ':' && !quoted);
      case Home(_) =>
        if !quoted {
          TildeFreeHome(segs[0], Render(segs[1..]), atPrefix);
        }
        ParamValue("HOME", q, vars, atPrefix);
        PiecesValue(segs[1..], quoted, x, vars, home, false);
    }
  }

  lemma CharValue(c: char, quoted: bool, w: Word, vars: Vars, atPrefix: bool)
    requires quoted || !(atPrefix && c == '~')
    ensures Value([Char(c, quoted)] + w, vars, atPrefix) == Join([c], Value(w, vars, c == ':' && !quoted))
  {
    assert ([Char(c, quoted)] + w)[1..] == w;
  }

  lemma ParamValue(name: string, w: Word, vars: Vars, atPrefix: bool)
    requires name in vars
    ensures Value([Param(name)] + w, vars, atPrefix) == Join(vars[name], Value(w, vars, false))
  {
    assert ([Param(name)] + w)[1..] == w;
  }

  lemma Regroup(a: string, b: string, c: string)
    ensures (a + b) + c == a + (b + c)
  {
  }

  // ---- A value, a line, a file ----

  /** What follows a line: nothing, or a newline and the next lines. */
  predicate EndsLine(tail: string) {
    tail == "" || tail[0] == '\n'
  }

  function NextLines(tail: string): string {
    if tail == "" then "" else tail[1..]
  }

  lemma {:induction false} SkipAllBlank(b: string, t: string)
    requires AllBlank(b) && (t == "" || !IsBlank(t[0]))
    ensures SkipBlanks(b + t) == t
  {
    if b == "" {
      assert b + t == t;
    } else {
      SkipAllBlank(b[1..], t);
      assert (b + t)[1..] == b[1..] + t;
    }
  }

  /** A blank or comment remainder holds no words. */
  lemma NoWords(rest: string, tail: string)
    requires '\n' !in rest && EndsLine(tail)
    requires AllBlank(rest[..Lead(rest)])
    requires Lead(rest) < |rest| ==> rest[Lead(rest)] == '#'
    ensures ReadCommand(rest + tail) == Command([], NextLines(tail))
  {
    hide ReadCommand, SkipBlanks, Find, Lead, IsWhitespace, AllBlank;
    var lead, comment := rest[..Lead(rest)], rest[Lead(rest)..];
    assert rest == lead + comment && '\n' !in comment;
    Regroup(lead, comment, tail);
    SkipAllBlank(lead, comment + tail);
    CommentStarts(comment, tail);
    NoToken(rest + tail, comment + tail);
    FindLineEnd(comment, tail);
  }

  lemma CommentStarts(comment: string, tail: string)
    requires comment == "" || comment[0] == '#'
    requires EndsLine(tail)
    ensures var t := comment + tail; t == "" || t[0] == '\n' || t[0] == '#'
  {
    if comment == "" {
      assert comment + tail == tail;
    }
  }

  lemma NoToken(s: string, t: string)
    requires SkipBlanks(s) == t && (t == "" || t[0] == '\n' || t[0] == '#')
    ensures ReadCommand(s) == Command([], if Find(t, '\n') < |t| then t[Find(t, '\n') + 1..] else "")
  {
    hide ReadWord, SkipBlanks, IsOperator;
    assert t != "" && t[0] == '\n' ==> Find(t, '\n') == 0;
    hide Find;
  }

  lemma FindLineEnd(line: string, tail: string)
    requires '\n' !in line && EndsLine(tail)
    ensures Find(line + tail, '\n') == |line|
    ensures tail != "" ==> (line + tail)[|line| + 1..] == tail[1..]
  {
    if tail == "" {
      FindAppend(line, "", '\n');
    } else {
      assert line + tail == line + ['\n'] + tail[1..];
      FindSplit(line, '\n', tail[1..]);
    }
  }

  /** The word the shell reads for an accepted value. */
  function ValueWord(raw: string): Word {
    if IsQuoted(raw) then
      var inner := raw[1..1 + Find(raw[1..], raw[0])];
      if raw[0] == '"' then Pieces(Segments(inner), true) else Chars(inner, true)
    else Pieces(Segments(raw[..FindWhitespace(raw)]), false)
  }

  lemma BareWordReads(word: string, t: string, home: Option<string>)
    requires !HasOperator(word) && ExpandSpec(word, home).Ok? && ClosesName(t)
    requires forall i :: 0 <= i < |word| ==> !IsWhitespace(word[i])
    ensures ReadWord(word + t) == Prepend(Pieces(Segments(word), false), ReadWord(t))
  {
    hide Segments, Pieces, Legal, ExpandSpec, Render, Meanings, ReadWord;
    SegmentsOf(word, home);
    forall i | 0 <= i < |word|
      ensures !EndsWord(word[i]) && word[i] !in "'\""
    {
      assert word[i] !in "\"';&|<>()";
    }
    BareReads(Segments(word), t);
  }

  lemma DoubleWordReads(inner: string, t: string, home: Option<string>)
    requires '"' !in inner && ExpandSpec(inner, home).Ok?
    ensures ReadWord(['"'] + inner + ['"'] + t) == Prepend(Pieces(Segments(inner), true), ReadWord(t))
  {
    hide Segments, Pieces, Legal, ExpandSpec, Render, Meanings, ReadDouble, ReadWord;
    SegmentsOf(inner, home);
    assert ['"'] + inner + ['"'] + t == ['"'] + (inner + (['"'] + t));
    DoubleReads(Segments(inner), ['"'] + t);
    CloseQuote(inner + (['"'] + t), Pieces(Segments(inner), true), t);
  }

  lemma CloseQuote(u: string, p: Word, t: string)
    requires ReadDouble(u) == Prepend(p, ReadDouble(['"'] + t))
    ensures ReadWord(['"'] + u) == Prepend(p, ReadWord(t))
  {
    assert (['"'] + u)[1..] == u;
    assert (['"'] + t)[1..] == t;
    assert ReadDouble(['"'] + t) == Scan([], t);
    assert p + [] == p;
  }

  lemma SingleWordReads(inner: string, t: string)
    requires '\'' !in inner
    ensures ReadWord(['\''] + inner + ['\''] + t) == Prepend(Chars(inner, true), ReadWord(t))
  {
    hide Prepend, Chars;
    var s := ['\''] + inner + ['\''] + t;
    assert s[1..] == inner + ['\''] + t;
    FindSplit(inner, '\'', t);
    assert s[1..1 + |inner|] == inner;
    assert s[|inner| + 2..] == t;
  }

  /** The shell reads an accepted value as one run of pieces. */
  lemma ValueReads(raw: string, tail: string, home: Option<string>)
    requires ParseValue(raw, home).Ok? && EndsLine(tail)
    ensures ReadWord(raw + tail) == Prepend(ValueWord(raw), ReadWord(raw[ValueLength(raw)..] + tail))
  {
    hide ReadWord, ExpandSpec, HasOperator, HasTilde, Segments, Pieces, OnlyComment, IsWhitespace, ClosesName;
    var n := ValueLength(raw);
    var t := raw[n..] + tail;
    SplitAt(raw, n, tail);
    AfterCloses(raw, tail, home);
    if IsQuoted(raw) {
      QuotedReads(raw, t, home);
    } else {
      BareWordReads(raw[..FindWhitespace(raw)], t, home);
    }
  }

  lemma SplitAt(a: string, n: nat, b: string)
    requires n <= |a|
    ensures a + b == a[..n] + (a[n..] + b)
  {
  }

  lemma AfterCloses(raw: string, tail: string, home: Option<string>)
    requires ParseValue(raw, home).Ok? && EndsLine(tail)
    ensures ClosesName(raw[ValueLength(raw)..] + tail)
  {
    hide ReadValue;
  }

  lemma QuotedReads(raw: string, t: string, home: Option<string>)
    requires IsQuoted(raw) && ReadValue(raw, home).Ok?
    ensures ReadWord(raw[..ValueLength(raw)] + t) == Prepend(ValueWord(raw), ReadWord(t))
  {
    hide ReadWord, ExpandSpec, Segments, Pieces;
    var end := Find(raw[1..], raw[0]);
    var inner := raw[1..1 + end];
    assert raw[0] !in inner;
    assert raw[..ValueLength(raw)] == [raw[0]] + inner + [raw[0]];
    hide Find;
    if raw[0] == '"' {
      DoubleWordReads(inner, t, home);
    } else {
      SingleWordReads(inner, t);
    }
  }

  /** Those pieces mean the parser's value, and plain text after them means itself. */
  lemma ValueMeans(raw: string, x: string, vars: Vars, home: Option<string>)
    requires ParseValue(raw, home).Ok? && HomeIs(vars, home) && '~' !in x
    ensures Value(ValueWord(raw) + Chars(x, false), vars, true) == Some(ParseValue(raw, home).value + x)
  {
    hide Segments, Pieces, Legal, ExpandSpec, Render, Meanings, Value, HasOperator, OnlyComment;
    if IsQuoted(raw) {
      var inner := raw[1..1 + Find(raw[1..], raw[0])];
      if raw[0] == '"' {
        SegmentsOf(inner, home);
        PiecesValue(Segments(inner), true, x, vars, home, true);
      } else {
        QuotedThenValue(inner, x, vars, true);
      }
    } else {
      var word := raw[..FindWhitespace(raw)];
      SegmentsOf(word, home);
      NoTilde(word, true);
      PiecesValue(Segments(word), false, x, vars, home, true);
    }
  }

  lemma StackKeys()
    ensures IsName("GUARDIAN_PULUMI_DIR")
    ensures IsName("GUARDIAN_STACK")
    ensures IsName("GUARDIAN_PROXY_PULUMI_DIR")
    ensures IsName("HASHI_MONITOR_PULUMI_DIR")
    ensures IsName("GUARDIAN_PROXY_URL")
  {
  }

  lemma WorkflowKeys()
    ensures IsName("PULUMI_VERSION")
    ensures IsName("GUARDIAN_PROXY_WORKFLOW")
    ensures IsName("GUARDIAN_WORKFLOWS")
    ensures IsName("KP_BUCKET")
    ensures IsName("KP_ROSTER_DIR")
  {
  }

  lemma RosterKeys()
    ensures IsName("KP_THRESHOLD")
    ensures IsName("NEW_KP_ROSTER_DIR")
    ensures IsName("NEW_KP_THRESHOLD")
    ensures IsName("SUI_RPC")
    ensures IsName("SUI_GRAPHQL_URL")
  {
  }

  lemma NetworkKeys()
    ensures IsName("HASHI_PACKAGE_ID")
    ensures IsName("HASHI_OBJECT_ID")
    ensures IsName("BITCOIN_NETWORK")
    ensures IsName("RETENTION_ENVIRONMENT")
    ensures IsName("TUNNEL_PORT")
  {
  }

  /** Every key is a shell name, and none is HOME. */
  lemma KeysAreNames(key: string)
    requires IsKey(key)
    ensures IsName(key) && key != "HOME"
  {
    hide IsName;
    StackKeys();
    WorkflowKeys();
    RosterKeys();
    NetworkKeys();
  }

  lemma {:induction false} NameLengthOf(key: string, p: Word)
    requires forall i :: 0 <= i < |key| ==> IsNameChar(key[i])
    ensures NameLength(Chars(key, false) + [Char('=', false)] + p) == |key|
  {
    var w := Chars(key, false) + [Char('=', false)] + p;
    if key != "" {
      NameLengthOf(key[1..], p);
      assert w[1..] == Chars(key[1..], false) + [Char('=', false)] + p;
    }
  }

  function AssignmentWord(key: string, p: Word): Word {
    Chars(key, false) + [Char('=', false)] + p
  }

  lemma AssignmentOf(key: string, p: Word)
    requires IsName(key)
    ensures var w := AssignmentWord(key, p);
            IsAssignment(w) && NameOf(w) == key && w[NameLength(w) + 1..] == p
  {
    NameLengthOf(key, p);
    assert NameOf(AssignmentWord(key, p)) == key;
  }

  lemma KeyReads(key: string, raw: string, tail: string, p: Word, rest: string)
    requires IsName(key) && ReadWord(raw + tail) == Scan(p, rest)
    ensures ReadWord(key + ['='] + raw + tail) == Scan(AssignmentWord(key, p), rest)
  {
    var a := key + ['='];
    assert key + ['='] + raw + tail == a + (raw + tail);
    OrdinaryWord(a, raw + tail);
    assert Chars(a, false) == Chars(key, false) + [Char('=', false)];
  }

  lemma EmptyWord(p: Word, t: string)
    requires t == "" || EndsWord(t[0])
    ensures Prepend(p, ReadWord(t)) == Scan(p, t)
  {
  }

  lemma NothingAfter(p: Word, v: string)
    ensures p + Chars("", false) == p && v + "" == v
  {
  }

  lemma LineParts(s: string, home: Option<string>)
    requires !ParseLine(s, home).Bad?
    ensures s == "" || s[0] == '#' <==> ParseLine(s, home).Skip?
    ensures ParseLine(s, home).Set? ==>
            var k := ParseLine(s, home).key;
            && IsKey(k) && Find(s, '=') == |k| < |s|
            && s == k + ['='] + s[|k| + 1..]
            && ParseValue(s[|k| + 1..], home) == Ok(ParseLine(s, home).value)
  {
    hide ParseValue, IsKey;
  }

  lemma CommentFollows(raw: string, home: Option<string>)
    requires ParseValue(raw, home).Ok?
    ensures var rest := raw[ValueLength(raw)..];
            && (Lead(rest) < |rest| ==> rest[Lead(rest)] == '#')
            && (rest != "" ==> Lead(rest) > 0)
  {
    hide ReadValue, ValueLength;
  }

  lemma OneWord(s: string, t: string, w: Word, r: string, q: string)
    requires SkipBlanks(s) == t && t != "" && !EndsWord(t[0]) && t[0] != '#'
    requires ReadWord(t) == Scan(w, r) && ReadCommand(r) == Command([], q)
    ensures ReadCommand(s) == Command([w], q)
  {
    hide ReadWord;
    assert [w] + [] == [w];
  }

  /** The shell reads a line that sets a key as one assignment. */
  lemma AssignmentReads(lead: string, k: string, raw: string, tail: string, home: Option<string>)
    requires AllBlank(lead) && IsKey(k) && '\n' !in raw && EndsLine(tail) && ParseValue(raw, home).Ok?
    requires var rest := raw[ValueLength(raw)..]; AllBlank(rest[..Lead(rest)])
    ensures ReadCommand(lead + (k + ['='] + raw + tail)) ==
            Command([AssignmentWord(k, ValueWord(raw))], NextLines(tail))
  {
    hide ReadWord, ReadCommand, SkipBlanks, ParseValue, ValueLength, ValueWord, IsWhitespace, AssignmentWord, Lead;
    hide IsKey;
    var rest := raw[ValueLength(raw)..];
    var t := k + ['='] + raw + tail;
    KeysAreNames(k);
    ValueReads(raw, tail, home);
    CommentFollows(raw, home);
    EmptyWord(ValueWord(raw), rest + tail);
    KeyReads(k, raw, tail, ValueWord(raw), rest + tail);
    NoWords(rest, tail);
    assert t[0] == k[0];
    SkipAllBlank(lead, t);
    OneWord(lead + t, t, AssignmentWord(k, ValueWord(raw)), rest + tail, NextLines(tail));
  }

  lemma SkippedReads(line: string, tail: string)
    requires '\n' !in line && EndsLine(tail) && PlainLine(line)
    requires TrimStart(line) == "" || TrimStart(line)[0] == '#'
    ensures ReadCommand(line + tail) == Command([], NextLines(tail))
  {
    hide ReadCommand, IsWhitespace;
    NoWords(line, tail);
  }

  function Executed(entry: Entry, vars: Vars): Vars {
    match entry
    case Set(k, v) => vars[k := v]
    case Skip => vars
    case Bad(_) => vars
  }

  lemma SetRuns(lead: string, k: string, raw: string, tail: string, home: Option<string>, vars: Vars)
    requires AllBlank(lead) && IsKey(k) && '\n' !in raw && EndsLine(tail) && ParseValue(raw, home).Ok?
    requires var rest := raw[ValueLength(raw)..]; AllBlank(rest[..Lead(rest)])
    requires HomeIs(vars, home)
    ensures Run(lead + (k + ['='] + raw + tail), vars) ==
            Run(NextLines(tail), vars[k := ParseValue(raw, home).value])
  {
    hide ReadCommand, ParseValue, ValueLength, ValueWord, Value, AssignmentWord, Lead, IsWhitespace;
    hide IsKey, Run, Execute, IsAssignment, NameOf, NameLength, IsName;
    var v := ParseValue(raw, home).value;
    var w := AssignmentWord(k, ValueWord(raw));
    KeysAreNames(k);
    AssignmentOf(k, ValueWord(raw));
    ValueMeans(raw, "", vars, home);
    NothingAfter(ValueWord(raw), v);
    AssignsOne(w, k, v, vars);
    AssignmentReads(lead, k, raw, tail, home);
    RunOne(lead + (k + ['='] + raw + tail), [w], NextLines(tail), vars, vars[k := v]);
  }

  /** What the shell does with one accepted line is what the parser says of it. */
  lemma LineRuns(line: string, tail: string, home: Option<string>, vars: Vars)
    requires '\n' !in line && EndsLine(tail) && PlainLine(line) && HomeIs(vars, home)
    requires !ParseLine(TrimStart(line), home).Bad?
    requires line + tail != ""
    ensures Run(line + tail, vars) == Run(NextLines(tail), Executed(ParseLine(TrimStart(line), home), vars))
  {
    hide ParseLine, ParseValue, ValueLength, IsWhitespace, IsKey, Run, ReadCommand, Lead, Find;
    var s := TrimStart(line);
    LineParts(s, home);
    if s == "" || s[0] == '#' {
      SkippedReads(line, tail);
      RunOne(line + tail, [], NextLines(tail), vars, vars);
    } else {
      var k := ParseLine(s, home).key;
      var raw, lead := s[|k| + 1..], line[..Lead(line)];
      LeadSplit(line);
      hide TrimStart;
      Regroup(lead, s, tail);
      assert '\n' !in raw;
      SetRuns(lead, k, raw, tail, home, vars);
    }
  }

  lemma LeadSplit(line: string)
    ensures line == line[..Lead(line)] + TrimStart(line)
    ensures '\n' !in line ==> '\n' !in TrimStart(line)
  {
    hide Lead;
  }

  lemma RunOne(script: string, words: seq<Word>, rest: string, vars: Vars, vars': Vars)
    requires script != "" && ReadCommand(script) == Command(words, rest)
    requires words != [] ==> Execute(words, vars) == Some(vars')
    requires words == [] ==> vars' == vars
    ensures Run(script, vars) == Run(rest, vars')
  {
    hide ReadCommand;
  }

  lemma AssignsOne(w: Word, k: string, v: string, vars: Vars)
    requires IsAssignment(w) && NameOf(w) == k && Value(w[NameLength(w) + 1..], vars, true) == Some(v)
    ensures Execute([w], vars) == Some(vars[k := v])
  {
    assert [w][1..] == [];
    assert Execute([], vars[k := v]) == Some(vars[k := v]);
  }
}
