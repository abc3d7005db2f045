/** What `$HOME` expansion accepts and yields, against a grammar of literals and variable references. */
module EnvExpansion {
  import opened Text
  import opened EnvFile

  /** A literal character, or HOME written `${HOME}` or `$HOME`. */
  datatype Seg = Lit(c: char) | Home(braced: bool)

  function Source(seg: Seg): string {
    match seg
    case Lit(c) => [c]
    case Home(true) => "${HOME}"
    case Home(false) => "$HOME"
  }

  function Meaning(seg: Seg, home: Option<string>): string {
    match seg
    case Lit(c) => [c]
    case Home(_) => if home.Some? then home.value else ""
  }

  /** The text a sequence of segments is written as. */
  function Render(segs: seq<Seg>): string {
    if segs == [] then "" else Source(segs[0]) + Render(segs[1..])
  }

  /** The text with each variable reference replaced, once, by `home`. */
  function Meanings(segs: seq<Seg>, home: Option<string>): string {
    if segs == [] then "" else Meaning(segs[0], home) + Meanings(segs[1..], home)
  }

  /** Literals hold no `$`, backslash or backtick; no name character follows an unbraced `$HOME`. */
  predicate Legal(segs: seq<Seg>) {
    segs == [] ||
    (&& (segs[0].Lit? ==> segs[0].c !in "$\\`")
     && (segs[0] == Home(false) && |segs| > 1 && segs[1].Lit? ==> !IsNameChar(segs[1].c))
     && Legal(segs[1..]))
  }

  predicate Resolves(segs: seq<Seg>, home: Option<string>) {
    home.Some? || forall i :: 0 <= i < |segs| ==> segs[i].Lit?
  }

  /** Expansion proceeds one literal at a time. */
  lemma ExpandLiteral(c: char, rest: string, home: Option<string>)
    requires c != '$'
    ensures ExpandFrom([c] + rest, home) == Prefixed([c], ExpandFrom(rest, home))
  {
    var text := [c] + rest;
    assert text[1..] == rest;
    var start := Find(rest, '$');
    assert Find(text, '$') == 1 + start;
    if start < |rest| {
      assert text[start + 2..] == rest[start + 1..];
      assert text[..start + 1] == [c] + rest[..start];
      var after := rest[start + 1..];
      if HomeLength(after) > 0 && home.Some? {
        assert text[..start + 1] + home.value == [c] + (rest[..start] + home.value);
        PrefixedTwice([c], rest[..start] + home.value, ExpandFrom(after[HomeLength(after)..], home));
      }
    }
  }

  lemma HomeLengthOf(braced: bool, rest: string)
    requires !braced && rest != "" ==> !IsNameChar(rest[0])
    ensures var after := Source(Home(braced))[1..] + rest;
            HomeLength(after) > 0 && after[HomeLength(after)..] == rest
  {
    var after := Source(Home(braced))[1..] + rest;
    if braced {
      assert after[..6] == "{HOME}";
    } else {
      assert after[..4] == "HOME";
    }
  }

  lemma ExpandHome(braced: bool, rest: string, home: Option<string>)
    requires !braced && rest != "" ==> !IsNameChar(rest[0])
    requires home.Some?
    ensures ExpandFrom(Source(Home(braced)) + rest, home) == Prefixed(home.value, ExpandFrom(rest, home))
  {
    var text := Source(Home(braced)) + rest;
    HomeLengthOf(braced, rest);
    assert text[1..] == Source(Home(braced))[1..] + rest;
    assert Find(text, '$') == 0;
    assert "" + home.value == home.value;
  }

  /** A rendering begins with a name character only if its first segment is one. */
  lemma RenderStart(segs: seq<Seg>)
    ensures segs != [] ==> Render(segs) != "" && Render(segs)[0] == (if segs[0].Lit? then segs[0].c else '$')
  {
  }

  lemma {:induction false} LegalUnescaped(segs: seq<Seg>)
    requires Legal(segs)
    ensures '\\' !in Render(segs) && '`' !in Render(segs)
  {
    if segs != [] {
      LegalUnescaped(segs[1..]);
    }
  }

  /** Every legal text expands, to its meaning; inserted home text is not read again. */
  lemma {:induction false} LegalExpands(segs: seq<Seg>, home: Option<string>)
    requires Legal(segs) && Resolves(segs, home)
    ensures ExpandFrom(Render(segs), home) == Ok(Meanings(segs, home))
  {
    if segs == [] {
      assert Find("", '$') == 0;
    } else {
      var tail := segs[1..];
      LegalExpands(tail, home);
      RenderStart(tail);
      assert Render(segs) == Source(segs[0]) + Render(tail);
      assert Meanings(segs, home) == Meaning(segs[0], home) + Meanings(tail, home);
      hide ExpandFrom, Render, Meanings;
      match segs[0]
      case Lit(c) => ExpandLiteral(c, Render(tail), home);
      case Home(b) => ExpandHome(b, Render(tail), home);
    }
  }

  /** The segments of an expandable text. */
  function Segments(text: string): seq<Seg>
    decreases |text|
  {
    if text == "" then []
    else if text[0] != '$' then [Lit(text[0])] + Segments(text[1..])
    else
      var n := HomeLength(text[1..]);
      if n == 0 then [] else [Home(n == 6)] + Segments(text[n + 1..])
  }

  lemma HomeSource(text: string)
    requires text != "" && text[0] == '$' && HomeLength(text[1..]) > 0
    ensures var n := HomeLength(text[1..]);
            && text == Source(Home(n == 6)) + text[n + 1..]
            && (n != 6 && |text| > n + 1 ==> !IsNameChar(text[n + 1]))
  {
    var n := HomeLength(text[1..]);
    assert text == ['$'] + text[1..][..n] + text[n + 1..];
  }

  /** The segments of a text that expands. */
  predicate Accounts(text: string, home: Option<string>) {
    var segs := Segments(text);
    Legal(segs) && Resolves(segs, home) && Render(segs) == text
  }

  lemma LiteralAccounts(text: string, home: Option<string>)
    requires text != "" && text[0] !in "$\\`" && Accounts(text[1..], home)
    ensures Accounts(text, home)
  {
    var tail := Segments(text[1..]);
    assert Segments(text) == [Lit(text[0])] + tail;
    hide Segments;
    assert Segments(text)[1..] == tail;
    assert text == [text[0]] + text[1..];
  }

  lemma HomeAccounts(text: string, n: nat, home: Option<string>)
    requires text != "" && text[0] == '$' && n == HomeLength(text[1..]) > 0 && n < |text|
    requires home.Some? && Accounts(text[n + 1..], home)
    ensures Accounts(text, home)
  {
    HomeSource(text);
    var tail := Segments(text[n + 1..]);
    assert Segments(text) == [Home(n == 6)] + tail;
    hide Segments, HomeLength;
    assert Segments(text)[1..] == tail;
    RenderStart(tail);
    hide Source;
  }

  /** Only legal texts expand. */
  lemma {:induction false} ExpandsLegal(text: string, home: Option<string>)
    requires ExpandFrom(text, home).Ok? && '\\' !in text && '`' !in text
    ensures Accounts(text, home)
    decreases |text|
  {
    hide HomeLength, Accounts;
    if text == "" {
      NothingAccounts(home);
    } else if text[0] != '$' {
      assert text == [text[0]] + text[1..];
      ExpandLiteral(text[0], text[1..], home);
      ExpandsLegal(text[1..], home);
      LiteralAccounts(text, home);
    } else {
      var n := HomeLength(text[1..]);
      assert Find(text, '$') == 0;
      assert text[1..][n..] == text[n + 1..];
      ExpandsLegal(text[n + 1..], home);
      HomeAccounts(text, n, home);
    }
  }

  lemma NothingAccounts(home: Option<string>)
    ensures Accounts("", home)
  {
  }

  /** The segments of an accepted text account for all of it and for its value. */
  lemma SegmentsOf(text: string, home: Option<string>)
    requires ExpandSpec(text, home).Ok?
    ensures var segs := Segments(text);
            && Legal(segs) && Resolves(segs, home)
            && Render(segs) == text && Meanings(segs, home) == ExpandSpec(text, home).value
  {
    ExpandsLegal(text, home);
    LegalExpands(Segments(text), home);
  }

  /** `expand` succeeds exactly on the legal texts, and yields their meaning. */
  lemma ExpandExact(text: string, home: Option<string>, v: string)
    ensures ExpandSpec(text, home) == Ok(v) <==>
            exists segs :: Legal(segs) && Resolves(segs, home) && Render(segs) == text && Meanings(segs, home) == v
  {
    if ExpandSpec(text, home) == Ok(v) {
      SegmentsOf(text, home);
    }
    forall segs | Legal(segs) && Resolves(segs, home) && Render(segs) == text && Meanings(segs, home) == v
      ensures ExpandSpec(text, home) == Ok(v)
    {
      LegalExpands(segs, home);
      LegalUnescaped(segs);
    }
  }
}
