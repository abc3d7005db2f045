/** What masking keeps of a manifest, line by line, and what patching writes into it. */
module ManifestMask {
  import opened Text
  import opened Sequences
  import opened PublishedAt

  /** A line that begins, after whitespace, with `published-at`. */
  ghost predicate NamesAddress(line: string) {
    exists w, rest :: AllWhitespace(w) && line == w + "published-at" + rest
  }

  lemma PublishedExact(line: string)
    ensures IsPublished(line) <==> NamesAddress(line)
  {
    hide IsPublished;
    if IsPublished(line) {
      PublishedSplits(line);
    }
    if NamesAddress(line) {
      var w, rest :| AllWhitespace(w) && line == w + "published-at" + rest;
      SplitPublished(w, rest);
    }
  }

  lemma PublishedSplits(line: string)
    requires IsPublished(line)
    ensures NamesAddress(line)
  {
    hide IsWhitespace, Lead;
    var t := TrimStart(line);
    assert t == "published-at" + t[12..];
    assert line == line[..Lead(line)] + t;
    Assoc(line[..Lead(line)], "published-at", t[12..]);
  }

  lemma SplitPublished(w: string, rest: string)
    requires AllWhitespace(w)
    ensures IsPublished(w + "published-at" + rest)
  {
    var t := "published-at" + rest;
    assert !IsWhitespace(t[0]) && t[..12] == "published-at";
    LeadOf(w, t);
    hide IsWhitespace, Lead;
    Assoc(w, "published-at", rest);
    assert (w + t)[|w|..] == t;
  }

  /** Every line stays in its place, but those that name the address. */
  lemma KeptExact(a: seq<string>, line: string, b: seq<string>)
    ensures Unpublished([]) == []
    ensures Unpublished(a + [line] + b) ==
            Unpublished(a) + (if NamesAddress(line) then [] else [line]) + Unpublished(b)
  {
    PublishedExact(line);
    UnpublishedAppend(a + [line], b);
    UnpublishedAppend(a, [line]);
    assert Unpublished([line][1..]) == [];
  }

  /** Lines, each ended by a newline. */
  function Terminated(lines: seq<string>): string {
    if lines == [] then "" else lines[0] + ['\n'] + Terminated(lines[1..])
  }

  predicate OneLine(line: string) {
    '\n' !in line && '\r' !in line
  }

  lemma {:induction false} TerminatedLines(lines: seq<string>)
    requires forall i :: 0 <= i < |lines| ==> OneLine(lines[i])
    ensures Lines(Terminated(lines)) == lines
  {
    if lines != [] {
      assert StripCr(lines[0]) == lines[0];
      TerminatedLines(lines[1..]);
      hide Lines, StripCr;
      LinesCons(lines[0], Terminated(lines[1..]));
    }
  }

  /** A manifest written out in lines is masked to the lines that do not name the address. */
  lemma MaskOfLines(lines: seq<string>)
    requires forall i :: 0 <= i < |lines| ==> OneLine(lines[i])
    ensures Visible(Terminated(lines)) == Unpublished(lines)
    ensures Mask(Terminated(lines)) == JoinLines(Unpublished(lines))
  {
    hide Lines, Unpublished, JoinLines;
    TerminatedLines(lines);
  }

  // ---- Nothing kept is lost in joining ----

  predicate Unbroken(lines: seq<string>) {
    forall i :: 0 <= i < |lines| ==> '\n' !in lines[i]
  }

  /** The same lines, no line counting as one empty line. */
  predicate SameLines(x: seq<string>, y: seq<string>) {
    x == y || ((x == [] || x == [""]) && (y == [] || y == [""]))
  }

  lemma JoinEmpty(x: seq<string>)
    ensures JoinLines(x) == "" <==> x == [] || x == [""]
  {
  }

  lemma JoinBreaks(x: seq<string>)
    requires |x| >= 2
    ensures '\n' in JoinLines(x)
  {
    assert JoinLines(x)[|x[0]|] == '\n';
  }

  lemma FirstJoined(x: seq<string>, y: seq<string>)
    requires Unbroken(x) && Unbroken(y) && |x| >= 2 && |y| >= 2 && JoinLines(x) == JoinLines(y)
    ensures x[0] == y[0] && JoinLines(x[1..]) == JoinLines(y[1..])
  {
    var u, v := JoinLines(x[1..]), JoinLines(y[1..]);
    var s := x[0] + ['\n'] + u;
    assert s == y[0] + ['\n'] + v;
    hide JoinLines;
    FindSplit(x[0], '\n', u);
    FindSplit(y[0], '\n', v);
    assert s[..|x[0]|] == x[0] && s[..|y[0]|] == y[0];
    assert s[|x[0]| + 1..] == u && s[|y[0]| + 1..] == v;
  }

  lemma {:induction false} JoinDecides(x: seq<string>, y: seq<string>)
    requires Unbroken(x) && Unbroken(y)
    ensures JoinLines(x) == JoinLines(y) <==> SameLines(x, y)
  {
    JoinEmpty(x);
    JoinEmpty(y);
    if JoinLines(x) == JoinLines(y) && JoinLines(x) != "" {
      if |x| >= 2 {
        JoinBreaks(x);
      }
      if |y| >= 2 {
        JoinBreaks(y);
      }
      if |x| >= 2 && |y| >= 2 {
        FirstJoined(x, y);
        JoinDecides(x[1..], y[1..]);
        assert x == [x[0]] + x[1..] && y == [y[0]] + y[1..];
      }
    }
  }

  lemma {:induction false} LinesUnbroken(s: string)
    ensures Unbroken(Lines(s))
    decreases |s|
  {
    var k := Find(s, '\n');
    if k < |s| {
      LinesUnbroken(s[k + 1..]);
    }
  }

  lemma {:induction false} KeptUnbroken(lines: seq<string>)
    requires Unbroken(lines)
    ensures Unbroken(Unpublished(lines))
  {
    hide IsPublished;
    if lines != [] {
      KeptUnbroken(lines[1..]);
    }
  }

  /** Two manifests mask alike exactly when they keep the same lines. */
  lemma MaskDecides(a: string, b: string)
    ensures Mask(a) == Mask(b) <==> SameLines(Visible(a), Visible(b))
  {
    hide Lines, Unpublished, JoinLines, SameLines;
    LinesUnbroken(a);
    LinesUnbroken(b);
    KeptUnbroken(Lines(a));
    KeptUnbroken(Lines(b));
    JoinDecides(Visible(a), Visible(b));
  }

  lemma {:induction false} AllKept(lines: seq<string>)
    requires forall i :: 0 <= i < |lines| ==> !NamesAddress(lines[i])
    ensures Unpublished(lines) == lines
  {
    hide IsPublished;
    if lines != [] {
      PublishedExact(lines[0]);
      AllKept(lines[1..]);
    }
  }

  /** Manifests that name no address mask alike exactly when their lines are the same. */
  lemma PlainMaskDecides(a: string, b: string)
    requires forall i :: 0 <= i < |Lines(a)| ==> !NamesAddress(Lines(a)[i])
    requires forall i :: 0 <= i < |Lines(b)| ==> !NamesAddress(Lines(b)[i])
    ensures Mask(a) == Mask(b) <==> SameLines(Lines(a), Lines(b))
  {
    hide Mask, SameLines, NamesAddress;
    AllKept(Lines(a));
    AllKept(Lines(b));
    MaskDecides(a, b);
  }

  // ---- What patching writes ----

  predicate SectionAt(s: string, k: nat) {
    k + 9 <= |s| && s[k..k + 9] == "[package]"
  }

  lemma {:induction false} FirstSection(s: string, k: nat)
    requires SectionAt(s, k) && forall j :: 0 <= j < k ==> !SectionAt(s, j)
    ensures FindSection(s) == k
  {
    if k == 0 {
      assert s[..9] == s[0..9];
    } else {
      assert !SectionAt(s, 0);
      assert s[0..9] == s[..9];
      assert s[1..][k - 1..k + 8] == s[k..k + 9];
      forall j | 0 <= j < k - 1 ensures !SectionAt(s[1..], j) {
        assert !SectionAt(s, j + 1);
        assert j + 9 <= |s[1..]| ==> s[1..][j..j + 9] == s[j + 1..j + 10];
      }
      FirstSection(s[1..], k - 1);
    }
  }

  lemma {:induction false} NoSection(s: string)
    requires forall j :: 0 <= j < |s| ==> !SectionAt(s, j)
    ensures FindSection(s) == |s|
  {
    if s != "" {
      assert !SectionAt(s, 0);
      assert |s| >= 9 ==> s[0..9] == s[..9];
      forall j | 0 <= j < |s[1..]| ensures !SectionAt(s[1..], j) {
        assert !SectionAt(s, j + 1);
        assert j + 9 <= |s[1..]| ==> s[1..][j..j + 9] == s[j + 1..j + 10];
      }
      NoSection(s[1..]);
    }
  }

  /** The first section gains the address line after it, and the rest is patched likewise. */
  lemma PatchFirst(toml: string, k: nat, address: string)
    requires SectionAt(toml, k) && forall j :: 0 <= j < k ==> !SectionAt(toml, j)
    ensures Patch(toml, address) ==
            toml[..k + 9] + "\npublished-at = \"" + address + "\"" + Patch(toml[k + 9..], address)
  {
    FirstSection(toml, k);
    PatchStep(toml, address);
    hide Patch, FindSection, PublishedLine, Insert;
    TakeSection(toml, k);
    Inserted(toml[..k], address, Patch(toml[k + 9..], address));
  }

  lemma TakeSection(s: string, k: nat)
    requires SectionAt(s, k)
    ensures s[..k + 9] == s[..k] + "[package]"
  {
    assert s[..k + 9] == s[..k] + s[k..k + 9];
  }

  lemma Inserted(before: string, address: string, rest: string)
    ensures Insert(before, PublishedLine(address) + rest) ==
            before + "[package]" + "\npublished-at = \"" + address + "\"" + rest
  {
    assert "\npublished-at = \"" == ['\n'] + "published-at = \"";
    Flatten(before + "[package]", ['\n'], "published-at = \"", address, "\"", rest);
  }

  lemma Flatten(a: string, b: string, c: string, d: string, e: string, f: string)
    ensures a + b + (c + d + e + f) == a + (b + c) + d + e + f
  {
  }

  /** A manifest without the section is left as it is. */
  lemma PatchNothing(toml: string, address: string)
    requires forall j :: 0 <= j < |toml| ==> !SectionAt(toml, j)
    ensures Patch(toml, address) == toml
  {
    NoSection(toml);
    Unpatched(toml, address);
  }
}
