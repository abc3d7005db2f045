/** The per-network `published-at` line of a package manifest, and masking it out of the cache key. */
module PublishedAt {
  import opened Text
  import opened Sequences

  const SECTION := "[package]"

  function PublishedLine(address: string): string {
    "published-at = \"" + address + "\""
  }

  /** The index of the first `[package]`, or the length. */
  function FindSection(s: string): (k: nat)
    ensures k <= |s|
    ensures k < |s| ==> StartsWith(s[k..], SECTION)
  {
    if s == "" || StartsWith(s, SECTION) then 0 else 1 + FindSection(s[1..])
  }

  function Insert(before: string, rest: string): string {
    before + SECTION + ['\n'] + rest
  }

  /** `str::replace`: every `[package]`, left to right, gains a `published-at` line after it. */
  function Patch(toml: string, address: string): string
    decreases |toml|
  {
    var k := FindSection(toml);
    if k == |toml| then toml
    else Insert(toml[..k], PublishedLine(address) + Patch(toml[k + 9..], address))
  }

  predicate IsPublished(line: string) {
    StartsWith(TrimStart(line), "published-at")
  }

  function Unpublished(lines: seq<string>): seq<string> {
    if lines == [] then []
    else (if IsPublished(lines[0]) then [] else [lines[0]]) + Unpublished(lines[1..])
  }

  function JoinLines(lines: seq<string>): string {
    if lines == [] then "" else if |lines| == 1 then lines[0] else lines[0] + ['\n'] + JoinLines(lines[1..])
  }

  /** What of a manifest goes into the key. */
  function Mask(toml: string): string {
    JoinLines(Unpublished(Lines(toml)))
  }

  lemma LinesCons(a: string, b: string)
    requires '\n' !in a
    ensures Lines(a + ['\n'] + b) == [StripCr(a)] + Lines(b)
  {
    hide StripCr;
    var s := a + ['\n'] + b;
    FindSplit(a, '\n', b);
    assert s[..|a|] == a && s[|a| + 1..] == b;
  }

  predicate EndsLine(x: string) {
    x == "" || x[|x| - 1] == '\n'
  }

  lemma LinesSplitStep(first: string, rest: string, y: string)
    requires '\n' !in first && Lines(rest + y) == Lines(rest) + Lines(y)
    ensures Lines(first + ['\n'] + (rest + y)) == Lines(first + ['\n'] + rest) + Lines(y)
  {
    hide Lines, StripCr;
    LinesCons(first, rest + y);
    LinesCons(first, rest);
  }

  lemma CutLine(x: string, y: string, k: nat)
    requires k < |x|
    ensures x == x[..k] + [x[k]] + x[k + 1..] && x + y == x[..k] + [x[k]] + (x[k + 1..] + y)
  {
  }

  lemma {:induction false} LinesSplit(x: string, y: string)
    requires EndsLine(x)
    ensures Lines(x + y) == Lines(x) + Lines(y)
    decreases |x|
  {
    if x == "" {
      assert x + y == y && Lines(x) == [];
    } else {
      hide Lines;
      var k := Find(x, '\n');
      LinesSplit(x[k + 1..], y);
      LinesSplitStep(x[..k], x[k + 1..], y);
      CutLine(x, y, k);
    }
  }

  lemma {:induction false} UnpublishedAppend(a: seq<string>, b: seq<string>)
    ensures Unpublished(a + b) == Unpublished(a) + Unpublished(b)
  {
    if a == [] {
      assert a + b == b;
    } else {
      var head := if IsPublished(a[0]) then [] else [a[0]];
      assert (a + b)[1..] == a[1..] + b;
      assert Unpublished(a) == head + Unpublished(a[1..]) && Unpublished(a + b) == head + Unpublished(a[1..] + b);
      hide IsPublished, Unpublished;
      UnpublishedAppend(a[1..], b);
      Assoc(head, Unpublished(a[1..]), Unpublished(b));
    }
  }

  /** The text after the first line. */
  function AfterLine(z: string): string {
    if Find(z, '\n') < |z| then z[Find(z, '\n') + 1..] else ""
  }

  lemma StartsPublished(address: string, z: string)
    ensures IsPublished(PublishedLine(address) + z) && IsPublished(StripCr(PublishedLine(address) + z))
  {
    var line := PublishedLine(address) + z;
    assert line[..12] == "published-at" && Lead(line) == 0;
    var cut := StripCr(line);
    assert cut[..12] == "published-at" && Lead(cut) == 0;
  }

  /** A published line disappears. */
  lemma MaskedFirst(line: string, b: string)
    requires '\n' !in line && line != "" && IsPublished(line) && IsPublished(StripCr(line))
    ensures Unpublished(Lines(line + ['\n'] + b)) == Unpublished(Lines(b))
    ensures Unpublished(Lines(line)) == []
  {
    var kept := StripCr(line);
    assert Lines(line) == [line];
    assert Unpublished([line]) == [];
    hide IsPublished, StripCr, Lines;
    LinesCons(line, b);
    assert ([kept] + Lines(b))[1..] == Lines(b);
  }

  lemma PublishedOneLine(address: string)
    requires '\n' !in address
    ensures '\n' !in PublishedLine(address) && PublishedLine(address) != ""
  {
  }

  /** A `published-at` line is masked whatever the address, with all that shares its line. */
  lemma PublishedMasked(address: string, z: string)
    requires '\n' !in address
    ensures Unpublished(Lines(PublishedLine(address) + z)) == Unpublished(Lines(AfterLine(z)))
  {
    var k := Find(z, '\n');
    var p := PublishedLine(address);
    PublishedOneLine(address);
    StartsPublished(address, z[..k]);
    assert Unpublished(Lines("")) == [];
    hide *;
    if k < |z| {
      LineMasked(p, z, k);
    } else {
      assert z[..k] == z;
      MaskedFirst(p + z, "");
    }
  }

  lemma LineMasked(p: string, z: string, k: nat)
    requires k == Find(z, '\n') < |z| && '\n' !in p && p != ""
    requires IsPublished(p + z[..k]) && IsPublished(StripCr(p + z[..k]))
    ensures Unpublished(Lines(p + z)) == Unpublished(Lines(AfterLine(z)))
  {
    hide IsPublished, StripCr, Lines, Unpublished, Find;
    Regroup(p, z, k);
    MaskedFirst(p + z[..k], z[k + 1..]);
  }

  lemma Regroup(p: string, z: string, k: nat)
    requires k < |z|
    ensures p + z == p + z[..k] + [z[k]] + z[k + 1..]
  {
  }

  lemma {:induction false} FindSectionFrom(s: string, m: nat)
    requires m <= FindSection(s)
    ensures FindSection(s[m..]) == FindSection(s) - m
  {
    if m > 0 {
      FindSectionFrom(s[1..], m - 1);
      assert s[1..][m - 1..] == s[m..];
    }
  }

  lemma AfterLineSplit(line: string, rest: string)
    requires '\n' !in line
    ensures AfterLine(line + ['\n'] + rest) == rest
  {
    FindSplit(line, '\n', rest);
  }

  lemma AfterInsert(before: string, rest: string)
    requires '\n' !in before
    ensures AfterLine(Insert(before, rest)) == rest
  {
    AfterLineSplit(before + SECTION, rest);
  }

  lemma PatchStep(toml: string, address: string)
    requires FindSection(toml) < |toml|
    ensures var k := FindSection(toml);
            Patch(toml, address) == Insert(toml[..k], PublishedLine(address) + Patch(toml[k + 9..], address))
  {
    hide FindSection, PublishedLine, Insert;
  }

  lemma InsertFrom(s: string, m: nat, k: nat, rest: string)
    requires m <= k <= |s|
    ensures Insert(s[..k], rest) == s[..m] + Insert(s[m..][..k - m], rest)
  {
  }

  /** Text before the first section is left alone. */
  lemma PatchFrom(toml: string, address: string, m: nat)
    requires m <= FindSection(toml) < |toml|
    ensures Patch(toml, address) == toml[..m] + Patch(toml[m..], address)
  {
    hide FindSection, PublishedLine, Insert, Patch;
    var k := FindSection(toml);
    FindSectionFrom(toml, m);
    PatchStep(toml, address);
    PatchStep(toml[m..], address);
    assert toml[m..][k - m + 9..] == toml[k + 9..];
    InsertFrom(toml, m, k, PublishedLine(address) + Patch(toml[k + 9..], address));
  }

  /** The line after a patched manifest's first. */
  lemma AfterPatched(toml: string, address: string)
    requires FindSection(toml) < |toml|
    ensures var k, j := FindSection(toml), Find(toml, '\n');
            AfterLine(Patch(toml, address)) ==
            if j < k then Patch(toml[j + 1..], address)
            else PublishedLine(address) + Patch(toml[k + 9..], address)
  {
    hide FindSection, Find, PublishedLine, Insert, Patch, AfterLine;
    var k, j := FindSection(toml), Find(toml, '\n');
    if j < k {
      PatchFrom(toml, address, j + 1);
      assert toml[..j + 1] == toml[..j] + ['\n'];
      AfterLineSplit(toml[..j], Patch(toml[j + 1..], address));
    } else {
      PatchStep(toml, address);
      AfterInsert(toml[..k], PublishedLine(address) + Patch(toml[k + 9..], address));
    }
  }

  function Visible(toml: string): seq<string> {
    Unpublished(Lines(toml))
  }

  lemma InsertVisible(before: string, rest: string)
    ensures Visible(Insert(before, rest)) == Visible(before + SECTION + ['\n']) + Visible(rest)
  {
    hide Lines, Unpublished;
    LinesSplit(before + SECTION + ['\n'], rest);
    UnpublishedAppend(Lines(before + SECTION + ['\n']), Lines(rest));
  }

  lemma PatchedVisible(toml: string, address: string)
    requires FindSection(toml) < |toml| && '\n' !in address
    ensures var k := FindSection(toml);
            Visible(Patch(toml, address)) ==
            Visible(toml[..k] + SECTION + ['\n']) + Visible(AfterLine(Patch(toml[k + 9..], address)))
  {
    hide FindSection, PublishedLine, Insert, Patch, AfterLine, Visible;
    var k := FindSection(toml);
    var rest := Patch(toml[k + 9..], address);
    PatchStep(toml, address);
    InsertVisible(toml[..k], PublishedLine(address) + rest);
    MaskedLine(address, rest);
  }

  lemma Unpatched(toml: string, address: string)
    requires FindSection(toml) == |toml|
    ensures Patch(toml, address) == toml
  {
    hide FindSection;
  }

  /** What is visible of a patched manifest does not depend on the address. */
  lemma {:induction false} SameVisible(toml: string, a: string, b: string)
    requires '\n' !in a && '\n' !in b
    ensures Visible(Patch(toml, a)) == Visible(Patch(toml, b))
    ensures Visible(AfterLine(Patch(toml, a))) == Visible(AfterLine(Patch(toml, b)))
    decreases |toml|
  {
    hide Visible, AfterLine, Patch, PublishedLine, FindSection, Find;
    var k, j := FindSection(toml), Find(toml, '\n');
    if k == |toml| {
      Unpatched(toml, a);
      Unpatched(toml, b);
    } else {
      SameVisible(toml[k + 9..], a, b);
      PatchedVisible(toml, a);
      PatchedVisible(toml, b);
      AfterPatched(toml, a);
      AfterPatched(toml, b);
      if j < k {
        SameVisible(toml[j + 1..], a, b);
      } else {
        MaskedLine(a, Patch(toml[k + 9..], a));
        MaskedLine(b, Patch(toml[k + 9..], b));
      }
    }
  }

  lemma MaskedLine(address: string, z: string)
    requires '\n' !in address
    ensures Visible(PublishedLine(address) + z) == Visible(AfterLine(z))
  {
    hide Lines, PublishedLine, AfterLine, Unpublished;
    PublishedMasked(address, z);
  }

  /** Manifests patched with different addresses mask to the same text. */
  lemma MaskHidesAddress(toml: string, a: string, b: string)
    requires '\n' !in a && '\n' !in b
    ensures Mask(Patch(toml, a)) == Mask(Patch(toml, b))
  {
    hide Patch, Lines;
    SameVisible(toml, a, b);
  }
}
