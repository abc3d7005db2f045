/** What the build cache hashes of a package, and what the key therefore does and does not depend on. */
module CacheInput {
  import opened Sequences
  import opened PublishedAt
  import opened ManifestMask
  import opened CacheKey

  const MANIFEST: Path := ["Move.toml"]

  function RelativeString(path: Path): string {
    if path == [] then "" else if |path| == 1 then path[0] else path[0] + "/" + RelativeString(path[1..])
  }

  /** `build/` is output, not input. */
  predicate IsOutput(path: Path) {
    path != [] && path[0] == "build"
  }

  function Shown(file: Listed): string {
    if file.path == MANIFEST then Mask(file.contents) else file.contents
  }

  function Chunk(file: Listed): string {
    if IsOutput(file.path) then "" else RelativeString(file.path) + Shown(file)
  }

  function Fed(files: seq<Listed>): string {
    if files == [] then "" else Chunk(files[0]) + Fed(files[1..])
  }

  /** The bytes hashed: the target version's, the toolchain's answer, then each file in sorted order. */
  method HashInput(version: string, toolchain: string, sorted: seq<Listed>) returns (input: string)
    ensures input == version + toolchain + Fed(sorted)
  {
    hide Mask, RelativeString;
    input := version + toolchain;
    assert sorted[0..] == sorted;
    for i := 0 to |sorted|
      invariant input + Fed(sorted[i..]) == version + toolchain + Fed(sorted)
    {
      var file := sorted[i];
      FedStep(sorted, i);
      ghost var before, rest := input, Fed(sorted[i + 1..]);
      if !IsOutput(file.path) {
        input := input + RelativeString(file.path);
        if file.path == MANIFEST {
          input := input + Mask(file.contents);
        } else {
          input := input + file.contents;
        }
        Append3(before, RelativeString(file.path), Shown(file), rest);
      } else {
        assert Chunk(file) + rest == rest;
      }
    }
    assert sorted[|sorted|..] == [];
    assert input + "" == input;
  }

  lemma Append3(a: string, b: string, c: string, d: string)
    ensures a + b + c + d == a + (b + c + d)
  {
  }

  lemma FedStep(files: seq<Listed>, i: nat)
    requires i < |files|
    ensures Fed(files[i..]) == Chunk(files[i]) + Fed(files[i + 1..])
  {
    assert files[i..][1..] == files[i + 1..];
  }

  // ---- Preparing an upgrade ----

  function PatchFile(file: Listed, address: string): Listed {
    if file.path == MANIFEST then file.(contents := Patch(file.contents, address)) else file
  }

  function PatchFiles(files: seq<Listed>, address: string): seq<Listed> {
    Map((file: Listed) => PatchFile(file, address), files)
  }

  /** The package copy with its manifest rewritten for one network's address. */
  function Prepared(entries: seq<Entry>, address: string): seq<Entry> {
    Map((entry: Entry) => PreparedEntry(entry, address), entries)
  }

  function PreparedEntry(entry: Entry, address: string): Entry {
    if entry.name == "Move.toml" && entry.node.File? then entry.(node := File(Patch(entry.node.contents, address)))
    else entry
  }

  lemma PreparedFilesOf(entry: Entry, address: string)
    ensures FilesOf(PreparedEntry(entry, address), []) == PatchFiles(FilesOf(entry, []), address)
  {
    hide Patch;
    var files := FilesOf(entry, []);
    assert [] + [entry.name] == [entry.name];
    if entry.node.Dir? {
      forall i | 0 <= i < |files| ensures PatchFile(files[i], address) == files[i] {
        PathsBelow(entry.node.entries, [entry.name], i);
      }
      assert PatchFiles(files, address) == files;
    }
  }

  lemma PatchFilesAppend(a: seq<Listed>, b: seq<Listed>, address: string)
    ensures PatchFiles(a + b, address) == PatchFiles(a, address) + PatchFiles(b, address)
  {
    hide PatchFile;
  }

  /** Preparing the tree patches exactly the listed manifest. */
  lemma {:induction false} PreparedFiles(entries: seq<Entry>, address: string)
    ensures FilesIn(Prepared(entries, address), []) == PatchFiles(FilesIn(entries, []), address)
  {
    if entries != [] {
      hide FilesOf, PreparedEntry, PatchFile;
      PreparedFilesOf(entries[0], address);
      PreparedFiles(entries[1..], address);
      assert Prepared(entries, address)[1..] == Prepared(entries[1..], address);
      PatchFilesAppend(FilesOf(entries[0], []), FilesIn(entries[1..], []), address);
    }
  }

  /** A prepared package holds what the package holds, but for the patched manifest at its root. */
  lemma PreparedHolds(entries: seq<Entry>, address: string, path: Path, contents: string)
    ensures Holds(Prepared(entries, address), path, contents) <==>
            if path == ["Move.toml"] then exists c :: Holds(entries, path, c) && contents == Patch(c, address)
            else Holds(entries, path, contents)
  {
    hide Patch;
    var prepared := Prepared(entries, address);
    if path != [] && path != ["Move.toml"] {
      forall i | 0 <= i < |entries| && entries[i].name == path[0]
        ensures Leads(prepared[i].node, path, contents) <==> Leads(entries[i].node, path, contents)
      {
      }
    }
    if path == ["Move.toml"] {
      if Holds(prepared, path, contents) {
        var i :| 0 <= i < |prepared| && prepared[i].name == path[0] && Leads(prepared[i].node, path, contents);
        var c := entries[i].node.contents;
        assert Leads(entries[i].node, path, c);
        assert Holds(entries, path, c) && contents == Patch(c, address);
      }
      forall c | Holds(entries, path, c) && contents == Patch(c, address) ensures Holds(prepared, path, contents) {
        var i :| 0 <= i < |entries| && entries[i].name == path[0] && Leads(entries[i].node, path, c);
        assert Leads(prepared[i].node, path, contents);
      }
    }
  }

  // ---- What the key depends on ----

  /** A file as the key sees it. */
  function Seen(file: Listed): Listed {
    file.(contents := Shown(file))
  }

  function AllSeen(files: seq<Listed>): seq<Listed> {
    Map(Seen, files)
  }

  lemma {:induction false} SeenDecides(s: seq<Listed>, t: seq<Listed>)
    requires AllSeen(s) == AllSeen(t)
    ensures Fed(s) == Fed(t)
  {
    if s == [] {
      assert |AllSeen(t)| == 0;
    } else {
      hide Mask, RelativeString;
      assert AllSeen(s)[0] == AllSeen(t)[0] && |AllSeen(s)| == |AllSeen(t)|;
      assert Chunk(s[0]) == Chunk(t[0]);
      assert AllSeen(s[1..]) == AllSeen(s)[1..] && AllSeen(t[1..]) == AllSeen(t)[1..];
      SeenDecides(s[1..], t[1..]);
    }
  }

  lemma SeenSort(s: seq<Listed>, files: seq<Listed>)
    requires IsSort(s, files)
    ensures IsSort(AllSeen(s), AllSeen(files))
  {
    hide PathLess, Shown;
    MapBag(Seen, s, files);
  }

  lemma SeenPatched(files: seq<Listed>, a: string, b: string)
    requires '\n' !in a && '\n' !in b
    ensures AllSeen(PatchFiles(files, a)) == AllSeen(PatchFiles(files, b))
  {
    hide Mask, Patch;
    forall i | 0 <= i < |files|
      ensures Seen(PatchFile(files[i], a)) == Seen(PatchFile(files[i], b))
    {
      MaskHidesAddress(files[i].contents, a, b);
    }
  }

  lemma PathsKept(files: seq<Listed>, address: string)
    requires DistinctPaths(files)
    ensures DistinctPaths(AllSeen(PatchFiles(files, address)))
  {
    hide Shown, Patch;
  }

  /** What the key sees of a package, before sorting. */
  function SeenOf(x: seq<Entry>): seq<Listed> {
    AllSeen(PatchFiles(FilesIn(x, []), ""))
  }

  /** A copy of a package, listed in some order and prepared for some address. */
  ghost predicate IsCopy(x: seq<Entry>, y: seq<Entry>, address: string, sorted: seq<Listed>) {
    SameTree(x, y) && '\n' !in address && IsSort(sorted, FilesIn(Prepared(y, address), []))
  }

  /** Whatever the order and the address, the key sees the package's files, sorted. */
  lemma CopySeen(x: seq<Entry>, y: seq<Entry>, address: string, sorted: seq<Listed>)
    requires IsCopy(x, y, address, sorted)
    ensures IsSort(AllSeen(sorted), SeenOf(x))
  {
    hide PathLess, Patch, Mask, Prepared, SameTree, PatchFile, FilesIn;
    var fx, fy := FilesIn(x, []), FilesIn(y, []);
    PreparedFiles(y, address);
    SameTreeFiles(x, y, []);
    SeenSort(sorted, PatchFiles(fy, address));
    SeenPatched(fx, address, "");
    MapBag((file: Listed) => PatchFile(file, address), fx, fy);
    MapBag(Seen, PatchFiles(fx, address), PatchFiles(fy, address));
  }

  /**
   Whatever order directories are listed in, and whatever address each copy was prepared for, the key
   sees the same of the same package, and it is hashed from the same bytes.
   */
  lemma KeyStable(x: seq<Entry>, y: seq<Entry>, z: seq<Entry>, a: string, b: string, s: seq<Listed>, t: seq<Listed>)
    requires WellNamed(x) && IsCopy(x, y, a, s) && IsCopy(x, z, b, t)
    ensures AllSeen(s) == AllSeen(t) && Fed(s) == Fed(t)
  {
    hide PathLess, Patch, Prepared, SameTree, WellNamed, Fed, PatchFile, FilesIn, IsCopy;
    CopySeen(x, y, a, s);
    CopySeen(x, z, b, t);
    WalkDistinct(x, []);
    PathsKept(FilesIn(x, []), "");
    DistinctBag((file: Listed) => file.path, SeenOf(x), AllSeen(t));
    SameSort(AllSeen(s), AllSeen(t));
    SeenDecides(s, t);
  }

  // ---- The hashed fields are not delimited ----

  /** Moving the start of a file's contents onto the end of its name leaves the hashed bytes alone. */
  lemma Undelimited(name: string, x: string, y: string)
    requires name !in {"build", "Move.toml"} && name + x !in {"build", "Move.toml"}
    ensures Fed([Listed([name], x + y)]) == Fed([Listed([name + x], y)])
  {
    var s, t := [Listed([name], x + y)], [Listed([name + x], y)];
    assert s[1..] == [] && t[1..] == [];
    assert Chunk(s[0]) == name + (x + y) && Chunk(t[0]) == name + x + y;
    assert name + (x + y) == name + x + y;
  }

  // ---- What is hashed of each file ----

  /** Components are joined by slashes. */
  lemma {:induction false} RelativeExact(path: Path, name: string)
    ensures RelativeString([name]) == name
    ensures path != [] ==> RelativeString(path + [name]) == RelativeString(path) + "/" + name
  {
    if |path| > 1 {
      RelativeExact(path[1..], name);
      assert (path + [name])[1..] == path[1..] + [name];
      hide RelativeString;
      var head, middle := path[0] + "/", RelativeString(path[1..]);
      Assoc(head, middle, "/" + name);
      Assoc(middle, "/", name);
    } else if |path| == 1 {
      assert (path + [name])[1..] == [name];
    }
  }

  lemma {:induction false} FedAppend(a: seq<Listed>, b: seq<Listed>)
    ensures Fed(a + b) == Fed(a) + Fed(b)
  {
    hide Chunk;
    if a == [] {
      assert a + b == b;
    } else {
      assert (a + b)[1..] == a[1..] + b;
      assert Fed(a) == Chunk(a[0]) + Fed(a[1..]) && Fed(a + b) == Chunk(a[0]) + Fed(a[1..] + b);
      hide Fed;
      FedAppend(a[1..], b);
      Assoc(Chunk(a[0]), Fed(a[1..]), Fed(b));
    }
  }

  /** One file: nothing under `build/`, else its path and then its contents, the manifest's masked. */
  lemma FedOne(path: Path, contents: string)
    ensures Fed([Listed(path, contents)]) ==
            if path != [] && path[0] == "build" then ""
            else RelativeString(path) + (if path == ["Move.toml"] then Mask(contents) else contents)
  {
    hide Mask, RelativeString;
    var file := Listed(path, contents);
    assert [file][1..] == [];
    assert Chunk(file) + "" == Chunk(file);
  }

  /** Contents that count as the same input: the same text, or for the manifest the same kept lines. */
  predicate SameInput(path: Path, a: string, b: string) {
    if path == ["Move.toml"] then SameLines(Visible(a), Visible(b)) else a == b
  }

  lemma ShownDecides(f: Listed, g: Listed)
    requires f.path == g.path
    ensures Shown(f) == Shown(g) <==> SameInput(f.path, f.contents, g.contents)
  {
    hide Mask, Visible, SameLines;
    MaskDecides(f.contents, g.contents);
  }

  /** Changing one file, all else equal, changes the bytes exactly when it is an input and changed as one. */
  lemma OneFileShows(s: seq<Listed>, i: nat, contents: string)
    requires i < |s|
    ensures Fed(s[i := Listed(s[i].path, contents)]) == Fed(s) <==>
            (s[i].path != [] && s[i].path[0] == "build") || SameInput(s[i].path, contents, s[i].contents)
  {
    hide Fed, SameInput, RelativeString, Shown;
    var f, g := s[i], Listed(s[i].path, contents);
    var t := s[i := g];
    var a, b := s[..i], s[i + 1..];
    assert s == a + [f] + b && t == a + [g] + b;
    FedAppend(a + [f], b);
    FedAppend(a, [f]);
    FedAppend(a + [g], b);
    FedAppend(a, [g]);
    ChunkOf(f);
    ChunkOf(g);
    Between(Fed(a), Chunk(f), Fed(b), Chunk(g));
    Concat(RelativeString(f.path), Shown(f), RelativeString(f.path), Shown(g));
    ShownDecides(g, f);
  }

  lemma ChunkOf(file: Listed)
    ensures Fed([file]) == Chunk(file)
  {
    hide Chunk;
    assert [file][1..] == [] && Chunk(file) + "" == Chunk(file);
  }

  lemma Between(a: string, x: string, b: string, y: string)
    ensures a + x + b == a + y + b <==> x == y
  {
    if a + x + b == a + y + b {
      var s := a + x + b;
      assert |x| == |y|;
      assert s[|a|..|a| + |x|] == x && s[|a|..|a| + |y|] == y;
    }
  }

  /** Same paths, and inputs of the same length: what the hashed bytes leave open. */
  predicate SameShape(s: seq<Listed>, t: seq<Listed>) {
    && |s| == |t|
    && forall i :: 0 <= i < |s| ==> s[i].path == t[i].path && |Shown(s[i])| == |Shown(t[i])|
  }

  /** The same inputs, file by file, whatever is under `build/`. */
  predicate SameFiles(s: seq<Listed>, t: seq<Listed>) {
    && |s| == |t|
    && forall i :: 0 <= i < |s| ==>
         && s[i].path == t[i].path
         && (s[i].path == [] || s[i].path[0] != "build" ==> SameInput(s[i].path, s[i].contents, t[i].contents))
  }

  /** Between packages of one shape the hashed bytes tell exactly the inputs apart. */
  lemma {:induction false} ShapeDecides(s: seq<Listed>, t: seq<Listed>)
    requires SameShape(s, t)
    ensures Fed(s) == Fed(t) <==> SameFiles(s, t)
  {
    hide Shown, RelativeString, SameInput;
    if s != [] {
      ShapeDecides(s[1..], t[1..]);
      Concat(Chunk(s[0]), Fed(s[1..]), Chunk(t[0]), Fed(t[1..]));
      Concat(RelativeString(s[0].path), Shown(s[0]), RelativeString(s[0].path), Shown(t[0]));
      ShownDecides(s[0], t[0]);
      SameFilesCons(s, t);
    }
  }

  lemma SameFilesCons(s: seq<Listed>, t: seq<Listed>)
    requires s != [] && |s| == |t|
    ensures SameFiles(s, t) <==>
            && s[0].path == t[0].path
            && (s[0].path == [] || s[0].path[0] != "build" ==> SameInput(s[0].path, s[0].contents, t[0].contents))
            && SameFiles(s[1..], t[1..])
  {
    hide SameInput;
    assert forall i :: 0 < i < |s| ==> s[1..][i - 1] == s[i] && t[1..][i - 1] == t[i];
  }

  lemma Concat(a: string, b: string, c: string, d: string)
    requires |a| == |c|
    ensures a + b == c + d <==> a == c && b == d
  {
    if a + b == c + d {
      assert a == (a + b)[..|a|] && c == (c + d)[..|a|];
      assert b == (a + b)[|a|..] && d == (c + d)[|a|..];
    }
  }
}
