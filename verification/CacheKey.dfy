/** The key of the build cache: walking a package, sorting its files, and what is hashed of them. */
module CacheKey {
  import opened Sequences

  type Path = seq<string>

  datatype Node = File(contents: string) | Dir(entries: seq<Entry>)

  /** One directory entry, in whatever order the operating system lists them. */
  datatype Entry = Entry(name: string, node: Node)

  datatype Listed = Listed(path: Path, contents: string)

  // ---- Walking the package ----

  /** Every file below a directory, in depth-first order. */
  function FilesIn(entries: seq<Entry>, at: Path): seq<Listed> {
    if entries == [] then []
    else FilesOf(entries[0], at) + FilesIn(entries[1..], at)
  }

  function FilesOf(entry: Entry, at: Path): seq<Listed> {
    match entry.node
    case File(contents) => [Listed(at + [entry.name], contents)]
    case Dir(inner) => FilesIn(inner, at + [entry.name])
  }

  function Size(entries: seq<Entry>): nat {
    if entries == [] then 0
    else 1 + (match entries[0].node case File(_) => 0 case Dir(inner) => Size(inner)) + Size(entries[1..])
  }

  datatype Frame = Frame(at: Path, entries: seq<Entry>)

  ghost function Pending(stack: seq<Frame>): multiset<Listed> {
    if stack == [] then multiset{}
    else Pending(stack[..|stack| - 1]) + multiset(FilesIn(stack[|stack| - 1].entries, stack[|stack| - 1].at))
  }

  ghost function Weight(stack: seq<Frame>): nat {
    if stack == [] then 0
    else Weight(stack[..|stack| - 1]) + 1 + Size(stack[|stack| - 1].entries)
  }

  lemma Pushed(stack: seq<Frame>, top: Frame)
    ensures Pending(stack + [top]) == Pending(stack) + multiset(FilesIn(top.entries, top.at))
    ensures Weight(stack + [top]) == Weight(stack) + 1 + Size(top.entries)
  {
    assert (stack + [top])[..|stack|] == stack;
  }

  /** What remains of a directory after its first entry. */
  lemma FilesStep(entries: seq<Entry>, i: nat, at: Path)
    requires i < |entries|
    ensures FilesIn(entries[i..], at) == FilesOf(entries[i], at) + FilesIn(entries[i + 1..], at)
    ensures Size(entries[i..]) ==
            1 + (match entries[i].node case File(_) => 0 case Dir(inner) => Size(inner)) + Size(entries[i + 1..])
  {
    assert entries[i..][1..] == entries[i + 1..];
  }

  /** The stack walk terminates and lists every file exactly once. */
  method WalkFiles(root: seq<Entry>) returns (out: seq<Listed>)
    ensures multiset(out) == multiset(FilesIn(root, []))
  {
    hide FilesIn, FilesOf, Size;
    out := [];
    var stack := [Frame([], root)];
    Pushed([], Frame([], root));
    assert [] + [Frame([], root)] == stack;
    while stack != []
      invariant multiset(out) + Pending(stack) == multiset(FilesIn(root, []))
      decreases Weight(stack)
    {
      var Frame(at, entries) := stack[|stack| - 1];
      ghost var before := Weight(stack);
      stack := stack[..|stack| - 1];
      out, stack := ReadDir(at, entries, out, stack);
      assert Weight(stack) < before;
    }
  }

  /** One directory: its files are listed, its directories are stacked. */
  method ReadDir(at: Path, entries: seq<Entry>, listed: seq<Listed>, waiting: seq<Frame>)
    returns (out: seq<Listed>, stack: seq<Frame>)
    ensures multiset(out) + Pending(stack) == multiset(listed) + Pending(waiting) + multiset(FilesIn(entries, at))
    ensures Weight(stack) <= Weight(waiting) + Size(entries)
  {
    out, stack := listed, waiting;
    assert entries[0..] == entries;
    for i := 0 to |entries|
      invariant multiset(out) + Pending(stack) + multiset(FilesIn(entries[i..], at)) ==
                multiset(listed) + Pending(waiting) + multiset(FilesIn(entries, at))
      invariant Weight(stack) + Size(entries[i..]) <= Weight(waiting) + Size(entries)
    {
      FilesStep(entries, i, at);
      ghost var rest := FilesIn(entries[i + 1..], at);
      match entries[i].node {
        case File(contents) =>
          out := out + [Listed(at + [entries[i].name], contents)];
        case Dir(inner) =>
          Pushed(stack, Frame(at + [entries[i].name], inner));
          stack := stack + [Frame(at + [entries[i].name], inner)];
      }
    }
    assert entries[|entries|..] == [];
  }

  // ---- What the tree holds ----

  /** Whether a path leads, name by name, to a file with these contents. */
  predicate Holds(entries: seq<Entry>, path: Path, contents: string)
    decreases |path|
  {
    path != [] && exists i :: 0 <= i < |entries| && entries[i].name == path[0] && Leads(entries[i].node, path, contents)
  }

  predicate Leads(node: Node, path: Path, contents: string)
    requires path != []
    decreases |path|, 0
  {
    if |path| == 1 then node == File(contents) else node.Dir? && Holds(node.entries, path[1..], contents)
  }

  lemma {:induction false} EntryListed(entry: Entry, at: Path, path: Path, contents: string)
    ensures Listed(at + path, contents) in FilesOf(entry, at) <==>
            path != [] && path[0] == entry.name && Leads(entry.node, path, contents)
    decreases entry, 0
  {
    match entry.node
    case File(c) =>
      assert at + path == at + [entry.name] <==> path == [entry.name] by {
        SamePrefix(at, path, [entry.name]);
      }
    case Dir(inner) =>
      var below := at + [entry.name];
      if path != [] && path[0] == entry.name {
        assert at + path == below + path[1..];
        WalkExact(inner, below, path[1..], contents);
      } else if Listed(at + path, contents) in FilesOf(entry, at) {
        var k :| 0 <= k < |FilesOf(entry, at)| && FilesOf(entry, at)[k] == Listed(at + path, contents);
        EntryBelow(entry, at, k);
      }
  }

  lemma SamePrefix(a: Path, b: Path, c: Path)
    ensures a + b == a + c <==> b == c
  {
    assert (a + b)[|a|..] == b && (a + c)[|a|..] == c;
  }

  /** A file is listed, under its path, exactly when the tree holds it there. */
  lemma {:induction false} WalkExact(entries: seq<Entry>, at: Path, path: Path, contents: string)
    ensures Listed(at + path, contents) in FilesIn(entries, at) <==> Holds(entries, path, contents)
    decreases entries, 1
  {
    if entries != [] {
      EntryListed(entries[0], at, path, contents);
      WalkExact(entries[1..], at, path, contents);
      assert FilesIn(entries, at) == FilesOf(entries[0], at) + FilesIn(entries[1..], at);
      hide FilesIn, FilesOf, Leads;
      assert forall i :: 0 < i < |entries| ==> entries[1..][i - 1] == entries[i];
      assert forall i :: 0 <= i < |entries[1..]| ==> entries[1..][i] == entries[i + 1];
    }
  }

  // ---- Sorting ----

  predicate NameLess(a: string, b: string) {
    b != "" && (a == "" || a[0] < b[0] || (a[0] == b[0] && NameLess(a[1..], b[1..])))
  }

  /** Paths compare component by component. */
  predicate PathLess(a: Path, b: Path) {
    b != [] && (a == [] || NameLess(a[0], b[0]) || (a[0] == b[0] && PathLess(a[1..], b[1..])))
  }

  /** Names compare at their first difference; a name comes before its extensions. */
  lemma {:induction false} NameLessExact(a: string, b: string)
    ensures NameLess(a, b) <==>
            exists k :: 0 <= k <= |a| && k < |b| && a[..k] == b[..k] && (k == |a| || a[k] < b[k])
  {
    if a != "" && b != "" && a[0] == b[0] {
      NameLessExact(a[1..], b[1..]);
      if NameLess(a, b) {
        var k :| && 0 <= k <= |a[1..]| && k < |b[1..]| && a[1..][..k] == b[1..][..k]
                 && (k == |a[1..]| || a[1..][k] < b[1..][k]);
        assert a[..k + 1] == [a[0]] + a[1..][..k] && b[..k + 1] == [b[0]] + b[1..][..k];
        assert k + 1 == |a| || a[k + 1] < b[k + 1];
      }
      if k :| 0 <= k <= |a| && k < |b| && a[..k] == b[..k] && (k == |a| || a[k] < b[k]) {
        assert a[1..][..k - 1] == a[..k][1..] && b[1..][..k - 1] == b[..k][1..];
        assert k == |a| || a[1..][k - 1] < b[1..][k - 1];
      }
    } else if NameLess(a, b) {
      assert a[..0] == b[..0] && (0 == |a| || a[0] < b[0]);
    } else {
      forall k | 0 < k <= |a| && k < |b| ensures a[..k] != b[..k] {
        assert a[..k][0] == a[0] && b[..k][0] == b[0];
      }
    }
  }

  lemma {:induction false} PathLessExact(a: Path, b: Path)
    ensures PathLess(a, b) <==>
            exists k :: 0 <= k <= |a| && k < |b| && a[..k] == b[..k] && (k == |a| || NameLess(a[k], b[k]))
  {
    hide NameLess;
    if a != [] && b != [] && a[0] == b[0] {
      PathLessExact(a[1..], b[1..]);
      NotLess(a[0]);
      if PathLess(a, b) {
        var k :| 0 <= k <= |a[1..]| && k < |b[1..]| && a[1..][..k] == b[1..][..k]
                 && (k == |a[1..]| || NameLess(a[1..][k], b[1..][k]));
        assert a[..k + 1] == [a[0]] + a[1..][..k] && b[..k + 1] == [b[0]] + b[1..][..k];
        assert k + 1 == |a| || NameLess(a[k + 1], b[k + 1]);
      }
      if k :| 0 <= k <= |a| && k < |b| && a[..k] == b[..k] && (k == |a| || NameLess(a[k], b[k])) {
        assert a[1..][..k - 1] == a[..k][1..] && b[1..][..k - 1] == b[..k][1..];
        assert k == |a| || NameLess(a[1..][k - 1], b[1..][k - 1]);
      }
    } else if PathLess(a, b) {
      assert a[..0] == b[..0] && (0 == |a| || NameLess(a[0], b[0]));
    } else {
      forall k | 0 < k <= |a| && k < |b| ensures a[..k] != b[..k] {
        assert a[..k][0] == a[0] && b[..k][0] == b[0];
      }
    }
  }

  lemma {:induction false} NotLess(a: string)
    ensures !NameLess(a, a)
  {
    if a != "" {
      NotLess(a[1..]);
    }
  }

  lemma {:induction false} NamesTotal(a: string, b: string)
    ensures a == b || NameLess(a, b) || NameLess(b, a)
  {
    if a != "" && b != "" && a[0] == b[0] {
      NamesTotal(a[1..], b[1..]);
      assert a == [a[0]] + a[1..] && b == [b[0]] + b[1..];
    }
  }

  lemma {:induction false} PathsTotal(a: Path, b: Path)
    ensures a == b || PathLess(a, b) || PathLess(b, a)
  {
    if a != [] && b != [] {
      NamesTotal(a[0], b[0]);
      if a[0] == b[0] {
        PathsTotal(a[1..], b[1..]);
        assert a == [a[0]] + a[1..] && b == [b[0]] + b[1..];
      }
    }
  }

  predicate DistinctPaths(files: seq<Listed>) {
    DistinctBy((file: Listed) => file.path, files)
  }

  /** What sorting the file list by path may return. */
  predicate IsSort(sorted: seq<Listed>, files: seq<Listed>) {
    && multiset(sorted) == multiset(files)
    && forall i, j :: 0 <= i < j < |sorted| ==> !PathLess(sorted[j].path, sorted[i].path)
  }

  /** Two sorts of the same files begin alike. */
  lemma SameFirst(s: seq<Listed>, t: seq<Listed>)
    requires IsSort(s, t) && IsSort(t, s) && DistinctPaths(t) && s != []
    ensures t != [] && t[0] == s[0]
  {
    hide PathLess;
    assert s[0] in multiset(s);
    var j :| 0 <= j < |t| && t[j] == s[0];
    assert t[0] in multiset(t);
    var i :| 0 <= i < |s| && s[i] == t[0];
    PathsTotal(s[0].path, t[0].path);
  }

  lemma {:induction false} SameSort(s: seq<Listed>, t: seq<Listed>)
    requires IsSort(s, t) && IsSort(t, s) && DistinctPaths(t)
    ensures s == t
  {
    hide PathLess;
    if s == [] {
      assert |multiset(t)| == 0;
    } else {
      SameFirst(s, t);
      assert s == [s[0]] + s[1..] && t == [t[0]] + t[1..];
      assert multiset(s) == multiset{s[0]} + multiset(s[1..]);
      assert multiset(t) == multiset{t[0]} + multiset(t[1..]);
      assert multiset(s[1..]) == multiset(s) - multiset{s[0]};
      assert multiset(t[1..]) == multiset(t) - multiset{t[0]};
      SameSort(s[1..], t[1..]);
    }
  }

  /** Sibling names differ, all the way down. */
  predicate WellNamed(entries: seq<Entry>) {
    entries == [] ||
    (&& (forall i :: 0 < i < |entries| ==> entries[i].name != entries[0].name)
     && (entries[0].node.Dir? ==> WellNamed(entries[0].node.entries))
     && WellNamed(entries[1..]))
  }

  /** That is: no two siblings share a name, and every directory among them is so named too. */
  lemma {:induction false} WellNamedExact(entries: seq<Entry>)
    ensures WellNamed(entries) <==>
            && (forall i, j :: 0 <= i < j < |entries| ==> entries[i].name != entries[j].name)
            && forall i :: 0 <= i < |entries| && entries[i].node.Dir? ==> WellNamed(entries[i].node.entries)
  {
    if entries != [] {
      WellNamedExact(entries[1..]);
      assert forall i :: 0 < i < |entries| ==> entries[i] == entries[1..][i - 1];
    }
  }

  /** Listed paths lie below their directory, through one of its entries. */
  lemma {:induction false} PathsBelow(entries: seq<Entry>, at: Path, k: nat)
    requires k < |FilesIn(entries, at)|
    ensures var path := FilesIn(entries, at)[k].path;
            && |at| < |path| && path[..|at|] == at
            && exists i :: 0 <= i < |entries| && entries[i].name == path[|at|]
  {
    var head := FilesOf(entries[0], at);
    if k < |head| {
      EntryBelow(entries[0], at, k);
      assert FilesIn(entries, at)[k] == head[k];
    } else {
      PathsBelow(entries[1..], at, k - |head|);
      assert FilesIn(entries, at)[k] == FilesIn(entries[1..], at)[k - |head|];
      var i :| 0 <= i < |entries[1..]| && entries[1..][i].name == FilesIn(entries, at)[k].path[|at|];
      assert entries[i + 1] == entries[1..][i];
    }
  }

  lemma {:induction false} EntryBelow(entry: Entry, at: Path, k: nat)
    requires k < |FilesOf(entry, at)|
    ensures var path := FilesOf(entry, at)[k].path;
            |at| < |path| && path[..|at|] == at && path[|at|] == entry.name
  {
    if entry.node.Dir? {
      PathsBelow(entry.node.entries, at + [entry.name], k);
      var path := FilesOf(entry, at)[k].path;
      assert path[..|at| + 1] == at + [entry.name];
      assert path[..|at|] == path[..|at| + 1][..|at|] && path[|at|] == path[..|at| + 1][|at|];
    }
  }

  lemma {:induction false} WalkDistinct(entries: seq<Entry>, at: Path)
    requires WellNamed(entries)
    ensures DistinctPaths(FilesIn(entries, at))
  {
    if entries != [] {
      var head, tail := FilesOf(entries[0], at), FilesIn(entries[1..], at);
      WalkDistinct(entries[1..], at);
      if entries[0].node.Dir? {
        WalkDistinct(entries[0].node.entries, at + [entries[0].name]);
      }
      assert DistinctPaths(head);
      forall i, j | 0 <= i < |head| && 0 <= j < |tail| ensures head[i].path != tail[j].path {
        EntryBelow(entries[0], at, i);
        PathsBelow(entries[1..], at, j);
      }
      hide FilesOf, WellNamed;
      JoinDistinct(head, tail);
    }
  }

  lemma JoinDistinct(a: seq<Listed>, b: seq<Listed>)
    requires DistinctPaths(a) && DistinctPaths(b)
    requires forall i, j :: 0 <= i < |a| && 0 <= j < |b| ==> a[i].path != b[j].path
    ensures DistinctPaths(a + b)
  {
  }

  // ---- The order of a listing ----

  /** The same tree, each directory listed in its own order. */
  ghost predicate SameTree(a: seq<Entry>, b: seq<Entry>) {
    && |a| == |b|
    && (a == [] || exists j :: 0 <= j < |b| && SameEntry(a[0], b[j]) && SameTree(a[1..], b[..j] + b[j + 1..]))
  }

  ghost predicate SameEntry(x: Entry, y: Entry) {
    && x.name == y.name
    && match x.node
       case File(contents) => y.node == File(contents)
       case Dir(inner) => y.node.Dir? && SameTree(inner, y.node.entries)
  }

  /** A tree is the same as itself. */
  lemma {:induction false} SameTreeSelf(a: seq<Entry>)
    ensures SameTree(a, a)
  {
    if a != [] {
      assert a[..0] + a[1..] == a[1..];
      SameTreeSelf(a[1..]);
      if a[0].node.Dir? {
        SameTreeSelf(a[0].node.entries);
      }
      assert SameEntry(a[0], a[0]);
    }
  }

  lemma {:induction false} FilesAppend(a: seq<Entry>, b: seq<Entry>, at: Path)
    ensures FilesIn(a + b, at) == FilesIn(a, at) + FilesIn(b, at)
  {
    hide FilesOf;
    if a == [] {
      assert a + b == b;
    } else {
      assert (a + b)[1..] == a[1..] + b;
      assert FilesIn(a, at) == FilesOf(a[0], at) + FilesIn(a[1..], at);
      assert FilesIn(a + b, at) == FilesOf(a[0], at) + FilesIn(a[1..] + b, at);
      hide FilesIn;
      FilesAppend(a[1..], b, at);
      Assoc(FilesOf(a[0], at), FilesIn(a[1..], at), FilesIn(b, at));
    }
  }

  lemma FilesMoved(b: seq<Entry>, j: nat, at: Path)
    requires j < |b|
    ensures multiset(FilesIn(b, at)) == multiset(FilesOf(b[j], at)) + multiset(FilesIn(b[..j] + b[j + 1..], at))
  {
    FilesStep(b, j, at);
    hide FilesOf, FilesIn;
    assert b == b[..j] + b[j..];
    FilesAppend(b[..j], b[j..], at);
    FilesAppend(b[..j], b[j + 1..], at);
  }

  lemma {:induction false} SameTreeFiles(a: seq<Entry>, b: seq<Entry>, at: Path)
    requires SameTree(a, b)
    ensures multiset(FilesIn(a, at)) == multiset(FilesIn(b, at))
  {
    if a == [] {
      assert b == [];
    } else {
      var j :| 0 <= j < |b| && SameEntry(a[0], b[j]) && SameTree(a[1..], b[..j] + b[j + 1..]);
      SameEntryFiles(a[0], b[j], at);
      SameTreeFiles(a[1..], b[..j] + b[j + 1..], at);
      FilesMoved(b, j, at);
      hide FilesOf, SameTree;
    }
  }

  lemma {:induction false} SameEntryFiles(x: Entry, y: Entry, at: Path)
    requires SameEntry(x, y)
    ensures multiset(FilesOf(x, at)) == multiset(FilesOf(y, at))
  {
    if x.node.Dir? {
      SameTreeFiles(x.node.entries, y.node.entries, at + [x.name]);
    }
  }
}
