/** The cache protocol over the key as it is computed: for which packages it is right. */
module CacheSafety {
  import opened CacheKey
  import opened CacheInput
  import opened BuildCache

  /** The bytes hashed for a package. */
  function Hashed(p: Package): string {
    p.version + p.toolchain + Fed(p.sorted)
  }

  /** Keys are digests of those bytes, and different bytes have different digests. */
  ghost predicate KeysDigest(w: World, digest: string -> Key) {
    && (forall p :: w.key(p) == digest(Hashed(p)))
    && forall x, y :: digest(x) == digest(y) ==> x == y
  }

  /** What a build may depend on: version, toolchain, and the files outside `build/` but for the address line. */
  predicate SameInputs(p: Package, q: Package) {
    p.version == q.version && p.toolchain == q.toolchain && SameFiles(p.sorted, q.sorted)
  }

  ghost predicate BuildsFromInputs(w: World) {
    forall p, q :: w.admits(p) && w.admits(q) && SameInputs(p, q) ==> w.build(p) == w.build(q)
  }

  /** Headers of equal lengths, the same paths, and inputs of equal lengths. */
  predicate OneShape(p: Package, q: Package) {
    |p.version| == |q.version| && |p.toolchain| == |q.toolchain| && SameShape(p.sorted, q.sorted)
  }

  lemma HashedDecides(p: Package, q: Package)
    requires OneShape(p, q)
    ensures Hashed(p) == Hashed(q) <==> SameInputs(p, q)
  {
    hide SameFiles, SameShape, Fed;
    Concat(p.version + p.toolchain, Fed(p.sorted), q.version + q.toolchain, Fed(q.sorted));
    Concat(p.version, p.toolchain, q.version, q.toolchain);
    ShapeDecides(p.sorted, q.sorted);
  }

  /** Among packages of one shape the computed key decides, so every run of the cache is right. */
  lemma ShapedCacheCorrect(w: World, digest: string -> Key)
    requires Faithful(w) && KeysDigest(w, digest) && BuildsFromInputs(w)
    requires forall p, q :: w.admits(p) && w.admits(q) ==> OneShape(p, q)
    ensures forall p, q :: w.admits(p) && w.admits(q) ==> (w.key(p) == w.key(q) <==> SameInputs(p, q))
    ensures KeyDecides(w) && forall states: seq<State>, events: seq<Event> :: RunCorrect(w, states, events)
  {
    hide OneShape, SameInputs, Hashed, RunCorrect;
    forall p, q | w.admits(p) && w.admits(q) ensures w.key(p) == w.key(q) <==> SameInputs(p, q) {
      HashedDecides(p, q);
    }
    CacheExact(w);
  }

  // ---- The harness: copies of one package ----

  /** Only copies of one package are built, at one version with one toolchain. */
  ghost predicate AdmitsCopies(w: World, x: seq<Entry>, version: string, toolchain: string) {
    forall p :: w.admits(p) ==>
      p.version == version && p.toolchain == toolchain && exists y, address :: IsCopy(x, y, address, p.sorted)
  }

  lemma SeenShape(s: seq<Listed>, t: seq<Listed>)
    requires AllSeen(s) == AllSeen(t)
    ensures SameFiles(s, t)
  {
    hide Shown, SameInput;
    assert |AllSeen(s)| == |AllSeen(t)|;
    forall i | 0 <= i < |s|
      ensures s[i].path == t[i].path && SameInput(s[i].path, s[i].contents, t[i].contents)
    {
      assert AllSeen(s)[i] == Seen(s[i]) && AllSeen(t)[i] == Seen(t[i]);
      ShownDecides(s[i], t[i]);
    }
  }

  lemma CopiesSame(w: World, x: seq<Entry>, version: string, toolchain: string, p: Package, q: Package)
    requires WellNamed(x) && AdmitsCopies(w, x, version, toolchain) && w.admits(p) && w.admits(q)
    ensures SameInputs(p, q) && Hashed(p) == Hashed(q)
  {
    hide IsCopy, WellNamed, Fed, Shown, SameFiles;
    var y, a :| IsCopy(x, y, a, p.sorted);
    var z, b :| IsCopy(x, z, b, q.sorted);
    KeyStable(x, y, z, a, b, p.sorted, q.sorted);
    SeenShape(p.sorted, q.sorted);
  }

  /**
   Whatever each process's listing order and published address, all copies of one package share one
   key, and every run of the cache gives each process what its own copy builds to.
   */
  lemma CopiesShareBuild(w: World, digest: string -> Key, x: seq<Entry>, version: string, toolchain: string)
    requires Faithful(w) && KeysDigest(w, digest) && BuildsFromInputs(w)
    requires WellNamed(x) && AdmitsCopies(w, x, version, toolchain)
    ensures forall p, q :: w.admits(p) && w.admits(q) ==> w.key(p) == w.key(q)
    ensures KeyDecides(w) && forall states: seq<State>, events: seq<Event> :: RunCorrect(w, states, events)
  {
    hide SameInputs, Hashed, RunCorrect, AdmitsCopies, WellNamed;
    forall p, q | w.admits(p) && w.admits(q) ensures w.key(p) == w.key(q) && w.build(p) == w.build(q) {
      CopiesSame(w, x, version, toolchain, p, q);
    }
    CacheExact(w);
  }

  /** Without one shape it need not be: two packages hashed alike, which a compiler may tell apart. */
  lemma HashedAlike(version: string, toolchain: string, name: string, x: string, y: string)
    requires name !in {"build", "Move.toml"} && name + x !in {"build", "Move.toml"} && x != ""
    ensures var p := Package(version, toolchain, [Listed([name], x + y)]);
            var q := Package(version, toolchain, [Listed([name + x], y)]);
            Hashed(p) == Hashed(q) && !SameInputs(p, q)
  {
    Undelimited(name, x, y);
    assert |name + x| != |name|;
    assert [name][0] != [name + x][0];
  }
}
