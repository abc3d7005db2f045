/** Reordering the overrides preserves their meaning, and when the reordered run is accepted. */
module OverrideMeaning {
  import opened Text
  import opened ConfigOverrides

  predicate EntryOk(s: Stores, e: Entry) {
    if e.key in s.epoch then IsEpochUpdate(s.epoch, e) else IsInstantUpdate(s.instant, e)
  }

  /** The same keys, holding values of the same variants. */
  predicate SameShape(s: Stores, t: Stores) {
    && s.epoch.Keys == t.epoch.Keys && s.instant.Keys == t.instant.Keys
    && (forall k :: k in s.epoch ==> SameVariant(s.epoch[k], t.epoch[k]))
    && forall k :: k in s.instant ==> SameVariant(s.instant[k], t.instant[k])
  }

  lemma VariantTransitive(a: Value, b: Value, c: Value)
    requires SameVariant(a, b)
    ensures SameVariant(a, c) <==> SameVariant(b, c)
  {
  }

  lemma ShapeDecides(s: Stores, t: Stores, e: Entry)
    requires SameShape(s, t)
    ensures EntryOk(s, e) <==> EntryOk(t, e)
  {
    hide SameVariant, IsValidValue, IsGovernable;
    if e.key in s.epoch {
      VariantTransitive(s.epoch[e.key], t.epoch[e.key], e.value);
    } else if e.key in s.instant {
      VariantTransitive(s.instant[e.key], t.instant[e.key], e.value);
    }
  }

  // ---- One proposal ----

  function Put(s: Stores, e: Entry): Stores {
    if e.key in s.epoch then s.(epoch := s.epoch[e.key := e.value]) else s.(instant := s.instant[e.key := e.value])
  }

  lemma OneExact(s: Stores, e: Entry)
    ensures ApplyOne(s, s.epoch.Keys, e).Some? <==> EntryOk(s, e) && (e.key in s.epoch ==> Consistent(Put(s, e).epoch))
    ensures ApplyOne(s, s.epoch.Keys, e).Some? ==> ApplyOne(s, s.epoch.Keys, e).value == Put(s, e)
  {
    hide Consistent, IsEpochUpdate, IsInstantUpdate;
    assert [e][1..] == [];
    assert UpsertAll(s.epoch, [e]) == s.epoch[e.key := e.value];
    assert UpsertAll(s.instant, [e]) == s.instant[e.key := e.value];
    assert [e][0] == e;
  }

  lemma PutShape(s: Stores, e: Entry)
    requires EntryOk(s, e)
    ensures SameShape(s, Put(s, e))
  {
    assert forall v: Value :: SameVariant(v, v);
  }

  lemma FoldOne(s: Stores, e: Entry)
    ensures Fold(s, s.epoch.Keys, [e]) == Put(s, e)
  {
    assert [e][..0] == [];
    assert Fold(s, s.epoch.Keys, []) == s;
  }

  lemma {:induction false} FoldAppend(s: Stores, keys: set<string>, a: seq<Entry>, b: seq<Entry>)
    ensures Fold(s, keys, a + b) == Fold(Fold(s, keys, a), keys, b)
    decreases |b|
  {
    if b == [] {
      assert a + b == a;
    } else {
      var n := |b| - 1;
      FoldAppend(s, keys, a, b[..n]);
      assert (a + b)[..|a + b| - 1] == a + b[..n];
    }
  }

  /** One at a time: what is accepted is written, and every override was one the stores allow. */
  lemma {:induction false} AllSound(s: Stores, es: seq<Entry>)
    requires ApplyAll(s, s.epoch.Keys, es).Some?
    ensures ApplyAll(s, s.epoch.Keys, es).value == Fold(s, s.epoch.Keys, es)
    ensures forall i :: 0 <= i < |es| ==> EntryOk(s, es[i])
    ensures Consistent(s.epoch) || (exists i :: 0 <= i < |es| && es[i].key in s.epoch) ==>
              Consistent(Fold(s, s.epoch.Keys, es).epoch)
    decreases |es|
  {
    hide Consistent, EntryOk, SameShape;
    if es != [] {
      OneExact(s, es[0]);
      hide ApplyOne;
      var s' := Put(s, es[0]);
      KeysKept(s, es[0]);
      AllSound(s', es[1..]);
      assert es == [es[0]] + es[1..];
      FoldAppend(s, s.epoch.Keys, [es[0]], es[1..]);
      FoldOne(s, es[0]);
      PutShape(s, es[0]);
      forall i | 0 <= i < |es| ensures EntryOk(s, es[i]) {
        if i > 0 {
          ShapeDecides(s, s', es[i]);
          assert es[i] == es[1..][i - 1];
        }
      }
    }
  }

  lemma KeysKept(s: Stores, e: Entry)
    ensures Put(s, e).epoch.Keys == s.epoch.Keys
    ensures e.key !in s.epoch ==> Put(s, e).epoch == s.epoch
  {
  }

  // ---- Overrides that leave the coupled pair alone ----

  predicate Neutral(s: Stores, e: Entry) {
    e.key in s.epoch ==> e.key != DELTA && e.key != MAX_FAULTY
  }

  lemma NeutralConsistent(s: Stores, e: Entry)
    requires Neutral(s, e)
    ensures Consistent(Put(s, e).epoch) <==> Consistent(s.epoch)
  {
  }

  /** One at a time, overrides that leave the pair alone are accepted exactly when allowed in a consistent store. */
  lemma {:induction false} NeutralExact(s: Stores, es: seq<Entry>)
    requires forall i :: 0 <= i < |es| && EntryOk(s, es[i]) ==> Neutral(s, es[i])
    ensures ApplyAll(s, s.epoch.Keys, es).Some? <==>
            && (forall i :: 0 <= i < |es| ==> EntryOk(s, es[i]))
            && ((exists i :: 0 <= i < |es| && es[i].key in s.epoch) ==> Consistent(s.epoch))
    ensures (forall i :: 0 <= i < |es| ==> EntryOk(s, es[i])) ==>
              (Consistent(Fold(s, s.epoch.Keys, es).epoch) <==> Consistent(s.epoch))
    decreases |es|
  {
    if es != [] {
      var e, s' := es[0], Put(s, es[0]);
      OneExact(s, e);
      hide Consistent, EntryOk, SameShape, ApplyOne;
      if EntryOk(s, e) {
        KeysKept(s, e);
        PutShape(s, e);
        NeutralConsistent(s, e);
        forall i | 0 <= i < |es[1..]|
          ensures es[1..][i] == es[i + 1] && (EntryOk(s', es[1..][i]) <==> EntryOk(s, es[i + 1]))
        {
          ShapeDecides(s, s', es[i + 1]);
        }
        NeutralExact(s', es[1..]);
        assert es == [e] + es[1..];
        FoldAppend(s, s.epoch.Keys, [e], es[1..]);
        FoldOne(s, e);
        Shifted(s, s', es);
      }
    }
  }

  lemma Shifted(s: Stores, s': Stores, es: seq<Entry>)
    requires es != [] && s'.epoch.Keys == s.epoch.Keys
    requires forall i :: 0 <= i < |es[1..]| ==> (EntryOk(s', es[1..][i]) <==> EntryOk(s, es[i + 1]))
    ensures (forall i :: 0 <= i < |es| ==> EntryOk(s, es[i])) <==>
            EntryOk(s, es[0]) && forall i :: 0 <= i < |es[1..]| ==> EntryOk(s', es[1..][i])
    ensures (exists i :: 0 <= i < |es| && es[i].key in s.epoch) <==>
            es[0].key in s.epoch || exists i :: 0 <= i < |es[1..]| && es[1..][i].key in s'.epoch
  {
    hide EntryOk;
    if forall i :: 0 <= i < |es[1..]| ==> EntryOk(s', es[1..][i]) {
      forall i | 1 <= i < |es| ensures EntryOk(s, es[i]) {
        assert EntryOk(s', es[1..][i - 1]);
      }
    }
    if exists i :: 0 <= i < |es| && es[i].key in s.epoch {
      var i :| 0 <= i < |es| && es[i].key in s.epoch;
      assert i > 0 ==> es[1..][i - 1] == es[i];
    }
  }

  // ---- The joint proposal ----

  predicate IsPairKey(key: string) {
    key == MAX_FAULTY || key == DELTA
  }

  function Joint(s: Stores, overrides: seq<Entry>): Stores {
    s.(epoch := UpsertAll(s.epoch, MpcEntries(overrides)))
  }

  function AsValue(number: Option<nat>): Option<Value> {
    match number case None => None case Some(n) => Some(U64(n))
  }

  lemma UpsertTwo(store: Store, a: Option<nat>, b: Option<nat>, key: string)
    ensures Get(UpsertAll(store, Numbered(MAX_FAULTY, a) + Numbered(DELTA, b)), key) ==
            if key == MAX_FAULTY then Or(AsValue(a), Get(store, key))
            else if key == DELTA then Or(AsValue(b), Get(store, key))
            else Get(store, key)
  {
    var es, last := Numbered(MAX_FAULTY, a) + Numbered(DELTA, b), Numbered(DELTA, b);
    var first := if a.Some? then store[MAX_FAULTY := U64(a.value)] else store;
    assert a.Some? ==> es[1..] == last;
    assert a.None? ==> es == last;
    assert UpsertAll(store, es) == UpsertAll(first, last);
    assert b.Some? ==> last[1..] == [];
    assert UpsertAll(first, last) == if b.Some? then first[DELTA := U64(b.value)] else first;
    PairDiffers();
  }

  lemma PairDiffers()
    ensures MAX_FAULTY != DELTA
  {
    assert MAX_FAULTY[4] == 'm' && DELTA[4] == 'w';
  }

  lemma JointAt(s: Stores, overrides: seq<Entry>, key: string)
    ensures Get(Joint(s, overrides).epoch, key) ==
            if IsPairKey(key) then Or(AsValue(LastNumber(overrides, key)), Get(s.epoch, key)) else Get(s.epoch, key)
  {
    hide UpsertAll, LastNumber;
    UpsertTwo(s.epoch, LastNumber(overrides, MAX_FAULTY), LastNumber(overrides, DELTA), key);
  }

  lemma {:induction false} OthersNotMpc(overrides: seq<Entry>, i: nat)
    requires i < |Others(overrides)|
    ensures !IsMpc(Others(overrides)[i])
  {
    var n := |overrides| - 1;
    if i < |Others(overrides[..n])| {
      OthersNotMpc(overrides[..n], i);
    }
  }

  /** Pulling the pair out loses nothing of any key. */
  lemma {:induction false} LastSplit(overrides: seq<Entry>, key: string)
    ensures !IsPairKey(key) || LastNumber(overrides, key).None? ==> Last(Others(overrides), key) == Last(overrides, key)
    ensures IsPairKey(key) && Last(Others(overrides), key).None? ==>
              Last(overrides, key) == AsValue(LastNumber(overrides, key))
  {
    if overrides != [] {
      var n := |overrides| - 1;
      LastSplit(overrides[..n], key);
      hide LastNumber;
      LastNumberStep(overrides, key);
      if IsMpc(overrides[n]) {
        assert Others(overrides) == Others(overrides[..n]);
      } else {
        assert Others(overrides)[..|Others(overrides)| - 1] == Others(overrides[..n]);
      }
    }
  }

  lemma LastNumberStep(overrides: seq<Entry>, key: string)
    requires overrides != []
    ensures var n := |overrides| - 1;
            LastNumber(overrides, key) ==
            if overrides[n].key == key && overrides[n].value.U64? then Some(overrides[n].value.number)
            else LastNumber(overrides[..n], key)
  {
  }

  lemma {:induction false} LastAt(es: seq<Entry>, key: string)
    requires Last(es, key).Some?
    ensures exists i :: 0 <= i < |es| && es[i].key == key
  {
    var n := |es| - 1;
    if es[n].key != key {
      LastAt(es[..n], key);
      var i :| 0 <= i < n && es[..n][i].key == key;
      assert es[i].key == key;
    }
  }

  lemma OthersNeutral(s: Stores, overrides: seq<Entry>, i: nat)
    requires i < |Others(overrides)| && EntryOk(s, Others(overrides)[i])
    ensures Neutral(s, Others(overrides)[i])
  {
    OthersNotMpc(overrides, i);
  }

  /** Everything the reordered run writes is allowed by the stores. */
  predicate AllAllowed(s: Stores, overrides: seq<Entry>) {
    && (forall i :: 0 <= i < |MpcEntries(overrides)| ==> IsEpochUpdate(s.epoch, MpcEntries(overrides)[i]))
    && (forall i :: 0 <= i < |Others(overrides)| ==> EntryOk(s, Others(overrides)[i]))
  }

  lemma PairInEpoch(s: Stores, overrides: seq<Entry>, key: string)
    requires AllAllowed(s, overrides) && IsPairKey(key) && LastNumber(overrides, key).Some?
    ensures key in s.epoch && s.epoch[key].U64?
  {
    hide LastNumber, Others, IsValidValue;
    var mpc := MpcEntries(overrides);
    var i := if key == MAX_FAULTY then 0 else |mpc| - 1;
    assert mpc[i].key == key && mpc[i].value.U64?;
    assert IsEpochUpdate(s.epoch, mpc[i]);
  }

  lemma PairGone(s: Stores, overrides: seq<Entry>, key: string)
    requires AllAllowed(s, overrides) && IsPairKey(key) && key in s.epoch
    ensures Last(Others(overrides), key) == None
  {
    var others := Others(overrides);
    if Last(others, key).Some? {
      LastAt(others, key);
      var i :| 0 <= i < |others| && others[i].key == key;
      OthersNeutral(s, overrides, i);
      assert false;
    }
  }

  /** Pulling the pair out and writing it first leaves both stores as writing all in order would. */
  lemma Rearranged(s: Stores, overrides: seq<Entry>)
    requires AllAllowed(s, overrides)
    ensures Fold(Joint(s, overrides), s.epoch.Keys, Others(overrides)) == Fold(s, s.epoch.Keys, overrides)
  {
    hide AllAllowed, Fold, Last, Others, LastNumber, Joint;
    var a := Fold(Joint(s, overrides), s.epoch.Keys, Others(overrides));
    var b := Fold(s, s.epoch.Keys, overrides);
    forall key ensures Get(a.epoch, key) == Get(b.epoch, key) && Get(a.instant, key) == Get(b.instant, key) {
      RearrangedAt(s, overrides, key);
    }
    SameStores(a, b);
  }

  lemma RearrangedAt(s: Stores, overrides: seq<Entry>, key: string)
    requires AllAllowed(s, overrides)
    ensures var a := Fold(Joint(s, overrides), s.epoch.Keys, Others(overrides));
            var b := Fold(s, s.epoch.Keys, overrides);
            Get(a.epoch, key) == Get(b.epoch, key) && Get(a.instant, key) == Get(b.instant, key)
  {
    hide AllAllowed, Fold, Last, Others, LastNumber, UpsertAll;
    FoldAt(Joint(s, overrides), s.epoch.Keys, Others(overrides), key);
    FoldAt(s, s.epoch.Keys, overrides, key);
    JointAt(s, overrides, key);
    LastSplit(overrides, key);
    if IsPairKey(key) {
      if key in s.epoch {
        PairGone(s, overrides, key);
      } else if LastNumber(overrides, key).Some? {
        PairInEpoch(s, overrides, key);
      }
    }
  }

  // ---- The reordered run ----

  /** Whether any override lands in the epoch store, where the pair is checked. */
  predicate TouchesEpoch(s: Stores, overrides: seq<Entry>) {
    MpcEntries(overrides) != [] || exists i :: 0 <= i < |Others(overrides)| && Others(overrides)[i].key in s.epoch
  }

  lemma UpsertShape(s: Stores, es: seq<Entry>)
    requires forall i :: 0 <= i < |es| ==> IsEpochUpdate(s.epoch, es[i])
    ensures SameShape(s, s.(epoch := UpsertAll(s.epoch, es)))
    decreases |es|
  {
    hide IsValidValue, IsGovernable;
    if es == [] {
      assert forall v: Value :: SameVariant(v, v);
    } else {
      var s' := Put(s, es[0]);
      assert IsEpochUpdate(s.epoch, es[0]);
      PutShape(s, es[0]);
      forall i | 0 <= i < |es[1..]| ensures IsEpochUpdate(s'.epoch, es[1..][i]) {
        ShapeDecides(s, s', es[i + 1]);
        assert IsEpochUpdate(s.epoch, es[i + 1]);
      }
      UpsertShape(s', es[1..]);
      ShapeTransitive(s, s', s'.(epoch := UpsertAll(s'.epoch, es[1..])));
    }
  }

  lemma ShapeTransitive(s: Stores, t: Stores, u: Stores)
    requires SameShape(s, t) && SameShape(t, u)
    ensures SameShape(s, u)
  {
  }

  /**
   The reordered run succeeds exactly when everything it writes is allowed and, if the epoch store is
   touched, the pair ends consistent; and then both stores are the left-to-right fold of all overrides.
   */
  lemma BatchedExact(s: Stores, overrides: seq<Entry>)
    ensures Batched(s, overrides).Some? <==>
            && AllAllowed(s, overrides)
            && (TouchesEpoch(s, overrides) ==> Consistent(Fold(s, s.epoch.Keys, overrides).epoch))
    ensures Batched(s, overrides).Some? ==> Batched(s, overrides).value == Fold(s, s.epoch.Keys, overrides)
  {
    hide Others, LastNumber, Fold, ApplyAll, Consistent, IsEpochUpdate, EntryOk, SameShape, UpsertAll, Neutral;
    var mpc, others, s1 := MpcEntries(overrides), Others(overrides), Joint(s, overrides);
    if forall i :: 0 <= i < |mpc| ==> IsEpochUpdate(s.epoch, mpc[i]) {
      UpsertShape(s, mpc);
      JointKeys(s, s1);
      forall i | 0 <= i < |others|
        ensures EntryOk(s1, others[i]) <==> EntryOk(s, others[i])
        ensures EntryOk(s1, others[i]) ==> Neutral(s1, others[i])
      {
        ShapeDecides(s, s1, others[i]);
        if EntryOk(s1, others[i]) {
          OthersNeutral(s1, overrides, i);
        }
      }
      NeutralExact(s1, others);
      if ApplyAll(s1, s1.epoch.Keys, others).Some? {
        AllSound(s1, others);
      }
      if AllAllowed(s, overrides) {
        Rearranged(s, overrides);
      }
      EmptyJoint(s, overrides);
    }
  }

  lemma JointKeys(s: Stores, s1: Stores)
    requires SameShape(s, s1)
    ensures s1.epoch.Keys == s.epoch.Keys
  {
  }

  lemma EmptyJoint(s: Stores, overrides: seq<Entry>)
    ensures MpcEntries(overrides) == [] ==> Joint(s, overrides) == s
  {
  }

  /** The pair's keys, where overridden by numbers, live in the epoch store. */
  predicate PairHome(s: Stores, overrides: seq<Entry>) {
    forall i :: 0 <= i < |overrides| && IsMpc(overrides[i]) ==> overrides[i].key in s.epoch
  }

  /** Whatever could be applied one at a time is accepted reordered, with the same result, if the pair is at home. */
  lemma SequentialImpliesBatched(s: Stores, overrides: seq<Entry>)
    requires ApplyAll(s, s.epoch.Keys, overrides).Some?
    ensures Batched(s, overrides).Some? <==> PairHome(s, overrides)
    ensures PairHome(s, overrides) ==> Batched(s, overrides) == ApplyAll(s, s.epoch.Keys, overrides)
  {
    AllSound(s, overrides);
    BatchedExact(s, overrides);
    hide ApplyAll, Fold, Consistent, EntryOk, Batched;
    if PairHome(s, overrides) {
      HomeAllowed(s, overrides);
    } else {
      NotHome(s, overrides);
    }
  }

  lemma HomeAllowed(s: Stores, overrides: seq<Entry>)
    requires PairHome(s, overrides) && forall i :: 0 <= i < |overrides| ==> EntryOk(s, overrides[i])
    ensures AllAllowed(s, overrides)
    ensures TouchesEpoch(s, overrides) ==> exists i :: 0 <= i < |overrides| && overrides[i].key in s.epoch
  {
    hide Others, LastNumber, IsEpochUpdate, IsInstantUpdate;
    var mpc, others := MpcEntries(overrides), Others(overrides);
    forall i | 0 <= i < |others| ensures exists j :: 0 <= j < |overrides| && overrides[j] == others[i] {
      OthersFrom(overrides, i);
    }
    forall i | 0 <= i < |mpc| ensures exists j :: 0 <= j < |overrides| && overrides[j] == mpc[i] && IsMpc(mpc[i]) {
      NumberFrom(overrides, mpc[i].key);
    }
    forall i | 0 <= i < |mpc|
      ensures IsEpochUpdate(s.epoch, mpc[i]) && exists j :: 0 <= j < |overrides| && overrides[j].key in s.epoch
    {
      var j :| 0 <= j < |overrides| && overrides[j] == mpc[i];
      assert EntryOk(s, overrides[j]) && overrides[j].key in s.epoch;
    }
    assert mpc != [] ==> IsEpochUpdate(s.epoch, mpc[0]);
  }

  lemma NotHome(s: Stores, overrides: seq<Entry>)
    requires !PairHome(s, overrides)
    ensures !AllAllowed(s, overrides)
  {
    var i :| 0 <= i < |overrides| && IsMpc(overrides[i]) && overrides[i].key !in s.epoch;
    NumberSeen(overrides, i);
    if AllAllowed(s, overrides) {
      PairInEpoch(s, overrides, overrides[i].key);
      assert false;
    }
  }

  lemma {:induction false} NumberSeen(overrides: seq<Entry>, i: nat)
    requires i < |overrides| && overrides[i].value.U64?
    ensures LastNumber(overrides, overrides[i].key).Some?
  {
    if i < |overrides| - 1 {
      NumberSeen(overrides[..|overrides| - 1], i);
    }
  }

  lemma {:induction false} OthersFrom(overrides: seq<Entry>, i: nat)
    requires i < |Others(overrides)|
    ensures exists j :: 0 <= j < |overrides| && overrides[j] == Others(overrides)[i]
  {
    var n := |overrides| - 1;
    if i < |Others(overrides[..n])| {
      OthersFrom(overrides[..n], i);
      var j :| 0 <= j < n && overrides[..n][j] == Others(overrides[..n])[i];
      assert overrides[j] == Others(overrides)[i];
    } else {
      assert overrides[n] == Others(overrides)[i];
    }
  }

  lemma {:induction false} NumberFrom(overrides: seq<Entry>, key: string)
    requires LastNumber(overrides, key).Some?
    ensures exists j :: 0 <= j < |overrides| && overrides[j] == Entry(key, U64(LastNumber(overrides, key).value))
  {
    var n := |overrides| - 1;
    if overrides[n].key == key && overrides[n].value.U64? {
      assert overrides[n] == Entry(key, U64(LastNumber(overrides, key).value));
    } else {
      NumberFrom(overrides[..n], key);
      var j :| 0 <= j < n && overrides[..n][j] == Entry(key, U64(LastNumber(overrides[..n], key).value));
      assert overrides[j] == overrides[..n][j];
    }
  }
}
