/** One at a time against reordered: exactly when each run is accepted, and when the two answer alike. */
module OverrideRuns {
  import opened Text
  import opened ConfigOverrides
  import opened OverrideMeaning

  // ---- One at a time ----

  /** After each override of an epoch key, the pair is consistent. */
  predicate StaysConsistent(s: Stores, es: seq<Entry>) {
    forall k :: 0 <= k < |es| && es[k].key in s.epoch ==> Consistent(Fold(s, s.epoch.Keys, es[..k + 1]).epoch)
  }

  predicate EachAllowed(s: Stores, es: seq<Entry>) {
    forall i :: 0 <= i < |es| ==> EntryOk(s, es[i])
  }

  lemma FoldCons(s: Stores, es: seq<Entry>, k: nat)
    requires es != [] && k < |es|
    ensures Fold(s, s.epoch.Keys, es[..k + 1]) == Fold(Put(s, es[0]), s.epoch.Keys, es[1..][..k])
  {
    assert es[..k + 1] == [es[0]] + es[1..][..k];
    FoldAppend(s, s.epoch.Keys, [es[0]], es[1..][..k]);
    FoldOne(s, es[0]);
  }

  lemma ConsistentCons(s: Stores, es: seq<Entry>)
    requires es != []
    ensures StaysConsistent(s, es) <==>
            && (es[0].key in s.epoch ==> Consistent(Put(s, es[0]).epoch))
            && StaysConsistent(Put(s, es[0]), es[1..])
  {
    hide Consistent, Fold;
    var s', tail := Put(s, es[0]), es[1..];
    KeysKept(s, es[0]);
    forall k | 0 <= k < |es|
      ensures Fold(s, s.epoch.Keys, es[..k + 1]) == Fold(s', s.epoch.Keys, tail[..k])
    {
      FoldCons(s, es, k);
    }
    FoldNone(s');
    assert tail[..0] == [];
    assert forall k :: 0 <= k < |tail| ==> tail[k] == es[k + 1];
    if StaysConsistent(s', tail) && (es[0].key in s.epoch ==> Consistent(s'.epoch)) {
      forall k | 0 <= k < |es| && es[k].key in s.epoch ensures Consistent(Fold(s, s.epoch.Keys, es[..k + 1]).epoch) {
        if k > 0 {
          assert tail[k - 1] == es[k];
        }
      }
    }
    if StaysConsistent(s, es) {
      assert es[0].key in s.epoch ==> Consistent(Fold(s, s.epoch.Keys, es[..1]).epoch);
      forall k | 0 <= k < |tail| && tail[k].key in s'.epoch
        ensures Consistent(Fold(s', s'.epoch.Keys, tail[..k + 1]).epoch)
      {
        assert es[k + 1] == tail[k];
      }
    }
  }

  lemma FoldNone(s: Stores)
    ensures Fold(s, s.epoch.Keys, []) == s
  {
  }

  lemma AllowedCons(s: Stores, es: seq<Entry>)
    requires es != [] && EntryOk(s, es[0])
    ensures EachAllowed(s, es) <==> EachAllowed(Put(s, es[0]), es[1..])
  {
    hide EntryOk, SameShape;
    var s' := Put(s, es[0]);
    PutShape(s, es[0]);
    KeysKept(s, es[0]);
    forall i | 0 <= i < |es[1..]| ensures EntryOk(s', es[1..][i]) <==> EntryOk(s, es[i + 1]) {
      ShapeDecides(s, s', es[i + 1]);
    }
    Shifted(s, s', es);
  }

  /** One at a time, the run succeeds exactly when each override is allowed and the pair is consistent after each. */
  lemma {:induction false} SequentialExact(s: Stores, es: seq<Entry>)
    ensures ApplyAll(s, s.epoch.Keys, es).Some? <==> EachAllowed(s, es) && StaysConsistent(s, es)
    decreases |es|
  {
    if es != [] {
      OneExact(s, es[0]);
      KeysKept(s, es[0]);
      hide ApplyOne, EntryOk, EachAllowed, StaysConsistent, Put, Consistent;
      ConsistentCons(s, es);
      if EntryOk(s, es[0]) {
        AllowedCons(s, es);
        SequentialExact(Put(s, es[0]), es[1..]);
      } else {
        FirstDenied(s, es);
      }
    }
  }

  lemma FirstDenied(s: Stores, es: seq<Entry>)
    requires es != [] && !EntryOk(s, es[0])
    ensures !EachAllowed(s, es)
  {
  }

  // ---- The two runs compared ----

  /** What the reordered run asks. */
  predicate ReorderedOk(s: Stores, overrides: seq<Entry>) {
    && AllAllowed(s, overrides)
    && (TouchesEpoch(s, overrides) ==> Consistent(Fold(s, s.epoch.Keys, overrides).epoch))
  }

  /** A number for a key of the pair that a later number for the same key replaces. */
  predicate Superseded(overrides: seq<Entry>, i: nat)
    requires i < |overrides|
  {
    && IsMpc(overrides[i])
    && exists j :: i < j < |overrides| && IsMpc(overrides[j]) && overrides[j].key == overrides[i].key
  }

  /** A replaced number that the chain would not take. */
  predicate DropsDenied(s: Stores, overrides: seq<Entry>) {
    exists i :: 0 <= i < |overrides| && Superseded(overrides, i) && !EntryOk(s, overrides[i])
  }

  lemma {:induction false} LastIsLast(overrides: seq<Entry>, i: nat)
    requires i < |overrides| && IsMpc(overrides[i]) && !Superseded(overrides, i)
    ensures LastNumber(overrides, overrides[i].key) == Some(overrides[i].value.number)
  {
    var n := |overrides| - 1;
    if i < n {
      assert !(overrides[n].key == overrides[i].key && overrides[n].value.U64?);
      assert forall j :: i < j < n ==> overrides[..n][j] == overrides[j];
      LastIsLast(overrides[..n], i);
    }
  }

  lemma {:induction false} OthersHave(overrides: seq<Entry>, i: nat)
    requires i < |overrides| && !IsMpc(overrides[i])
    ensures exists j :: 0 <= j < |Others(overrides)| && Others(overrides)[j] == overrides[i]
  {
    var n := |overrides| - 1;
    var before := Others(overrides[..n]);
    if i < n {
      OthersHave(overrides[..n], i);
      var j :| 0 <= j < |before| && before[j] == overrides[i];
      assert Others(overrides)[j] == overrides[i];
    } else {
      assert Others(overrides)[|before|] == overrides[i];
    }
  }

  lemma OtherAllowed(s: Stores, overrides: seq<Entry>, i: nat)
    requires AllAllowed(s, overrides) && i < |overrides| && !IsMpc(overrides[i])
    ensures EntryOk(s, overrides[i])
  {
    hide Others, MpcEntries, EntryOk;
    OthersHave(overrides, i);
  }

  lemma LastAllowed(s: Stores, overrides: seq<Entry>, i: nat)
    requires AllAllowed(s, overrides) && i < |overrides| && IsMpc(overrides[i]) && !Superseded(overrides, i)
    ensures EntryOk(s, overrides[i])
  {
    hide LastNumber, Others, Superseded;
    LastIsLast(overrides, i);
    var mpc := MpcEntries(overrides);
    var j := if overrides[i].key == MAX_FAULTY then 0 else |mpc| - 1;
    assert mpc[j] == overrides[i];
  }

  /** The reordered run leaves unchecked only numbers that are replaced. */
  lemma DeniedSuperseded(s: Stores, overrides: seq<Entry>, i: nat)
    requires AllAllowed(s, overrides) && i < |overrides| && !EntryOk(s, overrides[i])
    ensures Superseded(overrides, i)
  {
    hide Superseded, AllAllowed, EntryOk;
    if !IsMpc(overrides[i]) {
      OtherAllowed(s, overrides, i);
    } else if !Superseded(overrides, i) {
      LastAllowed(s, overrides, i);
    }
  }

  /**
   The runs answer alike, result included, exactly when: if the reordered one is accepted, it drops no
   number the chain would refuse and the pair is consistent after each step in order; and if the other
   is accepted, the pair lives in the epoch store.
   */
  lemma RunsAgreeExact(s: Stores, overrides: seq<Entry>)
    ensures Batched(s, overrides) == ApplyAll(s, s.epoch.Keys, overrides) <==>
            && (ReorderedOk(s, overrides) ==> !DropsDenied(s, overrides) && StaysConsistent(s, overrides))
            && (EachAllowed(s, overrides) && StaysConsistent(s, overrides) ==> PairHome(s, overrides))
  {
    hide Batched, ApplyAll, StaysConsistent, PairHome, Fold, Consistent, AllAllowed, TouchesEpoch, EntryOk, Superseded;
    BatchedExact(s, overrides);
    SequentialExact(s, overrides);
    if ApplyAll(s, s.epoch.Keys, overrides).Some? {
      SequentialImpliesBatched(s, overrides);
    } else if ReorderedOk(s, overrides) && StaysConsistent(s, overrides) {
      var i :| 0 <= i < |overrides| && !EntryOk(s, overrides[i]);
      DeniedSuperseded(s, overrides, i);
    }
  }

  // ---- Each way of differing happens ----

  /** Both keys of the pair are in the epoch store, as it is set up. */
  predicate HasPair(s: Stores) {
    && MAX_FAULTY in s.epoch && s.epoch[MAX_FAULTY].U64?
    && DELTA in s.epoch && s.epoch[DELTA].U64?
  }

  lemma PairKeys()
    ensures MAX_FAULTY != DELTA && IsGovernable(MAX_FAULTY) && IsGovernable(DELTA)
    ensures forall n :: IsValidValue(MAX_FAULTY, U64(n)) <==> 0 < n <= 3_333
    ensures forall n :: IsValidValue(DELTA, U64(n)) <==> n <= 10_000
  {
    assert MAX_FAULTY[0] == 'm' && DELTA[0] == 'm' && GUARDIAN_KEY[0] == 'g' && CHAIN_ID[0] == 'b';
    assert MAX_FAULTY[4] == 'm' && DELTA[4] == 'w' && REMOVED_THRESHOLD[4] == 't';
  }

  /** The joint proposal of at most one number a key, on stores that hold the pair. */
  lemma JointAccepts(s: Stores, overrides: seq<Entry>, maxFaulty: Option<nat>, delta: Option<nat>)
    requires HasPair(s) && Others(overrides) == [] && (maxFaulty.Some? || delta.Some?)
    requires LastNumber(overrides, MAX_FAULTY) == maxFaulty && LastNumber(overrides, DELTA) == delta
    requires maxFaulty.Some? ==> 0 < maxFaulty.value <= 3_333
    requires delta.Some? ==> delta.value <= 10_000
    requires (if delta.Some? then delta.value else s.epoch[DELTA].number) <
             (if maxFaulty.Some? then maxFaulty.value else s.epoch[MAX_FAULTY].number)
    ensures Batched(s, overrides).Some?
  {
    PairKeys();
    hide Others, LastNumber, IsValidValue, IsGovernable;
    var mpc := MpcEntries(overrides);
    UpsertTwo(s.epoch, maxFaulty, delta, MAX_FAULTY);
    UpsertTwo(s.epoch, maxFaulty, delta, DELTA);
    hide UpsertAll;
    assert forall i :: 0 <= i < |mpc| ==> IsEpochUpdate(s.epoch, mpc[i]);
    assert Consistent(UpsertAll(s.epoch, mpc));
  }

  lemma TwoEntries(a: Entry, b: Entry)
    requires IsMpc(a) && IsMpc(b)
    ensures Others([a, b]) == []
    ensures forall key :: LastNumber([a, b], key) ==
              if b.key == key then Some(b.value.number) else if a.key == key then Some(a.value.number) else None
  {
    assert [a, b][..1] == [a] && [a][..0] == [];
    assert Others([]) == [] && Others([a]) == [];
    forall key ensures LastNumber([a], key) == if a.key == key then Some(a.value.number) else None {
      LastNumberStep([a], key);
      assert LastNumber([], key) == None;
    }
    forall key ensures LastNumber([a, b], key) == if b.key == key then Some(b.value.number) else LastNumber([a], key) {
      LastNumberStep([a, b], key);
    }
  }

  lemma FirstRefused(s: Stores, es: seq<Entry>)
    requires es != [] && ApplyOne(s, s.epoch.Keys, es[0]) == None
    ensures ApplyAll(s, s.epoch.Keys, es) == None
  {
    hide ApplyOne;
  }

  /** Lowering both, below the old delta: consistent only jointly, so refused one at a time. */
  lemma JointOnly(s: Stores, v: nat, d: nat)
    requires HasPair(s) && d < v <= 3_333 && v <= s.epoch[DELTA].number
    ensures var overrides := [Entry(MAX_FAULTY, U64(v)), Entry(DELTA, U64(d))];
            ApplyAll(s, s.epoch.Keys, overrides) == None && Batched(s, overrides).Some?
  {
    PairKeys();
    hide IsValidValue, IsGovernable;
    var a, b := Entry(MAX_FAULTY, U64(v)), Entry(DELTA, U64(d));
    OneExact(s, a);
    assert NumberOr(Put(s, a).epoch, DELTA, 800) == Some(s.epoch[DELTA].number);
    assert !Consistent(Put(s, a).epoch);
    FirstRefused(s, [a, b]);
    TwoEntries(a, b);
    JointAccepts(s, [a, b], Some(v), Some(d));
  }

  /** A number out of range, then one in range: the chain never sees the first when it is replaced before. */
  lemma DeniedDropped(s: Stores, u: nat, v: nat)
    requires HasPair(s) && (u == 0 || u > 3_333) && s.epoch[DELTA].number < v <= 3_333
    ensures var overrides := [Entry(MAX_FAULTY, U64(u)), Entry(MAX_FAULTY, U64(v))];
            ApplyAll(s, s.epoch.Keys, overrides) == None && Batched(s, overrides).Some?
  {
    PairKeys();
    hide IsValidValue, IsGovernable;
    var a, b := Entry(MAX_FAULTY, U64(u)), Entry(MAX_FAULTY, U64(v));
    OneExact(s, a);
    FirstRefused(s, [a, b]);
    TwoEntries(a, b);
    JointAccepts(s, [a, b], Some(v), None);
  }

  /** A key of the pair kept in the other store: writable there one at a time, never jointly. */
  lemma NotHomeRefused(s: Stores, v: nat)
    requires MAX_FAULTY !in s.epoch && MAX_FAULTY in s.instant && s.instant[MAX_FAULTY].U64?
    ensures var overrides := [Entry(MAX_FAULTY, U64(v))];
            ApplyAll(s, s.epoch.Keys, overrides).Some? && Batched(s, overrides) == None
  {
    PairKeys();
    hide IsValidValue, IsGovernable;
    var a := Entry(MAX_FAULTY, U64(v));
    OneExact(s, a);
    hide ApplyOne;
    assert [a][1..] == [];
    assert ApplyAll(Put(s, a), s.epoch.Keys, []).Some?;
    assert IsMpc([a][0]) && !PairHome(s, [a]);
    hide ApplyAll;
    SequentialImpliesBatched(s, [a]);
  }
}
