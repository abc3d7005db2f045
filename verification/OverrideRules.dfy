/** The chain's rules spelled out, and what a run of overrides may leave in each store. */
module OverrideRules {
  import opened Text
  import opened ConfigOverrides
  import opened OverrideMeaning
  import opened OverrideRuns

  // ---- One override ----

  predicate SameKind(a: Value, b: Value) {
    && a.U64? == b.U64? && a.U128? == b.U128? && a.U256? == b.U256? && a.Addr? == b.Addr?
    && a.Text? == b.Text? && a.Flag? == b.Flag? && a.Bytes? == b.Bytes?
  }

  predicate IsNumber(value: Value, low: nat, high: nat) {
    value.U64? && low <= value.number <= high
  }

  /** The stores take the override, the pair apart. */
  predicate Takes(s: Stores, e: Entry) {
    && e.key != "guardian_btc_public_key" && e.key != "bitcoin_chain_id"
    && (e.key in s.epoch || e.key in s.instant)
    && SameKind(if e.key in s.epoch then s.epoch[e.key] else s.instant[e.key], e.value)
    && (e.key in s.epoch ==>
          && e.key != "mpc_threshold_in_basis_points" && e.key != "mpc_nonce_generation_protocol"
          && (e.key == "mpc_max_faulty_in_basis_points" ==> IsNumber(e.value, 1, 3_333))
          && (e.key == "mpc_weight_reduction_allowed_delta" ==> IsNumber(e.value, 0, 10_000))
          && (e.key == "mpc_nonce_accumulation_window_ms" ==> IsNumber(e.value, 0, 10_000)))
  }

  lemma TakesExact(s: Stores, e: Entry)
    ensures EntryOk(s, e) <==> Takes(s, e)
  {
  }

  predicate ReadsBelow(delta: Value, maxFaulty: Value) {
    delta.U64? && maxFaulty.U64? && delta.number < maxFaulty.number
  }

  /** The allowed delta is below the faulty share, by default 800 and 3333 basis points. */
  predicate PairHolds(epoch: Store) {
    ReadsBelow(
      if "mpc_weight_reduction_allowed_delta" in epoch then epoch["mpc_weight_reduction_allowed_delta"] else U64(800),
      if "mpc_max_faulty_in_basis_points" in epoch then epoch["mpc_max_faulty_in_basis_points"] else U64(3_333))
  }

  lemma PairExact(epoch: Store)
    ensures Consistent(epoch) <==> PairHolds(epoch)
  {
  }

  /** A proposal of one entry executes exactly by these rules, and writes that entry only. */
  lemma OneRule(s: Stores, e: Entry)
    ensures ApplyOne(s, s.epoch.Keys, e).Some? <==>
            Takes(s, e) && (e.key in s.epoch ==> PairHolds(s.epoch[e.key := e.value]))
    ensures ApplyOne(s, s.epoch.Keys, e).Some? ==>
              ApplyOne(s, s.epoch.Keys, e).value ==
              if e.key in s.epoch then Stores(s.instant, s.epoch[e.key := e.value])
              else Stores(s.instant[e.key := e.value], s.epoch)
  {
    hide ApplyOne, EntryOk, Takes, Consistent, PairHolds;
    OneExact(s, e);
    TakesExact(s, e);
    PairExact(s.epoch[e.key := e.value]);
  }

  // ---- The last override of a key ----

  predicate LastFor(es: seq<Entry>, i: nat)
    requires i < |es|
  {
    forall j :: i < j < |es| ==> es[j].key != es[i].key
  }

  lemma {:induction false} LastExact(es: seq<Entry>, key: string)
    ensures Last(es, key).None? <==> forall i :: 0 <= i < |es| ==> es[i].key != key
    ensures Last(es, key).Some? ==>
              exists i :: 0 <= i < |es| && LastFor(es, i) && es[i] == Entry(key, Last(es, key).value)
  {
    var n := |es| - 1;
    if es == [] {
    } else if es[n].key == key {
      assert LastFor(es, n) && es[n] == Entry(key, Last(es, key).value);
    } else {
      LastExact(es[..n], key);
      assert forall i :: 0 <= i < n ==> es[..n][i] == es[i];
      if Last(es, key).Some? {
        var i :| 0 <= i < n && LastFor(es[..n], i) && es[..n][i] == Entry(key, Last(es, key).value);
        assert LastFor(es, i) && es[i] == Entry(key, Last(es, key).value);
      }
    }
  }

  // ---- The whole run ----

  /** A number for one of the two keys that are proposed together. */
  predicate IsPairNumber(e: Entry) {
    (e.key == "mpc_max_faulty_in_basis_points" || e.key == "mpc_weight_reduction_allowed_delta") && e.value.U64?
  }

  /** A later number for the same key takes its place. */
  predicate IsReplaced(es: seq<Entry>, i: nat)
    requires i < |es|
  {
    IsPairNumber(es[i]) && exists j :: i < j < |es| && IsPairNumber(es[j]) && es[j].key == es[i].key
  }

  lemma ReplacedExact(es: seq<Entry>, i: nat)
    requires i < |es|
    ensures IsMpc(es[i]) <==> IsPairNumber(es[i])
    ensures Superseded(es, i) <==> IsReplaced(es, i)
  {
    forall j | 0 <= j < |es| ensures IsMpc(es[j]) <==> IsPairNumber(es[j]) {
    }
  }

  /** Each override that is not replaced is taken, and the numbers for the pair belong to the epoch store. */
  predicate AllTaken(s: Stores, es: seq<Entry>) {
    forall i :: 0 <= i < |es| ==> TakenAt(s, es, i)
  }

  predicate TakenAt(s: Stores, es: seq<Entry>, i: nat)
    requires i < |es|
  {
    (IsReplaced(es, i) || Takes(s, es[i])) && (IsPairNumber(es[i]) ==> es[i].key in s.epoch)
  }

  predicate WritesEpoch(s: Stores, es: seq<Entry>) {
    exists i :: 0 <= i < |es| && es[i].key in s.epoch
  }

  lemma AllowedTaken(s: Stores, es: seq<Entry>)
    requires AllAllowed(s, es)
    ensures AllTaken(s, es)
  {
    forall i | 0 <= i < |es| ensures TakenAt(s, es, i) {
      hide AllAllowed, Takes, EntryOk, IsReplaced, Superseded;
      ReplacedExact(es, i);
      TakesExact(s, es[i]);
      if !EntryOk(s, es[i]) {
        DeniedSuperseded(s, es, i);
      }
      if !PairHome(s, es) {
        NotHome(s, es);
      }
    }
  }

  /** The last number for a key stands in the overrides, and no later number replaces it. */
  lemma {:induction false} NumberStands(es: seq<Entry>, key: string)
    requires IsPairKey(key) && LastNumber(es, key).Some?
    ensures exists i :: 0 <= i < |es| && es[i] == Entry(key, U64(LastNumber(es, key).value)) && !IsReplaced(es, i)
  {
    var n := |es| - 1;
    if es[n].key == key && es[n].value.U64? {
      assert es[n] == Entry(key, U64(LastNumber(es, key).value)) && !IsReplaced(es, n);
    } else {
      NumberStands(es[..n], key);
      var i :| 0 <= i < n && es[..n][i] == Entry(key, U64(LastNumber(es, key).value)) && !IsReplaced(es[..n], i);
      assert forall j :: 0 <= j < n ==> es[..n][j] == es[j];
      assert es[i] == Entry(key, U64(LastNumber(es, key).value)) && !IsReplaced(es, i);
    }
  }

  lemma TakenAllowed(s: Stores, es: seq<Entry>)
    requires AllTaken(s, es)
    ensures AllAllowed(s, es)
  {
    var mpc, others := MpcEntries(es), Others(es);
    forall k | 0 <= k < |mpc| ensures IsEpochUpdate(s.epoch, mpc[k]) {
      hide LastNumber, Others, Takes, IsEpochUpdate, IsInstantUpdate, IsReplaced;
      NumberStands(es, mpc[k].key);
      var i :| 0 <= i < |es| && es[i] == mpc[k] && !IsReplaced(es, i);
      assert TakenAt(s, es, i);
      TakesExact(s, es[i]);
    }
    forall k | 0 <= k < |others| ensures EntryOk(s, others[k]) {
      hide LastNumber, Others, Takes, EntryOk;
      OthersNotMpc(es, k);
      OthersFrom(es, k);
      var i :| 0 <= i < |es| && es[i] == others[k];
      assert TakenAt(s, es, i);
      ReplacedExact(es, i);
      TakesExact(s, es[i]);
    }
  }

  lemma TouchesExact(s: Stores, es: seq<Entry>)
    requires AllTaken(s, es)
    ensures TouchesEpoch(s, es) <==> WritesEpoch(s, es)
  {
    hide LastNumber, Others, Takes, IsReplaced;
    if TouchesEpoch(s, es) {
      if MpcEntries(es) != [] {
        NumberFrom(es, MpcEntries(es)[0].key);
        var i :| 0 <= i < |es| && es[i] == MpcEntries(es)[0];
        assert TakenAt(s, es, i);
      } else {
        var k :| 0 <= k < |Others(es)| && Others(es)[k].key in s.epoch;
        OthersFrom(es, k);
      }
    }
    if WritesEpoch(s, es) {
      var i :| 0 <= i < |es| && es[i].key in s.epoch;
      if IsMpc(es[i]) {
        NumberSeen(es, i);
      } else {
        OthersHave(es, i);
      }
    }
  }

  /** The harness's run succeeds exactly by the rules on the overrides as given. */
  lemma RunRule(s: Stores, es: seq<Entry>)
    ensures Batched(s, es).Some? <==>
            AllTaken(s, es) && (WritesEpoch(s, es) ==> PairHolds(Fold(s, s.epoch.Keys, es).epoch))
  {
    hide AllTaken, AllAllowed, WritesEpoch, TouchesEpoch, Fold, PairHolds, Consistent, Batched;
    BatchedExact(s, es);
    PairExact(Fold(s, s.epoch.Keys, es).epoch);
    if AllAllowed(s, es) {
      AllowedTaken(s, es);
    }
    if AllTaken(s, es) {
      TakenAllowed(s, es);
      TouchesExact(s, es);
    }
  }

  /** What one key holds after the run: its last override, in the store that had it, or what it held before. */
  lemma RunWrites(s: Stores, es: seq<Entry>, key: string)
    requires Batched(s, es).Some?
    ensures var t := Batched(s, es).value;
            && (key in t.epoch <==> key in s.epoch) && (key in t.instant <==> key in s.instant)
            && (key in s.epoch && key in s.instant ==> t.instant[key] == s.instant[key])
    ensures var t := Batched(s, es).value;
            (forall i :: 0 <= i < |es| ==> es[i].key != key) ==>
              Get(t.epoch, key) == Get(s.epoch, key) && Get(t.instant, key) == Get(s.instant, key)
    ensures var t := Batched(s, es).value;
            forall i :: 0 <= i < |es| && LastFor(es, i) && es[i].key == key ==>
              Some(es[i].value) == if key in s.epoch then Get(t.epoch, key) else Get(t.instant, key)
  {
    hide Batched, Fold, Last, AllTaken, Takes, WritesEpoch, PairHolds, LastFor;
    BatchedExact(s, es);
    RunRule(s, es);
    FoldAt(s, s.epoch.Keys, es, key);
    LastExact(es, key);
    forall i | 0 <= i < |es| && LastFor(es, i) && es[i].key == key
      ensures Last(es, key) == Some(es[i].value) && (key in s.epoch || key in s.instant)
    {
      LastUnique(es, i);
      LastTaken(s, es, i);
    }
  }

  lemma LastUnique(es: seq<Entry>, i: nat)
    requires i < |es| && LastFor(es, i)
    ensures Last(es, es[i].key) == Some(es[i].value)
  {
    hide Last;
    LastExact(es, es[i].key);
    var k :| 0 <= k < |es| && LastFor(es, k) && es[k] == Entry(es[i].key, Last(es, es[i].key).value);
    assert k == i;
  }

  lemma LastTaken(s: Stores, es: seq<Entry>, i: nat)
    requires AllTaken(s, es) && i < |es| && LastFor(es, i)
    ensures Takes(s, es[i]) && (es[i].key in s.epoch || es[i].key in s.instant)
  {
    assert TakenAt(s, es, i);
  }

  /** No run changes the guardian's key or the chain's, nor, in the epoch store, a setting that was removed. */
  lemma FixedKept(s: Stores, es: seq<Entry>)
    requires Batched(s, es).Some?
    ensures var t := Batched(s, es).value;
            forall key | key in {"guardian_btc_public_key", "bitcoin_chain_id"} ::
              Get(t.epoch, key) == Get(s.epoch, key) && Get(t.instant, key) == Get(s.instant, key)
    ensures var t := Batched(s, es).value;
            forall key | key in {"mpc_threshold_in_basis_points", "mpc_nonce_generation_protocol"} && key in s.epoch ::
              key in t.epoch && t.epoch[key] == s.epoch[key]
  {
    hide Batched;
    forall key | key in {"guardian_btc_public_key", "bitcoin_chain_id"}
      ensures Get(Batched(s, es).value.epoch, key) == Get(s.epoch, key)
      ensures Get(Batched(s, es).value.instant, key) == Get(s.instant, key)
    {
      Untaken(s, es, key);
    }
    forall key | key in {"mpc_threshold_in_basis_points", "mpc_nonce_generation_protocol"} && key in s.epoch
      ensures Get(Batched(s, es).value.epoch, key) == Get(s.epoch, key)
    {
      Untaken(s, es, key);
    }
  }

  lemma Untaken(s: Stores, es: seq<Entry>, key: string)
    requires Batched(s, es).Some? && forall e :: Takes(s, e) ==> e.key != key
    ensures Get(Batched(s, es).value.epoch, key) == Get(s.epoch, key)
    ensures Get(Batched(s, es).value.instant, key) == Get(s.instant, key)
  {
    hide Batched, Fold, Last, LastFor, WritesEpoch, PairHolds, Takes, AllTaken;
    RunRule(s, es);
    RunWrites(s, es, key);
    LastExact(es, key);
    if Last(es, key).Some? {
      var i :| 0 <= i < |es| && LastFor(es, i) && es[i] == Entry(key, Last(es, key).value);
      LastTaken(s, es, i);
    }
  }
}
