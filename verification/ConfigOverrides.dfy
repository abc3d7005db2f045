/** On-chain configuration overrides: routing, the joint MPC proposal, and the order they are applied in. */
module ConfigOverrides {
  import opened Text

  datatype Value =
    | U64(number: nat) | U128(number: nat) | U256(number: nat)
    | Addr(text: string) | Text(text: string) | Flag(on: bool) | Bytes(text: string)

  datatype Entry = Entry(key: string, value: Value)

  type Store = map<string, Value>

  /** The store that takes effect at once, and the one copied onto each new committee. */
  datatype Stores = Stores(instant: Store, epoch: Store)

  const MAX_FAULTY := "mpc_max_faulty_in_basis_points"
  const DELTA := "mpc_weight_reduction_allowed_delta"
  const WINDOW := "mpc_nonce_accumulation_window_ms"
  const REMOVED_THRESHOLD := "mpc_threshold_in_basis_points"
  const REMOVED_PROTOCOL := "mpc_nonce_generation_protocol"
  const GUARDIAN_KEY := "guardian_btc_public_key"
  const CHAIN_ID := "bitcoin_chain_id"

  // ---- What the chain accepts ----

  predicate SameVariant(a: Value, b: Value) {
    match a
    case U64(_) => b.U64?
    case U128(_) => b.U128?
    case U256(_) => b.U256?
    case Addr(_) => b.Addr?
    case Text(_) => b.Text?
    case Flag(_) => b.Flag?
    case Bytes(_) => b.Bytes?
  }

  predicate IsGovernable(key: string) {
    key != GUARDIAN_KEY && key != CHAIN_ID
  }

  predicate IsValidValue(key: string, value: Value) {
    if key == REMOVED_THRESHOLD then false
    else if key == DELTA then value.U64? && value.number <= 10_000
    else if key == MAX_FAULTY then value.U64? && 0 < value.number <= 3_333
    else if key == REMOVED_PROTOCOL then false
    else if key == WINDOW then value.U64? && value.number <= 10_000
    else true
  }

  predicate IsInstantUpdate(store: Store, e: Entry) {
    IsGovernable(e.key) && e.key in store && SameVariant(store[e.key], e.value)
  }

  predicate IsEpochUpdate(store: Store, e: Entry) {
    IsInstantUpdate(store, e) && IsValidValue(e.key, e.value)
  }

  /** A `u64` entry or its default; `None` where reading it aborts. */
  function NumberOr(store: Store, key: string, default: nat): Option<nat> {
    if key !in store then Some(default)
    else if store[key].U64? then Some(store[key].number)
    else None
  }

  predicate Consistent(epoch: Store) {
    var delta, maxFaulty := NumberOr(epoch, DELTA, 800), NumberOr(epoch, MAX_FAULTY, 3_333);
    delta.Some? && maxFaulty.Some? && delta.value < maxFaulty.value
  }

  function UpsertAll(store: Store, entries: seq<Entry>): Store
    decreases |entries|
  {
    if entries == [] then store else UpsertAll(store[entries[0].key := entries[0].value], entries[1..])
  }

  /** An `UpdateEpochConfig` proposal: all of its entries or none. */
  function UpdateEpoch(s: Stores, entries: seq<Entry>): Option<Stores> {
    if entries == [] then None
    else if exists i :: 0 <= i < |entries| && !IsEpochUpdate(s.epoch, entries[i]) then None
    else
      var epoch := UpsertAll(s.epoch, entries);
      if Consistent(epoch) then Some(s.(epoch := epoch)) else None
  }

  /** An `UpdateConfig` proposal. */
  function UpdateInstant(s: Stores, entries: seq<Entry>): Option<Stores> {
    if entries == [] then None
    else if exists i :: 0 <= i < |entries| && !IsInstantUpdate(s.instant, entries[i]) then None
    else Some(s.(instant := UpsertAll(s.instant, entries)))
  }

  /** One override as a proposal of its own, sent to the store that holds its key. */
  function ApplyOne(s: Stores, epochKeys: set<string>, e: Entry): Option<Stores> {
    if e.key in epochKeys then UpdateEpoch(s, [e]) else UpdateInstant(s, [e])
  }

  /** One at a time, in order. */
  function ApplyAll(s: Stores, epochKeys: set<string>, entries: seq<Entry>): Option<Stores>
    decreases |entries|
  {
    if entries == [] then Some(s)
    else
      match ApplyOne(s, epochKeys, entries[0])
      case None => None
      case Some(s') => ApplyAll(s', epochKeys, entries[1..])
  }

  // ---- What the harness does ----

  predicate IsMpc(e: Entry) {
    (e.key == MAX_FAULTY || e.key == DELTA) && e.value.U64?
  }

  /** The last number given for an MPC key. */
  function LastNumber(overrides: seq<Entry>, key: string): Option<nat> {
    if overrides == [] then None
    else
      var e := overrides[|overrides| - 1];
      if e.key == key && e.value.U64? then Some(e.value.number) else LastNumber(overrides[..|overrides| - 1], key)
  }

  function Others(overrides: seq<Entry>): seq<Entry> {
    if overrides == [] then []
    else
      var n := |overrides| - 1;
      Others(overrides[..n]) + if IsMpc(overrides[n]) then [] else [overrides[n]]
  }

  function Numbered(key: string, number: Option<nat>): seq<Entry> {
    match number case None => [] case Some(n) => [Entry(key, U64(n))]
  }

  /** The joint proposal: present keys only, max-faulty first. */
  function MpcEntries(overrides: seq<Entry>): seq<Entry> {
    Numbered(MAX_FAULTY, LastNumber(overrides, MAX_FAULTY)) + Numbered(DELTA, LastNumber(overrides, DELTA))
  }

  function Batched(s: Stores, overrides: seq<Entry>): Option<Stores> {
    var mpc := MpcEntries(overrides);
    match if mpc == [] then Some(s) else UpdateEpoch(s, mpc)
    case None => None
    case Some(s') => ApplyAll(s', s.epoch.Keys, Others(overrides))
  }

  /** The harness: partition in a loop, then the joint proposal, then the rest one by one. */
  method ApplyOverrides(initial: Stores, overrides: seq<Entry>) returns (ok: bool, stores: Stores)
    ensures ok <==> Batched(initial, overrides).Some?
    ensures ok ==> stores == Batched(initial, overrides).value
  {
    hide UpdateEpoch, ApplyOne;
    var maxFaulty: Option<nat>, delta: Option<nat>, others: seq<Entry> := None, None, [];
    for i := 0 to |overrides|
      invariant maxFaulty == LastNumber(overrides[..i], MAX_FAULTY) && delta == LastNumber(overrides[..i], DELTA)
      invariant others == Others(overrides[..i])
    {
      var Entry(key, value) := overrides[i];
      assert overrides[..i + 1][..i] == overrides[..i];
      if key == MAX_FAULTY && value.U64? {
        maxFaulty := Some(value.number);
      } else if key == DELTA && value.U64? {
        delta := Some(value.number);
      } else {
        others := others + [overrides[i]];
      }
    }
    assert overrides[..|overrides|] == overrides;
    ok, stores := true, initial;
    var epochKeys := initial.epoch.Keys;
    if maxFaulty.Some? || delta.Some? {
      match UpdateEpoch(stores, Numbered(MAX_FAULTY, maxFaulty) + Numbered(DELTA, delta)) {
        case None => return false, stores;
        case Some(updated) => stores := updated;
      }
    }
    hide LastNumber, Others;
    ghost var first := stores;
    assert others[0..] == others;
    for i := 0 to |others|
      invariant ApplyAll(stores, epochKeys, others[i..]) == ApplyAll(first, epochKeys, others)
    {
      assert others[i..][1..] == others[i + 1..];
      match ApplyOne(stores, epochKeys, others[i]) {
        case None => return false, stores;
        case Some(updated) => stores := updated;
      }
    }
    assert others[|others|..] == [];
  }

  // ---- The meaning: the last value per key wins ----

  /** Left to right, each override written to the store that holds its key. */
  function Fold(s: Stores, epochKeys: set<string>, entries: seq<Entry>): Stores
    decreases |entries|
  {
    if entries == [] then s
    else
      var Entry(key, value) := entries[|entries| - 1];
      var before := Fold(s, epochKeys, entries[..|entries| - 1]);
      if key in epochKeys then before.(epoch := before.epoch[key := value])
      else before.(instant := before.instant[key := value])
  }

  function Last(entries: seq<Entry>, key: string): Option<Value> {
    if entries == [] then None
    else if entries[|entries| - 1].key == key then Some(entries[|entries| - 1].value)
    else Last(entries[..|entries| - 1], key)
  }

  function Get(store: Store, key: string): Option<Value> {
    if key in store then Some(store[key]) else None
  }

  function Or(a: Option<Value>, b: Option<Value>): Option<Value> {
    if a.Some? then a else b
  }

  lemma {:induction false} FoldAt(s: Stores, epochKeys: set<string>, entries: seq<Entry>, key: string)
    ensures Get(Fold(s, epochKeys, entries).epoch, key) ==
            if key in epochKeys then Or(Last(entries, key), Get(s.epoch, key)) else Get(s.epoch, key)
    ensures Get(Fold(s, epochKeys, entries).instant, key) ==
            if key in epochKeys then Get(s.instant, key) else Or(Last(entries, key), Get(s.instant, key))
  {
    if entries != [] {
      FoldAt(s, epochKeys, entries[..|entries| - 1], key);
    }
  }

  lemma SameStores(a: Stores, b: Stores)
    requires forall key :: Get(a.epoch, key) == Get(b.epoch, key) && Get(a.instant, key) == Get(b.instant, key)
    ensures a == b
  {
    assert forall key :: key in a.epoch <==> Get(a.epoch, key).Some?;
    assert forall key :: key in b.epoch <==> Get(b.epoch, key).Some?;
    assert forall key :: key in a.instant <==> Get(a.instant, key).Some?;
    assert forall key :: key in b.instant <==> Get(b.instant, key).Some?;
    assert a.epoch == b.epoch && a.instant == b.instant;
  }
}
