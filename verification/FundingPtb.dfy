/** Funding addresses with one programmable transaction: its construction, and what executing it does. */
module FundingPtb {
  import opened Text

  type Address = string
  type Amount = n: nat | n <= 0xFFFF_FFFF_FFFF_FFFF

  const MAX_REQUESTS := 32_768

  datatype Pure = AddressBytes(address: Address) | AmountBytes(amount: Amount)

  datatype Argument = Gas | Input(index: nat) | NestedResult(command: nat, result: nat)

  datatype Command =
    | SplitCoins(coin: Argument, amounts: seq<Argument>)
    | TransferObjects(objects: seq<Argument>, address: Argument)

  datatype Program = Program(inputs: seq<Pure>, commands: seq<Command>)

  datatype Request = Request(address: Address, amount: Amount)

  // ---- The construction ----

  function U16(n: nat): nat {
    n % 0x1_0000
  }

  function Addresses(requests: seq<Request>): seq<Pure> {
    seq(|requests|, i requires 0 <= i < |requests| => AddressBytes(requests[i].address))
  }

  function Amounts(requests: seq<Request>): seq<Pure> {
    seq(|requests|, i requires 0 <= i < |requests| => AmountBytes(requests[i].amount))
  }

  function Transfers(n: nat): seq<Command> {
    seq(n, (i: nat) => TransferObjects([NestedResult(0, U16(i))], Input(U16(i))))
  }

  /** The amounts follow the addresses, so their indices are shifted by as many. */
  function Arguments(n: nat, addresses: nat): seq<Argument> {
    seq(n, (i: nat) => Input(U16(i + addresses)))
  }

  function Build(requests: seq<Request>): Program {
    var n, addresses := |requests|, Addresses(requests);
    Program(addresses + Amounts(requests), [SplitCoins(Gas, Arguments(n, |addresses|))] + Transfers(n))
  }

  /** The one-recipient program of the faucet. */
  function Faucet(recipient: Address, amount: Amount): Program {
    Program([AddressBytes(recipient), AmountBytes(amount)],
            [SplitCoins(Gas, [Input(1)]), TransferObjects([NestedResult(0, 0)], Input(0))])
  }

  // ---- The two commands' meaning ----

  /** The gas coin, each command's result coins (`None` once moved), and what was delivered, in order. */
  datatype Machine = Machine(gas: nat, results: seq<seq<Option<nat>>>, delivered: seq<(Address, nat)>)

  function ReadAmount(inputs: seq<Pure>, a: Argument): Option<nat> {
    if a.Input? && a.index < |inputs| && inputs[a.index].AmountBytes? then Some(inputs[a.index].amount) else None
  }

  function ReadAddress(inputs: seq<Pure>, a: Argument): Option<Address> {
    if a.Input? && a.index < |inputs| && inputs[a.index].AddressBytes? then Some(inputs[a.index].address) else None
  }

  /** Coins split off one by one; any bad argument or a short balance fails the whole. */
  function Split(inputs: seq<Pure>, gas: nat, amounts: seq<Argument>): Option<(nat, seq<Option<nat>>)> {
    if amounts == [] then Some((gas, []))
    else
      match ReadAmount(inputs, amounts[0])
      case None => None
      case Some(v) =>
        if v > gas then None
        else
          match Split(inputs, gas - v, amounts[1..])
          case None => None
          case Some((left, coins)) => Some((left, [Some(v)] + coins))
  }

  function MoveAll(m: Machine, objects: seq<Argument>, to: Address): Option<Machine>
    decreases |objects|
  {
    if objects == [] then Some(m)
    else
      var o := objects[0];
      if !o.NestedResult? || o.command >= |m.results| || o.result >= |m.results[o.command]|
         || m.results[o.command][o.result].None? then None
      else
        var value := m.results[o.command][o.result].value;
        var moved := m.results[o.command := m.results[o.command][o.result := None]];
        MoveAll(m.(results := moved, delivered := m.delivered + [(to, value)]), objects[1..], to)
  }

  function Step(inputs: seq<Pure>, m: Machine, c: Command): Option<Machine> {
    match c
    case SplitCoins(coin, amounts) =>
      if coin != Gas then None
      else
        match Split(inputs, m.gas, amounts) {
          case None => None
          case Some((left, coins)) => Some(m.(gas := left, results := m.results + [coins]))
        }
    case TransferObjects(objects, address) =>
      match ReadAddress(inputs, address)
      case None => None
      case Some(to) =>
        match MoveAll(m, objects, to)
        case None => None
        case Some(m') => Some(m'.(results := m'.results + [[]]))
  }

  function Run(inputs: seq<Pure>, m: Machine, commands: seq<Command>): Option<Machine>
    decreases |commands|
  {
    if commands == [] then Some(m)
    else
      match Step(inputs, m, commands[0])
      case None => None
      case Some(m') => Run(inputs, m', commands[1..])
  }

  /** No coin may be left behind. */
  predicate AllMoved(m: Machine) {
    forall c, r :: 0 <= c < |m.results| && 0 <= r < |m.results[c]| ==> m.results[c][r].None?
  }

  function Execute(p: Program, gas: nat): Option<Machine> {
    match Run(p.inputs, Machine(gas, [], []), p.commands)
    case None => None
    case Some(m) => if AllMoved(m) then Some(m) else None
  }

  // ---- The program does what was asked ----

  function Total(requests: seq<Request>): nat {
    if requests == [] then 0 else requests[0].amount + Total(requests[1..])
  }

  function Deliveries(requests: seq<Request>): seq<(Address, nat)> {
    seq(|requests|, i requires 0 <= i < |requests| => (requests[i].address, requests[i].amount as nat))
  }

  /** What one address received. */
  function Received(delivered: seq<(Address, nat)>, a: Address): nat {
    if delivered == [] then 0
    else (if delivered[0].0 == a then delivered[0].1 else 0) + Received(delivered[1..], a)
  }

  /** What one address was to receive. */
  function Requested(requests: seq<Request>, a: Address): nat {
    if requests == [] then 0
    else (if requests[0].address == a then requests[0].amount else 0) + Requested(requests[1..], a)
  }

  lemma {:induction false} ReceivesSum(requests: seq<Request>, a: Address)
    ensures Received(Deliveries(requests), a) == Requested(requests, a)
  {
    if requests != [] {
      ReceivesSum(requests[1..], a);
      assert Deliveries(requests)[1..] == Deliveries(requests[1..]);
    }
  }

  lemma {:induction false} AmountAt(requests: seq<Request>, i: nat)
    requires |requests| <= MAX_REQUESTS && i < |requests|
    ensures ReadAmount(Build(requests).inputs, Arguments(|requests|, |requests|)[i]) == Some(requests[i].amount)
  {
    assert U16(i + |requests|) == i + |requests|;
  }

  /** The coins still to be handed over after `k` transfers. */
  function Slots(requests: seq<Request>, k: nat): seq<Option<nat>> {
    seq(|requests|, i requires 0 <= i < |requests| => if i < k then None else Some(requests[i].amount as nat))
  }

  lemma {:induction false} SplitsAmounts(requests: seq<Request>, k: nat, gas: nat)
    requires |requests| <= MAX_REQUESTS && k <= |requests|
    ensures Split(Build(requests).inputs, gas, Arguments(|requests|, |requests|)[k..]) ==
            if Total(requests[k..]) > gas then None
            else Some((gas - Total(requests[k..]), Slots(requests, 0)[k..]))
    decreases |requests| - k
  {
    var arguments, slots := Arguments(|requests|, |requests|), Slots(requests, 0);
    if k < |requests| {
      AmountAt(requests, k);
      hide Build, ReadAmount;
      var v: nat := requests[k].amount;
      assert requests[k..][1..] == requests[k + 1..] && arguments[k..][1..] == arguments[k + 1..];
      if v <= gas {
        SplitsAmounts(requests, k + 1, gas - v);
        assert slots[k..] == [Some(v)] + slots[k + 1..];
      }
    }
  }

  /** The machine after the split and `k` transfers. */
  function After(requests: seq<Request>, gas: nat, k: nat): Machine
    requires Total(requests) <= gas && k <= |requests|
  {
    Machine(gas - Total(requests), [Slots(requests, k)] + seq(k, (_: nat) => []), Deliveries(requests[..k]))
  }

  lemma {:induction false} TransferMoves(requests: seq<Request>, gas: nat, k: nat)
    requires |requests| <= MAX_REQUESTS && Total(requests) <= gas && k < |requests|
    ensures Step(Build(requests).inputs, After(requests, gas, k), Build(requests).commands[k + 1])
            == Some(After(requests, gas, k + 1))
  {
    var m, to := After(requests, gas, k), requests[k].address;
    var inputs, command := Build(requests).inputs, Build(requests).commands[k + 1];
    assert U16(k) == k;
    assert command == TransferObjects([NestedResult(0, k)], Input(k)) && ReadAddress(inputs, Input(k)) == Some(to);
    hide Build;
    var moved := MoveAll(m, [NestedResult(0, k)], to);
    Moves(m, k, to, requests[k].amount);
    assert Slots(requests, k)[k := None] == Slots(requests, k + 1);
    assert Deliveries(requests[..k]) + [(to, requests[k].amount as nat)] == Deliveries(requests[..k + 1]);
    assert moved.value.results + [[]] == After(requests, gas, k + 1).results;
  }

  lemma Moves(m: Machine, k: nat, to: Address, value: nat)
    requires |m.results| > 0 && k < |m.results[0]| && m.results[0][k] == Some(value)
    ensures MoveAll(m, [NestedResult(0, k)], to) ==
            Some(m.(results := m.results[0 := m.results[0][k := None]], delivered := m.delivered + [(to, value)]))
  {
  }

  lemma {:induction false} RunTransfers(requests: seq<Request>, gas: nat, k: nat)
    requires |requests| <= MAX_REQUESTS && Total(requests) <= gas && k <= |requests|
    ensures Run(Build(requests).inputs, After(requests, gas, k), Build(requests).commands[k + 1..])
            == Some(After(requests, gas, |requests|))
    decreases |requests| - k
  {
    if k < |requests| {
      TransferMoves(requests, gas, k);
      RunTransfers(requests, gas, k + 1);
      assert Build(requests).commands[k + 1..][1..] == Build(requests).commands[k + 2..];
      assert Build(requests).commands[k + 1..][0] == Build(requests).commands[k + 1];
    }
  }

  /** Within the index width: executes exactly when the gas coin suffices, and then delivers what was asked. */
  lemma {:induction false} FundsAll(requests: seq<Request>, gas: nat)
    requires |requests| <= MAX_REQUESTS
    ensures Total(requests) > gas ==> Execute(Build(requests), gas) == None
    ensures Total(requests) <= gas ==> Execute(Build(requests), gas) == Some(After(requests, gas, |requests|))
  {
    var p, m := Build(requests), Machine(gas, [], []);
    SplitStep(requests, gas);
    if Total(requests) <= gas {
      RunTransfers(requests, gas, 0);
      RunStep(p.inputs, m, p.commands);
      Emptied(requests, gas);
      hide Build, Run, Step, After;
    }
  }

  lemma RunStep(inputs: seq<Pure>, m: Machine, commands: seq<Command>)
    requires commands != [] && Step(inputs, m, commands[0]).Some?
    ensures Run(inputs, m, commands) == Run(inputs, Step(inputs, m, commands[0]).value, commands[1..])
  {
    hide Step;
  }

  lemma {:induction false} SplitStep(requests: seq<Request>, gas: nat)
    requires |requests| <= MAX_REQUESTS
    ensures Build(requests).commands != []
    ensures Step(Build(requests).inputs, Machine(gas, [], []), Build(requests).commands[0]) ==
            if Total(requests) > gas then None else Some(After(requests, gas, 0))
  {
    var n := |requests|;
    SplitsAmounts(requests, 0, gas);
    assert requests[0..] == requests && Arguments(n, n)[0..] == Arguments(n, n);
    assert Slots(requests, 0)[0..] == Slots(requests, 0);
    assert Build(requests).commands[0] == SplitCoins(Gas, Arguments(n, n));
    if Total(requests) <= gas {
      assert [] + [Slots(requests, 0)] == After(requests, gas, 0).results;
      assert After(requests, gas, 0).delivered == [];
    }
  }

  lemma {:induction false} Emptied(requests: seq<Request>, gas: nat)
    requires Total(requests) <= gas
    ensures AllMoved(After(requests, gas, |requests|))
  {
  }

  /** An argument that reads an address where an amount is needed fails the split. */
  lemma {:induction false} BadArgument(inputs: seq<Pure>, gas: nat, amounts: seq<Argument>, k: nat)
    requires k < |amounts| && ReadAmount(inputs, amounts[k]) == None
    ensures Split(inputs, gas, amounts) == None
  {
    if k > 0 {
      match ReadAmount(inputs, amounts[0]) {
        case None =>
        case Some(v) =>
          if v <= gas {
            BadArgument(inputs, gas - v, amounts[1..], k - 1);
          }
      }
    }
  }

  /** Beyond it an amount's index wraps onto the first address, and nothing is executed. */
  lemma {:induction false} WrapsBeyond(requests: seq<Request>, gas: nat)
    requires |requests| > MAX_REQUESTS
    ensures Execute(Build(requests), gas) == None
  {
    var p, n := Build(requests), |requests|;
    var k := (0x1_0000 - n % 0x1_0000) % 0x1_0000;
    assert k < n && (k + n) % 0x1_0000 == 0;
    assert Arguments(n, n)[k] == Input(0) && p.inputs[0].AddressBytes?;
    BadArgument(p.inputs, gas, Arguments(n, n), k);
    assert p.commands[0] == SplitCoins(Gas, Arguments(n, n));
  }

  /**
   The program executes exactly for at most 32768 requests covered by the gas coin. Then every
   address has received the sum of its requests, exactly the total has left the gas coin, and no
   split coin is left behind.
   */
  lemma {:induction false} FundExact(requests: seq<Request>, gas: nat)
    ensures Execute(Build(requests), gas).Some? <==> |requests| <= MAX_REQUESTS && Total(requests) <= gas
    ensures Execute(Build(requests), gas).Some? ==>
              var m := Execute(Build(requests), gas).value;
              && m.gas + Total(requests) == gas && AllMoved(m)
              && forall a :: Received(m.delivered, a) == Requested(requests, a)
  {
    if |requests| <= MAX_REQUESTS {
      FundsAll(requests, gas);
      assert requests[..|requests|] == requests;
      forall a ensures Received(Deliveries(requests), a) == Requested(requests, a) {
        ReceivesSum(requests, a);
      }
    } else {
      WrapsBeyond(requests, gas);
    }
  }

  /** The faucet's program is this construction for one request. */
  lemma FaucetIsOneRequest(recipient: Address, amount: Amount)
    ensures Faucet(recipient, amount) == Build([Request(recipient, amount)])
  {
    var p := Build([Request(recipient, amount)]);
    assert p.inputs == Faucet(recipient, amount).inputs;
    assert Arguments(1, 1) == [Input(1)] && Transfers(1) == [TransferObjects([NestedResult(0, 0)], Input(0))];
  }
}
