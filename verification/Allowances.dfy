/**
 Multicalls run from the account on Push Chain: the calls of an execute, and the approvals and
 outbound call of one destination; then the token allowances when such lists are run in a row.
 */
module Allowances {
  import opened Wrappers
  import opened Strings

  type Address = string

  const ZERO_ADDRESS: Address := "0x0000000000000000000000000000000000000000"

  datatype Request = Request(
    recipient: Address, token: Address, amount: int, gasLimit: int, gasPrice: int, maxPCForGas: int,
    payload: string, revertRecipient: Address)

  /** Encoded call data, by the function it calls; other data is just its hex string. */
  datatype Data =
    | Approve(spender: Address, amount: int)
    | Transfer(recipient: Address, amount: int)
    | SendOutbound(request: Request)
    | Hex(hex: string)

  datatype MultiCall = MultiCall(to: Address, value: int, data: Data)

  function NativeValue(calls: seq<MultiCall>): int {
    if calls == [] then 0 else NativeValue(calls[..|calls| - 1]) + calls[|calls| - 1].value
  }

  lemma NativeValueSnoc(calls: seq<MultiCall>, call: MultiCall)
    ensures NativeValue(calls + [call]) == NativeValue(calls) + call.value
  {
    assert (calls + [call])[..|calls|] == calls;
  }

  // ---------------------------------------------------------------- buildExecuteMulticall

  datatype Token = Token(native: bool, prc20: Option<Address>)

  datatype Funds = Funds(amount: int, token: Option<Token>)

  datatype Payload = Absent | Bytes(hex: string) | Calls(calls: seq<MultiCall>)

  datatype Execute = Execute(to: Address, value: Option<int>, data: Payload, funds: Option<Funds>)

  datatype Error = NoToken | NoPrc20Address | InvalidTarget

  predicate HasExecutablePayloadData(data: Payload) {
    !(data == Absent || data == Bytes("0x") || data == Calls([]))
  }

  /** A value that is present and not zero. */
  function Value(execute: Execute): int {
    if execute.value.Some? then execute.value.value else 0
  }

  predicate HasFunds(execute: Execute) {
    execute.funds.Some? && execute.funds.value.amount != 0
  }

  predicate IsCallArray(data: Payload) {
    data.Calls? && data.calls != []
  }

  /** A bare value sent by the account to itself, which stays where it is. */
  predicate Parked(execute: Execute, uea: Address, allowSelfValueCall: bool) {
    !HasExecutablePayloadData(execute.data) && Lower(execute.to) == Lower(uea) && !allowSelfValueCall
  }

  /** The token transfer owed for the funds of an execute, if any. */
  predicate OwesTransfer(execute: Execute) {
    HasFunds(execute) && execute.funds.value.token.Some? && !execute.funds.value.token.value.native &&
    !IsCallArray(execute.data)
  }

  /** The conditions of the contract below, written out in the fields of an execute. */
  lemma ConditionsWrittenOut(execute: Execute, uea: Address, allowSelfValueCall: bool)
    ensures HasFunds(execute) <==> execute.funds.Some? && execute.funds.value.amount != 0
    ensures IsCallArray(execute.data) <==> exists calls :: calls != [] && execute.data == Calls(calls)
    ensures HasExecutablePayloadData(execute.data) <==>
            IsCallArray(execute.data) || exists hex :: hex != "0x" && execute.data == Bytes(hex)
    ensures OwesTransfer(execute) <==>
            HasFunds(execute) && !IsCallArray(execute.data) &&
            exists prc20 :: execute.funds.value.token == Some(Token(false, prc20))
    ensures Parked(execute, uea, allowSelfValueCall) <==>
            !HasExecutablePayloadData(execute.data) && !allowSelfValueCall && Lower(execute.to) == Lower(uea)
    ensures Value(execute) == 0 <==> execute.value.None? || execute.value == Some(0)
    ensures Value(execute) != 0 ==> execute.value == Some(Value(execute))
  {
    if execute.data.Calls? {
      assert execute.data == Calls(execute.data.calls);
    }
    if execute.data.Bytes? {
      assert execute.data == Bytes(execute.data.hex);
    }
    if OwesTransfer(execute) {
      var token := execute.funds.value.token.value;
      assert execute.funds.value.token == Some(Token(false, token.prc20));
    }
  }

  /** The value transfer, the token transfer, and the data, as far as there are any. */
  function ExecuteCalls(execute: Execute, uea: Address, allowSelfValueCall: bool, isAddress: Address -> bool)
    : Outcome<seq<MultiCall>, Error>
  {
    if HasFunds(execute) && execute.funds.value.token.None? then Err(NoToken)
    else if OwesTransfer(execute) && execute.funds.value.token.value.prc20.None? then Err(NoPrc20Address)
    else if IsCallArray(execute.data) then
      if isAddress(execute.to) then Ok(execute.data.calls) else Err(InvalidTarget)
    else Ok(ValueCalls(execute, uea, allowSelfValueCall) + TransferCalls(execute) + DataCalls(execute))
  }

  function ValueCalls(execute: Execute, uea: Address, allowSelfValueCall: bool): seq<MultiCall> {
    if HasExecutablePayloadData(execute.data) || Value(execute) == 0 || Parked(execute, uea, allowSelfValueCall) then []
    else [MultiCall(execute.to, Value(execute), Hex("0x"))]
  }

  function TransferCalls(execute: Execute): seq<MultiCall>
    requires OwesTransfer(execute) ==> execute.funds.value.token.value.prc20.Some?
  {
    if !OwesTransfer(execute) then []
    else [MultiCall(execute.funds.value.token.value.prc20.value, 0, Transfer(execute.to, execute.funds.value.amount))]
  }

  function DataCalls(execute: Execute): seq<MultiCall>
    requires !IsCallArray(execute.data)
  {
    if !HasExecutablePayloadData(execute.data) then []
    else [MultiCall(execute.to, Value(execute), Hex(execute.data.hex))]
  }

  /** Without an array of calls, what is sent is the value, unless the account would send it to itself. */
  lemma SentValue(execute: Execute, uea: Address, allowSelfValueCall: bool, isAddress: Address -> bool)
    ensures
      var r := ExecuteCalls(execute, uea, allowSelfValueCall, isAddress);
      r.Ok? && !IsCallArray(execute.data) ==>
        NativeValue(r.value) == if Parked(execute, uea, allowSelfValueCall) then 0 else Value(execute)
  {
    var r := ExecuteCalls(execute, uea, allowSelfValueCall, isAddress);
    if r.Ok? && !IsCallArray(execute.data) {
      var value, transfer := ValueCalls(execute, uea, allowSelfValueCall), TransferCalls(execute);
      AppendValue([], value);
      AppendValue(value, transfer);
      AppendValue(value + transfer, DataCalls(execute));
      assert [] + value == value;
    }
  }

  lemma AppendValue(calls: seq<MultiCall>, more: seq<MultiCall>)
    requires |more| <= 1
    ensures NativeValue(calls + more) == NativeValue(calls) + if more == [] then 0 else more[0].value
  {
    if more == [] {
      assert calls + more == calls;
    } else {
      assert more == [more[0]];
      NativeValueSnoc(calls, more[0]);
    }
  }

  lemma ErrorCases(execute: Execute, uea: Address, allowSelfValueCall: bool, isAddress: Address -> bool)
    ensures
      var r := ExecuteCalls(execute, uea, allowSelfValueCall, isAddress);
      && (r == Err(NoToken) <==> HasFunds(execute) && execute.funds.value.token.None?)
      && (r == Err(NoPrc20Address) <==> OwesTransfer(execute) && execute.funds.value.token.value.prc20.None?)
      && (r == Err(InvalidTarget) <==>
            IsCallArray(execute.data) && !isAddress(execute.to) && !(HasFunds(execute) && execute.funds.value.token.None?))
      && (r.Ok? && IsCallArray(execute.data) ==> isAddress(execute.to) && r.value == execute.data.calls)
      && (r.Ok? && OwesTransfer(execute) ==> execute.funds.value.token.value.prc20.Some?)
  {
  }

  lemma CallOrder(execute: Execute, uea: Address, allowSelfValueCall: bool, isAddress: Address -> bool)
    ensures
      var r := ExecuteCalls(execute, uea, allowSelfValueCall, isAddress);
      r.Ok? && !IsCallArray(execute.data) ==>
        && (OwesTransfer(execute) ==> execute.funds.value.token.value.prc20.Some?)
        && r.value == ValueCalls(execute, uea, allowSelfValueCall) + TransferCalls(execute) + DataCalls(execute)
  {
  }

  /** Those parts, written out: at most one call each. */
  lemma PartsWrittenOut(execute: Execute, uea: Address, allowSelfValueCall: bool, prc20: Address, hex: string)
    requires !IsCallArray(execute.data) && (OwesTransfer(execute) ==> execute.funds.value.token.value.prc20 == Some(prc20))
    ensures TransferCalls(execute) ==
            if OwesTransfer(execute) then [MultiCall(prc20, 0, Transfer(execute.to, execute.funds.value.amount))] else []
    ensures hex != "0x" && execute.data == Bytes(hex) ==>
              && DataCalls(execute) == [MultiCall(execute.to, Value(execute), Hex(hex))]
              && ValueCalls(execute, uea, allowSelfValueCall) == []
    ensures execute.data == Absent || execute.data == Bytes("0x") || execute.data == Calls([]) ==>
              && DataCalls(execute) == []
              && ValueCalls(execute, uea, allowSelfValueCall) ==
                 if Value(execute) != 0 && (allowSelfValueCall || Lower(execute.to) != Lower(uea))
                 then [MultiCall(execute.to, Value(execute), Hex("0x"))] else []
  {
  }

  method BuildExecuteMulticall(execute: Execute, uea: Address, allowSelfValueCall: bool, isAddress: Address -> bool)
    returns (r: Outcome<seq<MultiCall>, Error>)
    ensures r == Err(NoToken) <==> HasFunds(execute) && execute.funds.value.token.None?
    ensures r == Err(NoPrc20Address) <==>
            OwesTransfer(execute) && execute.funds.value.token.value.prc20.None?
    ensures r == Err(InvalidTarget) <==>
            IsCallArray(execute.data) && !isAddress(execute.to) && !(HasFunds(execute) && execute.funds.value.token.None?)
    ensures r.Ok? && IsCallArray(execute.data) ==> isAddress(execute.to) && r.value == execute.data.calls
    // Without an array of calls, what is sent is the value, unless the account would send it to itself.
    ensures r.Ok? && !IsCallArray(execute.data) ==>
              NativeValue(r.value) == if Parked(execute, uea, allowSelfValueCall) then 0 else Value(execute)
    // A bare value first, then the funds, once, then the data that uses them.
    ensures r.Ok? && !IsCallArray(execute.data) ==>
              r.value == ValueCalls(execute, uea, allowSelfValueCall) + TransferCalls(execute) + DataCalls(execute)
  {
    SentValue(execute, uea, allowSelfValueCall, isAddress);
    ErrorCases(execute, uea, allowSelfValueCall, isAddress);
    CallOrder(execute, uea, allowSelfValueCall, isAddress);
    r := BuildCalls(execute, uea, allowSelfValueCall, isAddress);
  }

  /** The pushes. */
  method BuildCalls(execute: Execute, uea: Address, allowSelfValueCall: bool, isAddress: Address -> bool)
    returns (r: Outcome<seq<MultiCall>, Error>)
    ensures r == ExecuteCalls(execute, uea, allowSelfValueCall, isAddress)
  {
    var hasData := HasExecutablePayloadData(execute.data);
    var multicallData: seq<MultiCall> := [];
    if !hasData && Value(execute) != 0 {
      var isValueToSelf := Lower(execute.to) == Lower(uea);
      if !isValueToSelf || allowSelfValueCall {
        multicallData := multicallData + [MultiCall(execute.to, Value(execute), Hex("0x"))];
      }
    }
    if HasFunds(execute) {
      var funds := execute.funds.value;
      if funds.token.None? {
        return Err(NoToken);
      }
      if !funds.token.value.native && !IsCallArray(execute.data) {
        if funds.token.value.prc20.None? {
          return Err(NoPrc20Address);
        }
        multicallData := multicallData + [MultiCall(funds.token.value.prc20.value, 0, Transfer(execute.to, funds.amount))];
      }
    }
    if hasData {
      match execute.data
      case Calls(calls) =>
        if !isAddress(execute.to) {
          return Err(InvalidTarget);
        }
        multicallData := multicallData + calls;
      case Bytes(hex) =>
        multicallData := multicallData + [MultiCall(execute.to, Value(execute), Hex(hex))];
    }
    assert multicallData ==
           if IsCallArray(execute.data) then execute.data.calls
           else ValueCalls(execute, uea, allowSelfValueCall) + TransferCalls(execute) + DataCalls(execute);
    return Ok(multicallData);
  }

  // ---------------------------------------------------------------- buildOutboundApprovalAndCall

  datatype Outbound = Outbound(
    prc20Token: Address, burnAmount: int, gasFee: int, nativeValueForGas: Option<int>, gateway: Address,
    request: Request)

  predicate Burns(o: Outbound) {
    o.burnAmount > 0 && Lower(o.prc20Token) != Lower(ZERO_ADDRESS)
  }

  function OutboundCall(o: Outbound): MultiCall {
    MultiCall(o.gateway, if o.nativeValueForGas.Some? then o.nativeValueForGas.value else o.gasFee * 5,
              SendOutbound(o.request))
  }

  function OutboundCalls(o: Outbound): (calls: seq<MultiCall>)
    ensures 0 < |calls| <= 3 && calls[|calls| - 1] == OutboundCall(o)
  {
    (if Burns(o) then
       [MultiCall(o.prc20Token, 0, Approve(o.gateway, 0)), MultiCall(o.prc20Token, 0, Approve(o.gateway, o.burnAmount))]
     else []) + [OutboundCall(o)]
  }

  // ---------------------------------------------------------------- running the calls

  /** What the account allows a spender to take of a token; addresses are compared without case. */
  type State = map<(string, string), int>

  function Allowance(s: State, token: Address, spender: Address): int {
    var key := (Lower(token), Lower(spender));
    if key in s then s[key] else 0
  }

  /** What the i-th call does to the allowances, when it is not an approval: anything at all. */
  type Effect = (nat, MultiCall, State) -> State

  /** Tokens that refuse to replace one non-zero allowance by another. */
  predicate Reverts(s: State, call: MultiCall) {
    call.data.Approve? && call.data.amount != 0 && Allowance(s, call.to, call.data.spender) != 0
  }

  function After(effect: Effect, i: nat, call: MultiCall, s: State): State {
    if call.data.Approve? then s[(Lower(call.to), Lower(call.data.spender)) := call.data.amount]
    else effect(i, call, s)
  }

  /** The allowances when `k` calls have been run. */
  function StateAt(effect: Effect, calls: seq<MultiCall>, start: State, k: nat): State
    requires k <= |calls|
  {
    if k == 0 then start else After(effect, k - 1, calls[k - 1], StateAt(effect, calls, start, k - 1))
  }

  /** Parts of a composed list: the calls of one outbound, or any other calls. */
  datatype Part = Leg(outbound: Outbound) | Other(calls: seq<MultiCall>)

  function CallsOf(part: Part): seq<MultiCall> {
    match part
    case Leg(o) => OutboundCalls(o)
    case Other(calls) => calls
  }

  function Compose(parts: seq<Part>): seq<MultiCall> {
    if parts == [] then [] else Compose(parts[..|parts| - 1]) + CallsOf(parts[|parts| - 1])
  }

  /** Where the calls of the j-th part start. */
  function Offset(parts: seq<Part>, j: nat): nat
    requires j <= |parts|
  {
    |Compose(parts[..j])|
  }

  lemma {:induction false} PartCalls(parts: seq<Part>, j: nat, i: nat)
    requires j < |parts| && i < |CallsOf(parts[j])|
    ensures Offset(parts, j) + i < |Compose(parts)|
    ensures Compose(parts)[Offset(parts, j) + i] == CallsOf(parts[j])[i]
    decreases |parts|
  {
    var front := parts[..|parts| - 1];
    if j < |front| {
      PartCalls(front, j, i);
      assert front[..j] == parts[..j];
    }
  }

  /** At a leg that starts at call `k`, from whatever allowances. */
  lemma LegIsSafe(effect: Effect, calls: seq<MultiCall>, start: State, k: nat, o: Outbound)
    requires k + |OutboundCalls(o)| <= |calls|
    requires forall i :: 0 <= i < |OutboundCalls(o)| ==> calls[k + i] == OutboundCalls(o)[i]
    ensures forall i :: k <= i < k + |OutboundCalls(o)| ==> !Reverts(StateAt(effect, calls, start, i), calls[i])
    ensures
      var last := k + |OutboundCalls(o)| - 1;
      Burns(o) ==> Allowance(StateAt(effect, calls, start, last), o.prc20Token, calls[last].to) == o.burnAmount
  {
    var legs := OutboundCalls(o);
    if Burns(o) {
      assert calls[k] == legs[0] && calls[k + 1] == legs[1] && calls[k + 2] == legs[2];
      assert Allowance(StateAt(effect, calls, start, k + 1), o.prc20Token, o.gateway) == 0;
    } else {
      assert calls[k] == legs[0];
    }
  }

  /**
   From any allowances, with other calls in between and with anything happening inside the calls
   that are not approvals: no approval of a leg is refused. Its last call sends its request and
   its native value to the gateway, and if the leg burns a token, whoever that call goes to has
   an allowance of exactly the burn.
   */
  lemma LegsAreSafe(effect: Effect, parts: seq<Part>, start: State, j: nat)
    requires j < |parts| && parts[j].Leg?
    ensures
      var calls, o, k := Compose(parts), parts[j].outbound, Offset(parts, j);
      && k + |OutboundCalls(o)| <= |calls|
      && (forall i :: k <= i < k + |OutboundCalls(o)| ==> !Reverts(StateAt(effect, calls, start, i), calls[i]))
      && var last := k + |OutboundCalls(o)| - 1;
         && calls[last].to == o.gateway && calls[last].data == SendOutbound(o.request)
         && calls[last].value == (if o.nativeValueForGas.Some? then o.nativeValueForGas.value else 5 * o.gasFee)
         && (o.burnAmount > 0 && Lower(o.prc20Token) != Lower(ZERO_ADDRESS) ==>
               Allowance(StateAt(effect, calls, start, last), o.prc20Token, calls[last].to) == o.burnAmount)
  {
    var calls, o, k := Compose(parts), parts[j].outbound, Offset(parts, j);
    forall i | 0 <= i < |OutboundCalls(o)| ensures k + i < |calls| && calls[k + i] == OutboundCalls(o)[i] {
      PartCalls(parts, j, i);
    }
    assert k + (|OutboundCalls(o)| - 1) < |calls|;
    LegIsSafe(effect, calls, start, k, o);
  }

  /** A composed list of legs alone never reverts on an approval. */
  lemma {:induction false} NoApproveReverts(effect: Effect, parts: seq<Part>, start: State, i: nat)
    requires forall j :: 0 <= j < |parts| ==> parts[j].Leg?
    requires i < |Compose(parts)|
    ensures !Reverts(StateAt(effect, Compose(parts), start, i), Compose(parts)[i])
  {
    var j := PartAt(parts, i);
    LegsAreSafe(effect, parts, start, j);
  }

  /** The part a call belongs to. */
  lemma {:induction false} PartAt(parts: seq<Part>, i: nat) returns (j: nat)
    requires i < |Compose(parts)|
    ensures j < |parts| && Offset(parts, j) <= i < Offset(parts, j) + |CallsOf(parts[j])|
  {
    var front := parts[..|parts| - 1];
    if i < |Compose(front)| {
      j := PartAt(front, i);
      assert front[..j] == parts[..j];
    } else {
      j := |front|;
    }
  }

  /** The outbound requests of a list of calls, in order. */
  function Requests(calls: seq<MultiCall>): seq<Request> {
    if calls == [] then []
    else Requests(calls[..|calls| - 1]) +
         (if calls[|calls| - 1].data.SendOutbound? then [calls[|calls| - 1].data.request] else [])
  }

  function LegRequests(parts: seq<Part>): seq<Request> {
    if parts == [] then []
    else LegRequests(parts[..|parts| - 1]) +
         (match parts[|parts| - 1] case Leg(o) => [o.request] case Other(calls) => Requests(calls))
  }

  lemma {:induction false} RequestsOfSum(a: seq<MultiCall>, b: seq<MultiCall>)
    ensures Requests(a + b) == Requests(a) + Requests(b)
  {
    if b == [] {
      assert a + b == a;
    } else {
      var front := b[..|b| - 1];
      RequestsOfSum(a, front);
      assert (a + b)[..|a + b| - 1] == a + front;
    }
  }

  lemma RequestsOfLeg(o: Outbound)
    ensures Requests(OutboundCalls(o)) == [o.request]
  {
    var calls := OutboundCalls(o);
    var approvals := calls[..|calls| - 1];
    assert calls == approvals + [OutboundCall(o)];
    assert Requests(approvals) == [] by {
      if Burns(o) {
        assert approvals[..1][..0] == [];
        assert Requests(approvals[..1]) == [];
      }
    }
  }

  /** Each leg sends its own request once, in the order of the legs. */
  lemma {:induction false} EachLegSendsOnce(parts: seq<Part>)
    ensures Requests(Compose(parts)) == LegRequests(parts)
  {
    if parts != [] {
      var front, last := parts[..|parts| - 1], parts[|parts| - 1];
      EachLegSendsOnce(front);
      RequestsOfSum(Compose(front), CallsOf(last));
      if last.Leg? {
        RequestsOfLeg(last.outbound);
      }
    }
  }

  // ---------------------------------------------------------------- the builder

  /**
   The calls of one outbound. Whatever the allowances are and whatever happens inside the
   outbound call, no approval is refused and that call, the last, finds an allowance of exactly
   what it burns; nothing is approved when nothing is burnt.
   */
  method BuildOutboundApprovalAndCall(o: Outbound) returns (multicalls: seq<MultiCall>)
    ensures multicalls == OutboundCalls(o)
    // The last call, and no other, sends the request, to the gateway, with all of the native value.
    ensures |multicalls| == if o.burnAmount > 0 && Lower(o.prc20Token) != Lower(ZERO_ADDRESS) then 3 else 1
    ensures multicalls[|multicalls| - 1].to == o.gateway && multicalls[|multicalls| - 1].data == SendOutbound(o.request)
    ensures Requests(multicalls) == [o.request]
    ensures NativeValue(multicalls) == multicalls[|multicalls| - 1].value ==
            if o.nativeValueForGas.Some? then o.nativeValueForGas.value else 5 * o.gasFee
    // The others approve whoever that call goes to, on the token that is burnt.
    ensures forall i :: 0 <= i < |multicalls| - 1 ==>
              && multicalls[i].data.Approve? && multicalls[i].data.spender == multicalls[|multicalls| - 1].to
              && multicalls[i].to == o.prc20Token
    ensures forall effect, start :: SafeAlone(effect, multicalls, start, o)
  {
    multicalls := [];
    if o.burnAmount > 0 && Lower(o.prc20Token) != Lower(ZERO_ADDRESS) {
      multicalls := multicalls + [MultiCall(o.prc20Token, 0, Approve(o.gateway, 0))];
      multicalls := multicalls + [MultiCall(o.prc20Token, 0, Approve(o.gateway, o.burnAmount))];
    }
    var nativeValue := if o.nativeValueForGas.Some? then o.nativeValueForGas.value else o.gasFee * 5;
    multicalls := multicalls + [MultiCall(o.gateway, nativeValue, SendOutbound(o.request))];
    RequestsOfLeg(o);
    NativeValueOfLeg(o);
    LegIsSafeAlone(o);
  }

  lemma LegIsSafeAlone(o: Outbound)
    ensures forall effect, start :: SafeAlone(effect, OutboundCalls(o), start, o)
  {
    forall effect, start ensures SafeAlone(effect, OutboundCalls(o), start, o) {
      LegIsSafe(effect, OutboundCalls(o), start, 0, o);
    }
  }

  /** No approval is refused, and the last call finds the allowance it burns. */
  predicate SafeAlone(effect: Effect, calls: seq<MultiCall>, start: State, o: Outbound) {
    && (forall i :: 0 <= i < |calls| ==> !Reverts(StateAt(effect, calls, start, i), calls[i]))
    && (o.burnAmount > 0 && Lower(o.prc20Token) != Lower(ZERO_ADDRESS) ==>
          && calls != []
          && Allowance(StateAt(effect, calls, start, |calls| - 1), o.prc20Token, calls[|calls| - 1].to) == o.burnAmount)
  }

  lemma NativeValueOfLeg(o: Outbound)
    ensures NativeValue(OutboundCalls(o)) == OutboundCall(o).value
  {
    var calls := OutboundCalls(o);
    var approvals := calls[..|calls| - 1];
    assert calls == approvals + [OutboundCall(o)];
    NativeValueSnoc(approvals, OutboundCall(o));
    if Burns(o) {
      assert approvals == [] + [calls[0]] + [calls[1]];
      NativeValueSnoc([] + [calls[0]], calls[1]);
      NativeValueSnoc([], calls[0]);
    }
  }
}
