/**
 Classification of a receipt's decoded logs: the kind and identifiers of the whole receipt, and
 the list with one entry for each known log.
 */
module Classify {
  import opened Wrappers
  import opened Strings

  // ---------------------------------------------------------------- logs

  /** The names of the arguments the contracts emit, and any other name. */
  datatype Name =
    | SubTxId | UniversalTxId | Sender | Recipient | Token | Amount | Payload | RevertRecipient | TxType | FromCEA
    | PushAccount | Data | To | RevertInstruction | ChainNamespace | GasFee | GasLimit | ProtocolFee | RevertMsg
    | SignatureData | Target | GasToken | GasPrice | OtherName(name: string)

  /** A decoded argument. */
  datatype Arg =
    | Undefined
    | Str(s: string)
    | BigInt(n: int)
    | Num(n: int)
    | Bool(b: bool)
    | Arr(items: seq<Arg>)
    | Obj(fields: map<Name, Arg>)

  /** The names of the events, and any other name. */
  datatype EventName =
    | UniversalTxFinalized | UniversalTxReverted | UniversalTxOutbound | RevertUniversalTx
    | UniversalTx | UniversalTxExecuted | FundsRescued | OtherEvent(name: string)

  datatype MatchingLog = MatchingLog(eventName: EventName, address: string, logIndex: int, args: map<Name, Arg>)

  /** The language's own conversions: `BigInt` of a string, and `Number` of a bigint. */
  datatype Coercion = Coercion(bigIntOf: string -> Option<int>, number: int -> int)

  datatype Kind =
    | OutboundFinalized | OutboundReverted | OutboundInitiated | InboundReverted
    | InboundFromCea | InboundFromEoa | ExecutedOnDest | RescuedFunds | Unknown

  /** The identifiers found; a field that was never assigned is absent. */
  datatype Decoded = Decoded(
    nameonly subTxId: Option<string> := None,
    nameonly universalTxId: Option<string> := None,
    nameonly sender: Option<string> := None,
    nameonly recipient: Option<string> := None,
    nameonly pushAccount: Option<string> := None,
    nameonly token: Option<string> := None,
    nameonly amount: Option<int> := None,
    nameonly payloadPreview: Option<string> := None,
    nameonly payloadLength: Option<real> := None,
    nameonly txType: Option<int> := None,
    nameonly fromCEA: Option<bool> := None,
    nameonly destinationChainNamespace: Option<string> := None,
    nameonly gasFee: Option<int> := None,
    nameonly gasLimit: Option<int> := None,
    nameonly protocolFee: Option<int> := None,
    nameonly revertRecipient: Option<string> := None,
    nameonly revertMsgPreview: Option<string> := None)

  function Field(args: map<Name, Arg>, name: Name): Arg {
    if name in args then args[name] else Undefined
  }

  predicate Truthy(v: Arg) {
    match v
    case Undefined => false
    case Str(s) => s != ""
    case BigInt(n) => n != 0
    case Num(n) => n != 0
    case Bool(b) => b
    case Arr(_) => true
    case Obj(_) => true
  }

  function AsAddress(v: Arg): Option<string> {
    if v.Str? && StartsWith0x(v.s) then Some(v.s) else None
  }

  function AsBigint(c: Coercion, v: Arg): Option<int> {
    match v
    case BigInt(n) => Some(n)
    case Num(n) => Some(n)
    case Str(s) => c.bigIntOf(s)
    case _ => None
  }

  function AsTxType(c: Coercion, v: Arg): Option<int> {
    match v
    case Num(n) => Some(n)
    case BigInt(n) => Some(c.number(n))
    case _ => None
  }

  function AsString(v: Arg): Option<string> {
    if v.Str? then Some(v.s) else None
  }

  /** At most the first 32 bytes of a hex string. */
  function Preview(v: Arg): Option<string> {
    var hex := AsAddress(v);
    if hex.None? then None else Some(if |hex.value| <= 66 then hex.value else hex.value[..66])
  }

  /** The length in bytes of a hex string. */
  function ByteLength(v: Arg): Option<real> {
    var hex := AsAddress(v);
    if hex.None? then None else Some((|hex.value| - 2) as real / 2.0)
  }

  /** The recipient and the message of a revert instruction, by position or by name. */
  function RevertParts(v: Arg): (Arg, Arg) {
    match v
    case Arr(items) =>
      (if |items| > 0 then items[0] else Undefined, if |items| > 1 then items[1] else Undefined)
    case Obj(fields) => (Field(fields, RevertRecipient), Field(fields, RevertMsg))
    case _ => (Undefined, Undefined)
  }

  /** What the primary log itself says. */
  function FromPrimary(c: Coercion, primary: MatchingLog): Decoded {
    var a := primary.args;
    var subTxId := AsAddress(Field(a, SubTxId));
    var universalTxId := AsAddress(Field(a, UniversalTxId));
    var token := AsAddress(Field(a, Token));
    var amount := AsBigint(c, Field(a, Amount));
    var revert := RevertParts(Field(a, RevertInstruction));
    match primary.eventName
    case UniversalTx =>
      Decoded(
        subTxId := subTxId, universalTxId := universalTxId,
        sender := AsAddress(Field(a, Sender)), recipient := AsAddress(Field(a, Recipient)),
        token := token, amount := amount,
        payloadPreview := Preview(Field(a, Payload)), payloadLength := ByteLength(Field(a, Payload)),
        revertRecipient := AsAddress(Field(a, RevertRecipient)), txType := AsTxType(c, Field(a, TxType)),
        fromCEA := Some(Truthy(Field(a, FromCEA))))
    case UniversalTxExecuted =>
      Decoded(
        subTxId := subTxId, universalTxId := universalTxId,
        pushAccount := AsAddress(Field(a, PushAccount)), token := token, amount := amount,
        payloadPreview := Preview(Field(a, Data)), payloadLength := ByteLength(Field(a, Data)))
    case RevertUniversalTx =>
      Decoded(
        subTxId := subTxId, universalTxId := universalTxId,
        recipient := AsAddress(Field(a, To)), token := token, amount := amount,
        revertRecipient := AsAddress(revert.0), revertMsgPreview := Preview(revert.1))
    case FundsRescued =>
      Decoded(
        subTxId := subTxId, universalTxId := universalTxId, token := token, amount := amount,
        revertRecipient := AsAddress(revert.0), revertMsgPreview := Preview(revert.1))
    case UniversalTxFinalized =>
      Decoded(
        subTxId := subTxId, universalTxId := universalTxId,
        pushAccount := AsAddress(Field(a, PushAccount)), recipient := AsAddress(Field(a, Recipient)),
        token := token, amount := amount,
        payloadPreview := Preview(Field(a, Data)), payloadLength := ByteLength(Field(a, Data)))
    case UniversalTxReverted =>
      Decoded(
        subTxId := subTxId, universalTxId := universalTxId, token := token, amount := amount,
        revertRecipient := AsAddress(revert.0), revertMsgPreview := Preview(revert.1))
    case UniversalTxOutbound =>
      Decoded(
        subTxId := subTxId, universalTxId := universalTxId,
        sender := AsAddress(Field(a, Sender)), token := token, amount := amount,
        recipient := AsString(Field(a, Recipient)),
        payloadPreview := Preview(Field(a, Payload)), payloadLength := ByteLength(Field(a, Payload)),
        destinationChainNamespace := AsString(Field(a, ChainNamespace)),
        gasFee := AsBigint(c, Field(a, GasFee)), gasLimit := AsBigint(c, Field(a, GasLimit)),
        protocolFee := AsBigint(c, Field(a, ProtocolFee)),
        revertRecipient := AsAddress(Field(a, RevertRecipient)), txType := AsTxType(c, Field(a, TxType)))
    case OtherEvent(_) => Decoded(subTxId := subTxId, universalTxId := universalTxId)
  }

  /** A finalized outbound without an account takes that of the first execution in the receipt. */
  function BuildDecoded(c: Coercion, kind: Kind, primary: MatchingLog, allLogs: seq<MatchingLog>): Decoded {
    var out := FromPrimary(c, primary);
    if kind == OutboundFinalized && out.pushAccount.None? then
      var executed := Find(allLogs, UniversalTxExecuted);
      if executed < |allLogs| then out.(pushAccount := AsAddress(Field(allLogs[executed].args, PushAccount))) else out
    else out
  }

  /** The position of the first log of an event; the number of logs when there is none. */
  function Find(logs: seq<MatchingLog>, eventName: EventName): (i: nat)
    ensures i <= |logs|
    ensures i < |logs| ==> logs[i].eventName == eventName
    ensures forall j :: 0 <= j < i ==> logs[j].eventName != eventName
  {
    if logs == [] || logs[0].eventName == eventName then 0 else 1 + Find(logs[1..], eventName)
  }

  // ---------------------------------------------------------------- priorities

  const EVENTS: nat := 7

  /** The events, best first. */
  function EventAt(p: nat): EventName
    requires p < EVENTS
  {
    match p
    case 0 => UniversalTxFinalized
    case 1 => UniversalTxReverted
    case 2 => UniversalTxOutbound
    case 3 => RevertUniversalTx
    case 4 => UniversalTx
    case 5 => UniversalTxExecuted
    case _ => FundsRescued
  }

  /** The kind an event stands for. */
  function KindAt(p: nat, args: map<Name, Arg>): (k: Kind)
    requires p < EVENTS
    ensures k != Unknown
  {
    match p
    case 0 => OutboundFinalized
    case 1 => OutboundReverted
    case 2 => OutboundInitiated
    case 3 => InboundReverted
    case 4 => if Field(args, FromCEA) == Bool(true) then InboundFromCea else InboundFromEoa
    case 5 => ExecutedOnDest
    case _ => RescuedFunds
  }

  /** The priority of an event; all unknown events share the last one. */
  function Priority(eventName: EventName): (p: nat)
    ensures p <= EVENTS
    ensures p < EVENTS ==> EventAt(p) == eventName
    ensures forall q :: 0 <= q < EVENTS && EventAt(q) == eventName ==> p == q
  {
    match eventName
    case UniversalTxFinalized => 0
    case UniversalTxReverted => 1
    case UniversalTxOutbound => 2
    case RevertUniversalTx => 3
    case UniversalTx => 4
    case UniversalTxExecuted => 5
    case FundsRescued => 6
    case _ => EVENTS
  }

  predicate Known(log: MatchingLog) {
    Priority(log.eventName) < EVENTS
  }

  // ---------------------------------------------------------------- classifyAll

  datatype Entry = Entry(kind: Kind, decoded: Decoded, log: MatchingLog)

  function EntryOf(c: Coercion, log: MatchingLog, logs: seq<MatchingLog>): Entry
    requires Known(log)
  {
    var kind := KindAt(Priority(log.eventName), log.args);
    Entry(kind, BuildDecoded(c, kind, log, logs), log)
  }

  /** The entries of the first `n` logs. */
  function Entries(c: Coercion, logs: seq<MatchingLog>, n: nat): seq<Entry>
    requires n <= |logs|
  {
    if n == 0 then []
    else Entries(c, logs, n - 1) + (if Known(logs[n - 1]) then [EntryOf(c, logs[n - 1], logs)] else [])
  }

  method ClassifyAll(c: Coercion, logs: seq<MatchingLog>) returns (out: seq<Entry>)
    ensures out == Entries(c, logs, |logs|)
  {
    out := [];
    for i := 0 to |logs|
      invariant out == Entries(c, logs, i)
    {
      var p := Priority(logs[i].eventName);
      if p < EVENTS {
        var kind := KindAt(p, logs[i].args);
        out := out + [Entry(kind, BuildDecoded(c, kind, logs[i], logs), logs[i])];
      }
    }
  }

  /** The known logs, in order. */
  function KnownLogs(logs: seq<MatchingLog>): seq<MatchingLog> {
    if logs == [] then []
    else KnownLogs(logs[..|logs| - 1]) + if Known(logs[|logs| - 1]) then [logs[|logs| - 1]] else []
  }

  function LogsOf(entries: seq<Entry>): (r: seq<MatchingLog>)
    ensures |r| == |entries|
  {
    seq(|entries|, i requires 0 <= i < |entries| => entries[i].log)
  }

  /** The list keeps exactly the known logs, in their order. */
  lemma {:induction false} EntriesKeepTheKnown(c: Coercion, logs: seq<MatchingLog>, n: nat)
    requires n <= |logs|
    ensures LogsOf(Entries(c, logs, n)) == KnownLogs(logs[..n])
  {
    if n > 0 {
      EntriesKeepTheKnown(c, logs, n - 1);
      assert logs[..n][..n - 1] == logs[..n - 1];
    }
  }

  /** Where the entry of the i-th log is. */
  lemma {:induction false} EntryPosition(c: Coercion, logs: seq<MatchingLog>, i: nat, n: nat)
    requires i < n <= |logs| && Known(logs[i])
    ensures |Entries(c, logs, i)| < |Entries(c, logs, n)|
    ensures Entries(c, logs, n)[|Entries(c, logs, i)|] == EntryOf(c, logs[i], logs)
    decreases n
  {
    var before := Entries(c, logs, n - 1);
    if i < n - 1 {
      EntryPosition(c, logs, i, n - 1);
      assert before <= Entries(c, logs, n);
    } else {
      assert Entries(c, logs, n) == before + [EntryOf(c, logs[i], logs)];
    }
  }

  /** Every entry is that of some log, and entries before the i-th log's are of logs before it. */
  lemma {:induction false} EntrySource(c: Coercion, logs: seq<MatchingLog>, n: nat, k: nat) returns (i: nat)
    requires n <= |logs| && k < |Entries(c, logs, n)|
    ensures i < n && Known(logs[i]) && Entries(c, logs, n)[k] == EntryOf(c, logs[i], logs)
  {
    if k < |Entries(c, logs, n - 1)| {
      i := EntrySource(c, logs, n - 1, k);
    } else {
      i := n - 1;
    }
  }

  lemma {:induction false} EntriesPrefix(c: Coercion, logs: seq<MatchingLog>, i: nat, n: nat, k: nat)
    requires i <= n <= |logs| && k < |Entries(c, logs, i)|
    ensures k < |Entries(c, logs, n)| && Entries(c, logs, n)[k] == Entries(c, logs, i)[k]
    decreases n
  {
    if i < n {
      EntriesPrefix(c, logs, i, n - 1, k);
    }
  }

  // ---------------------------------------------------------------- classify

  datatype Result = Result(
    kind: Kind, decoded: Decoded, matchingLogs: seq<MatchingLog>, emitters: seq<string>, notes: seq<string>,
    primaryLog: Option<MatchingLog>)

  /** The distinct addresses, in order of first appearance. */
  function Emitters(logs: seq<MatchingLog>): seq<string> {
    if logs == [] then []
    else
      var before, address := Emitters(logs[..|logs| - 1]), logs[|logs| - 1].address;
      if address in before then before else before + [address]
  }

  /** The search from the p-th event on. */
  function Search(c: Coercion, logs: seq<MatchingLog>, p: nat): Result
    requires p <= EVENTS
    decreases EVENTS - p
  {
    if p == EVENTS then
      Result(Unknown, Decoded(), logs, Emitters(logs), ["no known universal-tx event among decoded logs"], None)
    else
      var hit := Find(logs, EventAt(p));
      if hit == |logs| then Search(c, logs, p + 1)
      else
        var kind := KindAt(p, logs[hit].args);
        Result(kind, BuildDecoded(c, kind, logs[hit], logs), logs, Emitters(logs), [], Some(logs[hit]))
  }

  function Classify(c: Coercion, logs: seq<MatchingLog>): Result {
    if logs == [] then Result(Unknown, Decoded(), [], [], ["no universal-tx events decoded"], None)
    else Search(c, logs, 0)
  }

  predicate NoneBetter(logs: seq<MatchingLog>, p: nat) {
    forall i :: 0 <= i < |logs| ==> Priority(logs[i].eventName) >= p
  }

  /** The search finds the first log of the best event present. */
  lemma {:induction false} SearchFinds(c: Coercion, logs: seq<MatchingLog>, p: nat) returns (i: nat)
    requires p <= EVENTS && NoneBetter(logs, p)
    ensures i <= |logs|
    ensures i == |logs| ==> NoneBetter(logs, EVENTS)
    ensures i == |logs| ==> Search(c, logs, p) == Search(c, logs, EVENTS)
    ensures i < |logs| ==> IsPrimary(logs, i) && FoundAt(c, logs, i, Search(c, logs, p))
    decreases EVENTS - p
  {
    i := |logs|;
    if p < EVENTS {
      var hit := Find(logs, EventAt(p));
      if hit == |logs| {
        i := SearchFinds(c, logs, p + 1);
      } else {
        i := hit;
        assert Priority(logs[hit].eventName) == p;
      }
    }
  }

  predicate FoundAt(c: Coercion, logs: seq<MatchingLog>, i: nat, r: Result)
    requires i < |logs| && Known(logs[i])
  {
    r.kind != Unknown && r.primaryLog == Some(logs[i]) && EntryOf(c, logs[i], logs) == Entry(r.kind, r.decoded, logs[i])
  }

  /** A known log that no log beats, and no earlier one equals. */
  predicate IsPrimary(logs: seq<MatchingLog>, i: nat)
    requires i < |logs|
  {
    && Known(logs[i])
    && (forall j :: 0 <= j < |logs| ==> Priority(logs[j].eventName) >= Priority(logs[i].eventName))
    && (forall j :: 0 <= j < i ==> Priority(logs[j].eventName) > Priority(logs[i].eventName))
  }

  /** An entry that no entry beats, and no earlier one equals. */
  predicate IsBest(entries: seq<Entry>, k: nat)
    requires k < |entries|
  {
    && (forall j :: 0 <= j < |entries| ==> Priority(entries[j].log.eventName) >= Priority(entries[k].log.eventName))
    && (forall j :: 0 <= j < k ==> Priority(entries[j].log.eventName) > Priority(entries[k].log.eventName))
  }

  lemma PrimaryIsBest(c: Coercion, logs: seq<MatchingLog>, i: nat) returns (k: nat)
    requires i < |logs| && IsPrimary(logs, i)
    ensures k < |Entries(c, logs, |logs|)| && IsBest(Entries(c, logs, |logs|), k)
    ensures Entries(c, logs, |logs|)[k] == EntryOf(c, logs[i], logs)
  {
    var entries := Entries(c, logs, |logs|);
    k := |Entries(c, logs, i)|;
    EntryPosition(c, logs, i, |logs|);
    forall j | 0 <= j < |entries|
      ensures Priority(entries[j].log.eventName) >= Priority(logs[i].eventName)
      ensures j < k ==> Priority(entries[j].log.eventName) > Priority(logs[i].eventName)
    {
      if j < k {
        EntriesPrefix(c, logs, i, |logs|, j);
        var source := EntrySource(c, logs, i, j);
      } else {
        var source := EntrySource(c, logs, |logs|, j);
      }
    }
  }

  lemma {:induction false} NoEntries(c: Coercion, logs: seq<MatchingLog>, n: nat)
    requires n <= |logs| && NoneBetter(logs, EVENTS)
    ensures Entries(c, logs, n) == []
  {
    if n > 0 {
      NoEntries(c, logs, n - 1);
    }
  }

  /**
   The classification of a receipt is unknown exactly when the per-log list is empty; otherwise
   its kind, identifiers and primary log are those of the earliest entry with the best event.
   */
  lemma ClassifyAgreesWithAll(c: Coercion, logs: seq<MatchingLog>)
    ensures
      var r, entries := Classify(c, logs), Entries(c, logs, |logs|);
      && (r.kind == Unknown <==> entries == [])
      && (entries == [] ==> r.primaryLog == None && r.decoded == Decoded() && |r.notes| == 1)
      && (entries != [] ==> exists k :: 0 <= k < |entries| && IsBest(entries, k) && r.primaryLog == Some(entries[k].log)
                                        && entries[k] == Entry(r.kind, r.decoded, entries[k].log))
  {
    if logs != [] {
      var i := SearchFinds(c, logs, 0);
      if i < |logs| {
        var k := PrimaryIsBest(c, logs, i);
        assert Entries(c, logs, |logs|)[k].log == logs[i];
      } else {
        NoEntries(c, logs, |logs|);
      }
    }
  }

  /** Whatever the kind, the result carries all logs and their emitters. */
  lemma ResultCarriesLogs(c: Coercion, logs: seq<MatchingLog>)
    ensures Classify(c, logs).matchingLogs == logs && Classify(c, logs).emitters == Emitters(logs)
  {
    SearchCarriesLogs(c, logs, 0);
  }

  lemma {:induction false} SearchCarriesLogs(c: Coercion, logs: seq<MatchingLog>, p: nat)
    requires p <= EVENTS
    ensures Search(c, logs, p).matchingLogs == logs && Search(c, logs, p).emitters == Emitters(logs)
    decreases EVENTS - p
  {
    if p < EVENTS {
      SearchCarriesLogs(c, logs, p + 1);
    }
  }

  // ---------------------------------------------------------------- the documented order of kinds

  /** The order the types document gives the kinds, best first. */
  function KindRank(kind: Kind): nat {
    match kind
    case OutboundFinalized => 0
    case OutboundReverted => 1
    case OutboundInitiated => 2
    case InboundReverted => 3
    case InboundFromCea => 4
    case InboundFromEoa => 5
    case ExecutedOnDest => 6
    case RescuedFunds => 7
    case Unknown => 8
  }

  predicate IsCeaInbound(log: MatchingLog) {
    log.eventName == UniversalTx && Field(log.args, FromCEA) == Bool(true)
  }

  /** The best event is an inbound, the first inbound is not from a CEA, and a later one is. */
  predicate LaterCeaIsHidden(logs: seq<MatchingLog>) {
    && NoneBetter(logs, 4)
    && Find(logs, UniversalTx) < |logs|
    && !IsCeaInbound(logs[Find(logs, UniversalTx)])
    && exists i :: 0 <= i < |logs| && IsCeaInbound(logs[i])
  }

  lemma RankFollowsPriority(a: MatchingLog, b: MatchingLog)
    requires Known(a) && Known(b)
    ensures
      var p, q := Priority(a.eventName), Priority(b.eventName);
      var x, y := KindRank(KindAt(p, a.args)), KindRank(KindAt(q, b.args));
      && (p < q ==> x < y)
      && (p == q ==> (x > y <==> !IsCeaInbound(a) && IsCeaInbound(b)))
  {
  }

  /**
   The documented order puts a CEA inbound before any other inbound. The kind of a receipt is the
   best kind in its list exactly when no later CEA inbound is hidden by the first inbound.
   */
  lemma BestKindIff(c: Coercion, logs: seq<MatchingLog>)
    ensures (forall k :: 0 <= k < |Entries(c, logs, |logs|)| ==>
                           KindRank(Classify(c, logs).kind) <= KindRank(Entries(c, logs, |logs|)[k].kind))
            <==> !LaterCeaIsHidden(logs)
  {
    if logs != [] {
      var i := SearchFinds(c, logs, 0);
      if i < |logs| {
        PrimaryKindIff(c, logs, i);
      } else {
        NoEntries(c, logs, |logs|);
      }
    }
  }

  lemma PrimaryKindIff(c: Coercion, logs: seq<MatchingLog>, i: nat)
    requires i < |logs| && IsPrimary(logs, i)
    ensures (forall k :: 0 <= k < |Entries(c, logs, |logs|)| ==>
                           KindRank(EntryOf(c, logs[i], logs).kind) <= KindRank(Entries(c, logs, |logs|)[k].kind))
            <==> !LaterCeaIsHidden(logs)
  {
    var entries, kind := Entries(c, logs, |logs|), EntryOf(c, logs[i], logs).kind;
    if LaterCeaIsHidden(logs) {
      var first := Find(logs, UniversalTx);
      assert Priority(logs[first].eventName) == 4;
      assert i == first;
      var j :| 0 <= j < |logs| && IsCeaInbound(logs[j]);
      EntryPosition(c, logs, j, |logs|);
      RankFollowsPriority(logs[i], logs[j]);
    } else {
      forall k | 0 <= k < |entries| ensures KindRank(kind) <= KindRank(entries[k].kind) {
        var j := EntrySource(c, logs, |logs|, k);
        RankFollowsPriority(logs[i], logs[j]);
        if Priority(logs[j].eventName) == Priority(logs[i].eventName) && !IsCeaInbound(logs[i]) && IsCeaInbound(logs[j]) {
          assert Find(logs, UniversalTx) == i;
          assert LaterCeaIsHidden(logs);
        }
      }
    }
  }

  /** Two inbounds, the second from a CEA: the receipt is classified as not from a CEA. */
  lemma HiddenCeaExample(c: Coercion)
    ensures
      var eoa := MatchingLog(UniversalTx, "0x1", 0, map[FromCEA := Bool(false)]);
      var cea := MatchingLog(UniversalTx, "0x1", 1, map[FromCEA := Bool(true)]);
      Classify(c, [eoa, cea]).kind == InboundFromEoa && Classify(c, [cea, eoa]).kind == InboundFromCea
  {
    var eoa := MatchingLog(UniversalTx, "0x1", 0, map[FromCEA := Bool(false)]);
    var cea := MatchingLog(UniversalTx, "0x1", 1, map[FromCEA := Bool(true)]);
    FirstEventWins(c, eoa, cea);
    FirstEventWins(c, cea, eoa);
  }

  lemma FirstEventWins(c: Coercion, first: MatchingLog, second: MatchingLog)
    requires first.eventName == second.eventName && Known(first)
    ensures Classify(c, [first, second]).kind == KindAt(Priority(first.eventName), first.args)
  {
    var logs := [first, second];
    assert logs[0] == first;
    var i := SearchFinds(c, logs, 0);
  }

  /**
   The decoded flag of an inbound agrees with its kind exactly when the argument is a boolean or
   is falsy: the kind asks for `true`, the flag for any truthy value.
   */
  lemma FlagAgreesWithKind(c: Coercion, log: MatchingLog, logs: seq<MatchingLog>)
    requires log.eventName == UniversalTx
    ensures
      var entry, arg := EntryOf(c, log, logs), Field(log.args, FromCEA);
      && entry.decoded.fromCEA.Some?
      && ((entry.kind == InboundFromCea <==> entry.decoded.fromCEA == Some(true)) <==> arg.Bool? || !Truthy(arg))
  {
  }

  /** The account that the first execution in a receipt names. */
  function ExecutedAccount(logs: seq<MatchingLog>): Option<string> {
    var executed := Find(logs, UniversalTxExecuted);
    if executed < |logs| then AsAddress(Field(logs[executed].args, PushAccount)) else None
  }

  /**
   The entry of a log is the one it has on its own, whatever else the receipt holds, unless it
   is a finalized outbound without an account and an execution in the receipt names one.
   */
  lemma EntryIsLocalIff(c: Coercion, log: MatchingLog, logs: seq<MatchingLog>)
    requires Known(log)
    ensures EntryOf(c, log, logs) == EntryOf(c, log, [log]) <==>
            || log.eventName != UniversalTxFinalized
            || AsAddress(Field(log.args, PushAccount)).Some?
            || ExecutedAccount(logs).None?
  {
    assert [log][0] == log;
  }

  // ---------------------------------------------------------------- events as the contracts emit them

  /** The seven events of the contracts, with the fields of their signatures. */
  datatype Emitted =
    | ETx(sender: string, recipient: string, token: string, amount: int, payload: string, revertRecipient: string,
          txType: int, signatureData: string, fromCEA: bool)
    | EExecuted(subTxId: string, universalTxId: string, pushAccount: string, target: string, token: string,
                amount: int, payload: string)
    | ERevert(subTxId: string, universalTxId: string, recipient: string, token: string, amount: int,
              revertRecipient: string, revertMsg: string)
    | ERescued(subTxId: string, universalTxId: string, token: string, amount: int,
               revertRecipient: string, revertMsg: string)
    | EFinalized(subTxId: string, universalTxId: string, pushAccount: string, recipient: string, token: string,
                 amount: int, payload: string)
    | EReverted(subTxId: string, universalTxId: string, token: string, amount: int,
                revertRecipient: string, revertMsg: string)
    | EOutbound(subTxId: string, sender: string, chainNamespace: string, token: string, recipient: string,
                amount: int, gasToken: string, gasFee: int, gasLimit: int, payload: string, protocolFee: int,
                revertRecipient: string, txType: int, gasPrice: int)

  function RevertTuple(e: Emitted): Arg
    requires e.ERevert? || e.ERescued? || e.EReverted?
  {
    Obj(map[RevertRecipient := Str(e.revertRecipient), RevertMsg := Str(e.revertMsg)])
  }

  /** The arguments the log parser decodes them to: hex strings, bigints, small numbers, booleans. */
  function ArgsOf(e: Emitted): map<Name, Arg> {
    match e
    case ETx(sender, recipient, token, amount, payload, revertRecipient, txType, signatureData, fromCEA) =>
      map[Sender := Str(sender), Recipient := Str(recipient), Token := Str(token), Amount := BigInt(amount),
          Payload := Str(payload), RevertRecipient := Str(revertRecipient), TxType := Num(txType),
          SignatureData := Str(signatureData), FromCEA := Bool(fromCEA)]
    case EExecuted(subTxId, universalTxId, pushAccount, target, token, amount, payload) =>
      map[SubTxId := Str(subTxId), UniversalTxId := Str(universalTxId), PushAccount := Str(pushAccount),
          Target := Str(target), Token := Str(token), Amount := BigInt(amount), Data := Str(payload)]
    case ERevert(subTxId, universalTxId, recipient, token, amount, _, _) =>
      map[SubTxId := Str(subTxId), UniversalTxId := Str(universalTxId), To := Str(recipient),
          Token := Str(token), Amount := BigInt(amount), RevertInstruction := RevertTuple(e)]
    case ERescued(subTxId, universalTxId, token, amount, _, _) =>
      map[SubTxId := Str(subTxId), UniversalTxId := Str(universalTxId), Token := Str(token),
          Amount := BigInt(amount), RevertInstruction := RevertTuple(e)]
    case EFinalized(subTxId, universalTxId, pushAccount, recipient, token, amount, payload) =>
      map[SubTxId := Str(subTxId), UniversalTxId := Str(universalTxId), PushAccount := Str(pushAccount),
          Recipient := Str(recipient), Token := Str(token), Amount := BigInt(amount), Data := Str(payload)]
    case EReverted(subTxId, universalTxId, token, amount, _, _) =>
      map[SubTxId := Str(subTxId), UniversalTxId := Str(universalTxId), Token := Str(token),
          Amount := BigInt(amount), RevertInstruction := RevertTuple(e)]
    case EOutbound(subTxId, sender, chainNamespace, token, recipient, amount, gasToken, gasFee, gasLimit, payload,
                   protocolFee, revertRecipient, txType, gasPrice) =>
      map[SubTxId := Str(subTxId), Sender := Str(sender), ChainNamespace := Str(chainNamespace),
          Token := Str(token), Recipient := Str(recipient), Amount := BigInt(amount),
          GasToken := Str(gasToken), GasFee := BigInt(gasFee), GasLimit := BigInt(gasLimit),
          Payload := Str(payload), ProtocolFee := BigInt(protocolFee), RevertRecipient := Str(revertRecipient),
          TxType := Num(txType), GasPrice := BigInt(gasPrice)]
  }

  function NameOf(e: Emitted): EventName {
    match e
    case ETx(_, _, _, _, _, _, _, _, _) => UniversalTx
    case EExecuted(_, _, _, _, _, _, _) => UniversalTxExecuted
    case ERevert(_, _, _, _, _, _, _) => RevertUniversalTx
    case ERescued(_, _, _, _, _, _) => FundsRescued
    case EFinalized(_, _, _, _, _, _, _) => UniversalTxFinalized
    case EReverted(_, _, _, _, _, _) => UniversalTxReverted
    case EOutbound(_, _, _, _, _, _, _, _, _, _, _, _, _, _) => UniversalTxOutbound
  }

  function LogOf(e: Emitted, address: string, logIndex: int): MatchingLog {
    MatchingLog(NameOf(e), address, logIndex, ArgsOf(e))
  }

  /** Hashes, addresses and byte strings are printed with `0x`. */
  predicate HexFields(e: Emitted) {
    && StartsWith0x(e.token)
    && (!e.ETx? ==> StartsWith0x(e.subTxId))
    && (!e.ETx? && !e.EOutbound? ==> StartsWith0x(e.universalTxId))
    && (e.ETx? || e.EOutbound? ==> StartsWith0x(e.sender))
    && (e.ETx? || e.ERevert? || e.EFinalized? || e.EOutbound? ==> StartsWith0x(e.recipient))
    && (e.EExecuted? || e.EFinalized? ==> StartsWith0x(e.pushAccount))
    && (e.ETx? || e.EExecuted? || e.EFinalized? || e.EOutbound? ==> StartsWith0x(e.payload))
    && (!e.EExecuted? && !e.EFinalized? ==> StartsWith0x(e.revertRecipient))
    && (e.ERevert? || e.ERescued? || e.EReverted? ==> StartsWith0x(e.revertMsg))
  }

  function Cut(hex: string): string {
    if |hex| <= 66 then hex else hex[..66]
  }

  /** An event without what its classification leaves out: byte strings beyond 32 bytes, and four fields. */
  function Kept(e: Emitted): Emitted {
    match e
    case ETx(sender, recipient, token, amount, payload, revertRecipient, txType, _, fromCEA) =>
      ETx(sender, recipient, token, amount, Cut(payload), revertRecipient, txType, "", fromCEA)
    case EExecuted(subTxId, universalTxId, pushAccount, _, token, amount, payload) =>
      EExecuted(subTxId, universalTxId, pushAccount, "", token, amount, Cut(payload))
    case ERevert(subTxId, universalTxId, recipient, token, amount, revertRecipient, revertMsg) =>
      ERevert(subTxId, universalTxId, recipient, token, amount, revertRecipient, Cut(revertMsg))
    case ERescued(subTxId, universalTxId, token, amount, revertRecipient, revertMsg) =>
      ERescued(subTxId, universalTxId, token, amount, revertRecipient, Cut(revertMsg))
    case EFinalized(subTxId, universalTxId, pushAccount, recipient, token, amount, payload) =>
      EFinalized(subTxId, universalTxId, pushAccount, recipient, token, amount, Cut(payload))
    case EReverted(subTxId, universalTxId, token, amount, revertRecipient, revertMsg) =>
      EReverted(subTxId, universalTxId, token, amount, revertRecipient, Cut(revertMsg))
    case EOutbound(subTxId, sender, chainNamespace, token, recipient, amount, _, gasFee, gasLimit, payload,
                   protocolFee, revertRecipient, txType, _) =>
      EOutbound(subTxId, sender, chainNamespace, token, recipient, amount, "", gasFee, gasLimit, Cut(payload),
                protocolFee, revertRecipient, txType, 0)
  }

  function Or<T>(v: Option<T>, otherwise: T): T {
    if v.Some? then v.value else otherwise
  }

  /** The event a consumer reads off an entry. */
  function Rebuilt(kind: Kind, d: Decoded): Option<Emitted> {
    var sub, utx := Or(d.subTxId, ""), Or(d.universalTxId, "");
    var token, amount := Or(d.token, ""), Or(d.amount, 0);
    var recipient, payload := Or(d.recipient, ""), Or(d.payloadPreview, "");
    var revert, msg := Or(d.revertRecipient, ""), Or(d.revertMsgPreview, "");
    var sender, account, txType := Or(d.sender, ""), Or(d.pushAccount, ""), Or(d.txType, 0);
    match kind
    case OutboundFinalized => Some(EFinalized(sub, utx, account, recipient, token, amount, payload))
    case OutboundReverted => Some(EReverted(sub, utx, token, amount, revert, msg))
    case OutboundInitiated =>
      Some(EOutbound(sub, sender, Or(d.destinationChainNamespace, ""), token, recipient, amount, "", Or(d.gasFee, 0),
                     Or(d.gasLimit, 0), payload, Or(d.protocolFee, 0), revert, txType, 0))
    case InboundReverted => Some(ERevert(sub, utx, recipient, token, amount, revert, msg))
    case InboundFromCea => Some(ETx(sender, recipient, token, amount, payload, revert, txType, "", true))
    case InboundFromEoa => Some(ETx(sender, recipient, token, amount, payload, revert, txType, "", false))
    case ExecutedOnDest => Some(EExecuted(sub, utx, account, "", token, amount, payload))
    case RescuedFunds => Some(ERescued(sub, utx, token, amount, revert, msg))
    case Unknown => None
  }

  /**
   The round trip from the contracts: what a log was emitted with is read back off its entry,
   up to the fields that are left out, whatever else the receipt holds.
   */
  lemma EntryRecoversEvent(c: Coercion, e: Emitted, address: string, logIndex: int, logs: seq<MatchingLog>)
    requires HexFields(e)
    ensures
      var entry := EntryOf(c, LogOf(e, address, logIndex), logs);
      Rebuilt(entry.kind, entry.decoded) == Some(Kept(e))
  {
    var log := LogOf(e, address, logIndex);
    if e.EFinalized? {
      assert AsAddress(Field(log.args, PushAccount)).Some?;
    }
    match e
    case ETx(_, _, _, _, _, _, _, _, _) => TxRecovered(c, e, address, logIndex);
    case EExecuted(_, _, _, _, _, _, _) => ExecutedRecovered(c, e, address, logIndex);
    case ERevert(_, _, _, _, _, _, _) => RevertRecovered(c, e, address, logIndex);
    case ERescued(_, _, _, _, _, _) => RescuedRecovered(c, e, address, logIndex);
    case EFinalized(_, _, _, _, _, _, _) => FinalizedRecovered(c, e, address, logIndex);
    case EReverted(_, _, _, _, _, _) => RevertedRecovered(c, e, address, logIndex);
    case EOutbound(_, _, _, _, _, _, _, _, _, _, _, _, _, _) => OutboundRecovered(c, e, address, logIndex);
  }

  /** A receipt of emitted events: its list gives each of them back, in its place. */
  lemma ReceiptRecoversEvents(c: Coercion, logs: seq<MatchingLog>, es: seq<Emitted>, i: nat)
    requires |es| == |logs| && i < |es|
    requires forall k :: 0 <= k < |es| ==> logs[k] == LogOf(es[k], logs[k].address, logs[k].logIndex)
    requires HexFields(es[i])
    ensures |Entries(c, logs, |logs|)| == |es|
    ensures Rebuilt(Entries(c, logs, |logs|)[i].kind, Entries(c, logs, |logs|)[i].decoded) == Some(Kept(es[i]))
  {
    forall k | 0 <= k < |logs| ensures Known(logs[k]) {
      assert logs[k] == LogOf(es[k], logs[k].address, logs[k].logIndex);
    }
    EntryCount(c, logs, i);
    EntryCount(c, logs, |logs|);
    EntryPosition(c, logs, i, |logs|);
    EntryRecoversEvent(c, es[i], logs[i].address, logs[i].logIndex, logs);
  }

  lemma {:induction false} EntryCount(c: Coercion, logs: seq<MatchingLog>, n: nat)
    requires n <= |logs| && forall k :: 0 <= k < |logs| ==> Known(logs[k])
    ensures |Entries(c, logs, n)| == n
  {
    if n > 0 {
      EntryCount(c, logs, n - 1);
    }
  }

  /** The same for the log's own part of the entry, event by event. */
  ghost predicate PrimaryRecovers(c: Coercion, e: Emitted, address: string, logIndex: int) {
    var log := LogOf(e, address, logIndex);
    Rebuilt(KindAt(Priority(log.eventName), log.args), FromPrimary(c, log)) == Some(Kept(e))
  }

  lemma TxRecovered(c: Coercion, e: Emitted, address: string, logIndex: int)
    requires HexFields(e) && e.ETx?
    ensures PrimaryRecovers(c, e, address, logIndex)
  {
  }

  lemma ExecutedRecovered(c: Coercion, e: Emitted, address: string, logIndex: int)
    requires HexFields(e) && e.EExecuted?
    ensures PrimaryRecovers(c, e, address, logIndex)
  {
  }

  lemma RevertRecovered(c: Coercion, e: Emitted, address: string, logIndex: int)
    requires HexFields(e) && e.ERevert?
    ensures PrimaryRecovers(c, e, address, logIndex)
  {
  }

  lemma RescuedRecovered(c: Coercion, e: Emitted, address: string, logIndex: int)
    requires HexFields(e) && e.ERescued?
    ensures PrimaryRecovers(c, e, address, logIndex)
  {
  }

  lemma FinalizedRecovered(c: Coercion, e: Emitted, address: string, logIndex: int)
    requires HexFields(e) && e.EFinalized?
    ensures PrimaryRecovers(c, e, address, logIndex)
  {
  }

  lemma RevertedRecovered(c: Coercion, e: Emitted, address: string, logIndex: int)
    requires HexFields(e) && e.EReverted?
    ensures PrimaryRecovers(c, e, address, logIndex)
  {
  }

  lemma OutboundRecovered(c: Coercion, e: Emitted, address: string, logIndex: int)
    requires HexFields(e) && e.EOutbound?
    ensures PrimaryRecovers(c, e, address, logIndex)
  {
    var d := FromPrimary(c, LogOf(e, address, logIndex));
    OutboundFields(e);
    assert d.subTxId == Some(e.subTxId) && d.sender == Some(e.sender) && d.token == Some(e.token);
    assert d.recipient == Some(e.recipient) && d.destinationChainNamespace == Some(e.chainNamespace);
    assert d.amount == Some(e.amount) && d.gasFee == Some(e.gasFee) && d.gasLimit == Some(e.gasLimit);
    assert d.protocolFee == Some(e.protocolFee) && d.revertRecipient == Some(e.revertRecipient);
    assert d.payloadPreview == Some(Cut(e.payload)) && d.txType == Some(e.txType);
  }

  lemma OutboundFields(e: Emitted)
    requires e.EOutbound?
    ensures
      var a := ArgsOf(e);
      && Field(a, SubTxId) == Str(e.subTxId) && Field(a, Sender) == Str(e.sender)
      && Field(a, ChainNamespace) == Str(e.chainNamespace) && Field(a, Token) == Str(e.token)
      && Field(a, Recipient) == Str(e.recipient) && Field(a, Amount) == BigInt(e.amount)
      && Field(a, GasFee) == BigInt(e.gasFee) && Field(a, GasLimit) == BigInt(e.gasLimit)
      && Field(a, Payload) == Str(e.payload) && Field(a, ProtocolFee) == BigInt(e.protocolFee)
      && Field(a, RevertRecipient) == Str(e.revertRecipient) && Field(a, TxType) == Num(e.txType)
  {
  }

  /** A payload is reported by its length in bytes and by a prefix of at most 32 bytes. */
  lemma PayloadIsSummarised(v: Arg)
    ensures Preview(v).Some? == ByteLength(v).Some? == AsAddress(v).Some?
    ensures v.Str? && Preview(v).Some? ==>
              && Preview(v).value <= v.s
              && (Preview(v).value == v.s || |Preview(v).value| == 66 < |v.s|)
              && ByteLength(v).value * 2.0 + 2.0 == |v.s| as real
  {
  }

  /** The emitters are the addresses of the logs, each once. */
  lemma {:induction false} EmittersAreDistinct(logs: seq<MatchingLog>)
    ensures forall i, j :: 0 <= i < j < |Emitters(logs)| ==> Emitters(logs)[i] != Emitters(logs)[j]
    ensures forall a :: a in Emitters(logs) <==> exists i :: 0 <= i < |logs| && logs[i].address == a
  {
    if logs != [] {
      var front := logs[..|logs| - 1];
      EmittersAreDistinct(front);
      assert logs == front + [logs[|logs| - 1]];
    }
  }
}
