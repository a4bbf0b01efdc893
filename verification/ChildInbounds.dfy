/**
 Keys of child universal transactions, and the resolver that looks them up. A key is the hash of
 a preimage; what is stated here about keys is stated about preimages.
 */
module ChildInbounds {
  import opened Wrappers
  import opened Strings
  import opened CascadeTypes
  import D = Decimal
  import H = SvmPayload

  // ---------------------------------------------------------------- colons

  function Colons(s: string): nat {
    if s == "" then 0 else (if s[0] == ':' then 1 else 0) + Colons(s[1..])
  }

  lemma {:induction false} ColonsOfSum(a: string, b: string)
    ensures Colons(a + b) == Colons(a) + Colons(b)
  {
    if a == "" {
      assert a + b == b;
    } else {
      assert (a + b)[1..] == a[1..] + b;
      ColonsOfSum(a[1..], b);
    }
  }

  lemma {:induction false} NoColonInside(s: string)
    requires forall i :: 0 <= i < |s| ==> s[i] != ':'
    ensures Colons(s) == 0
  {
    if s != "" {
      NoColonInside(s[1..]);
    }
  }

  /** Cut at the same colon, equal strings have equal parts. */
  lemma {:induction false} CutAtColon(a: string, x: string, b: string, y: string)
    requires Colons(a) == Colons(b)
    requires a + [':'] + x == b + [':'] + y
    ensures a == b && x == y
  {
    var s, t := a + [':'] + x, b + [':'] + y;
    if a != "" && b != "" {
      assert s[0] == a[0] && t[0] == b[0];
      assert s[1..] == a[1..] + [':'] + x;
      assert t[1..] == b[1..] + [':'] + y;
      CutAtColon(a[1..], x, b[1..], y);
      assert a == [a[0]] + a[1..] && b == [b[0]] + b[1..];
    } else if a == "" {
      assert s == [':'] + x;
      CutAtFirst(x, b, y);
    } else {
      assert t == [':'] + y;
      CutAtFirst(y, a, x);
    }
  }

  lemma CutAtFirst(x: string, b: string, y: string)
    requires [':'] + x == b + [':'] + y
    ensures b == "" ==> x == y
    ensures b != "" ==> Colons(b) > 0
  {
    assert ([':'] + x)[0] == ':';
    assert ([':'] + x)[1..] == x;
    if b == "" {
      assert b + [':'] + y == [':'] + y;
      assert ([':'] + y)[1..] == y;
    }
  }

  // ---------------------------------------------------------------- the base58 codec

  /** The base58 codec; `decode` of a string that is not base58 is an exception. */
  datatype Base58 = Base58(encode: H.Bytes -> string, decode: string -> Option<H.Bytes>) {
    /** It reads back what it wrote, its alphabet has no zero, and 64 bytes never need 128 digits. */
    ghost predicate Codec() {
      && (forall b :: decode(encode(b)) == Some(b))
      && (forall b :: '0' !in encode(b))
      && (forall b :: |b| == 64 ==> |encode(b)| < 128)
    }
  }

  // ---------------------------------------------------------------- the hash inside a key

  predicate IsSolana(chain: string) {
    |chain| >= 7 && chain[..7] == "solana:"
  }

  lemma SolanaChains(chain: string)
    ensures IsSolana(chain) <==> exists rest :: chain == "solana:" + rest
  {
    if IsSolana(chain) {
      assert chain == "solana:" + chain[7..];
    }
  }

  predicate HexDigits(s: string) {
    forall i :: 0 <= i < |s| ==> H.IsHexChar(s[i])
  }

  /** The source's pattern for 64 bytes; it is asked only of strings that do not start with `0x`. */
  predicate Hex64(s: string) {
    |s| == 128 && HexDigits(s)
  }

  function NormalizeInboundTxHashForKey(bs58: Base58, chain: string, hash: string): Option<string> {
    if !IsSolana(chain) then Some(With0x(hash))
    else if StartsWith0x(hash) then Some(hash)
    else if Hex64(hash) then Some("0x" + hash)
    else
      var bytes := bs58.decode(hash);
      if bytes.None? then None else Some("0x" + H.BytesToHex(bytes.value))
  }

  function ChildPreimage(bs58: Base58, chain: string, hash: string, logIndex: string): Option<string> {
    var norm := NormalizeInboundTxHashForKey(bs58, chain, hash);
    if norm.None? then None else Some(chain + ":" + norm.value + ":" + logIndex)
  }

  function PcPreimage(chain: string, hash: string): string {
    chain + ":" + With0x(hash)
  }

  lemma {:induction false} HexHasNoColon(b: H.Bytes)
    ensures Colons(H.BytesToHex(b)) == 0
  {
    if b != [] {
      var front, last := b[..|b| - 1], b[|b| - 1];
      HexHasNoColon(front);
      NoColonInside(H.ByteToHex(last));
      ColonsOfSum(H.BytesToHex(front), H.ByteToHex(last));
    }
  }

  lemma ZeroXHasNoColon(s: string)
    ensures Colons("0x" + s) == Colons(s)
  {
    NoColonInside("0x");
    ColonsOfSum("0x", s);
  }

  /** Normalising adds no colon. */
  lemma NormalizedHasNoColon(bs58: Base58, chain: string, hash: string)
    requires Colons(hash) == 0 && NormalizeInboundTxHashForKey(bs58, chain, hash).Some?
    ensures Colons(NormalizeInboundTxHashForKey(bs58, chain, hash).value) == 0
  {
    ZeroXHasNoColon(hash);
    if IsSolana(chain) && !StartsWith0x(hash) && !Hex64(hash) {
      var bytes := bs58.decode(hash).value;
      HexHasNoColon(bytes);
      ZeroXHasNoColon(H.BytesToHex(bytes));
    }
  }

  // ---------------------------------------------------------------- preimages are unambiguous

  lemma Regroup(a: string, b: string, c: string)
    ensures a + ":" + b + ":" + c == a + [':'] + (b + [':'] + c)
  {
  }

  lemma ChildParts(chain: string, norm: string, index: string, chain': string, norm': string, index': string)
    requires Colons(chain) == Colons(chain') == 1 && Colons(norm) == Colons(norm') == 0
    requires chain + ":" + norm + ":" + index == chain' + ":" + norm' + ":" + index'
    ensures chain == chain' && norm == norm' && index == index'
  {
    Regroup(chain, norm, index);
    Regroup(chain', norm', index');
    CutAtColon(chain, norm + [':'] + index, chain', norm' + [':'] + index');
    CutAtColon(norm, index, norm', index');
  }

  /** Two child keys hash the same preimage exactly when chain, normalised hash and log index agree. */
  lemma ChildPreimagesAreUnambiguous(
      bs58: Base58, chain: string, hash: string, index: string, chain': string, hash': string, index': string)
    requires Colons(chain) == Colons(chain') == 1 && Colons(hash) == Colons(hash') == 0
    requires ChildPreimage(bs58, chain, hash, index).Some? && ChildPreimage(bs58, chain', hash', index').Some?
    ensures ChildPreimage(bs58, chain, hash, index) == ChildPreimage(bs58, chain', hash', index') <==>
            && chain == chain' && index == index'
            && NormalizeInboundTxHashForKey(bs58, chain, hash) == NormalizeInboundTxHashForKey(bs58, chain', hash')
  {
    NormalizedHasNoColon(bs58, chain, hash);
    NormalizedHasNoColon(bs58, chain', hash');
    if ChildPreimage(bs58, chain, hash, index) == ChildPreimage(bs58, chain', hash', index') {
      ChildParts(chain, NormalizeInboundTxHashForKey(bs58, chain, hash).value, index,
                 chain', NormalizeInboundTxHashForKey(bs58, chain', hash').value, index');
    }
  }

  /** Off Solana, two transaction hashes share a key exactly when they differ at most in a `0x`. */
  lemma SameHashOffSolana(bs58: Base58, chain: string, hash: string, hash': string)
    requires !IsSolana(chain)
    ensures NormalizeInboundTxHashForKey(bs58, chain, hash) == NormalizeInboundTxHashForKey(bs58, chain, hash') <==>
            || hash == hash'
            || (!StartsWith0x(hash) && hash' == "0x" + hash)
            || (!StartsWith0x(hash') && hash == "0x" + hash')
  {
    assert ("0x" + hash)[2..] == hash;
    assert ("0x" + hash')[2..] == hash';
  }

  /** No key of a child is the key of a Push transaction. */
  lemma ChildIsNotPc(bs58: Base58, chain: string, hash: string, index: string, pcChain: string, pcHash: string)
    requires Colons(chain) == Colons(pcChain) == 1 && Colons(hash) == Colons(pcHash) == 0
    requires ChildPreimage(bs58, chain, hash, index).Some?
    ensures ChildPreimage(bs58, chain, hash, index).value != PcPreimage(pcChain, pcHash)
  {
    var norm := NormalizeInboundTxHashForKey(bs58, chain, hash).value;
    ZeroXHasNoColon(pcHash);
    ColonsOfSum(pcChain + ":", With0x(pcHash));
    ColonsOfSum(pcChain, ":");
    ColonsOfSum(chain + ":" + norm + ":", index);
    ColonsOfSum(chain + ":" + norm, ":");
    ColonsOfSum(chain + ":", norm);
    ColonsOfSum(chain, ":");
    assert Colons(":") == 1;
    NormalizedHasNoColon(bs58, chain, hash);
  }

  /** Push keys are as unambiguous: a chain and a hash, up to `0x`. */
  lemma PcPreimagesAreUnambiguous(chain: string, hash: string, chain': string, hash': string)
    requires Colons(chain) == Colons(chain')
    ensures PcPreimage(chain, hash) == PcPreimage(chain', hash') <==> chain == chain' && With0x(hash) == With0x(hash')
  {
    if PcPreimage(chain, hash) == PcPreimage(chain', hash') {
      CutAtColon(chain, With0x(hash), chain', With0x(hash'));
    }
  }

  // ---------------------------------------------------------------- one signature, three spellings

  predicate IsUpperHex(c: char) {
    'A' <= c <= 'F'
  }

  predicate LowerCase(s: string) {
    forall i :: 0 <= i < |s| ==> !IsUpperHex(s[i])
  }

  lemma PairIsLower(hi: char, lo: char)
    requires H.IsHexChar(hi) && H.IsHexChar(lo)
    ensures H.ByteToHex(H.HexPair(hi, lo)) == [hi, lo] <==> !IsUpperHex(hi) && !IsUpperHex(lo)
  {
  }

  /** Reading hex and writing it again gives the same digits exactly when they are lower case. */
  lemma {:induction false} LowerHexIsCanonical(h: string)
    requires H.IsHex(h)
    ensures H.BytesToHex(H.Unhex(h)) == h <==> LowerCase(h)
  {
    if h != "" {
      var n := |h| - 2;
      var front, hi, lo := h[..n], h[n], h[n + 1];
      LowerHexIsCanonical(front);
      PairIsLower(hi, lo);
      var b := H.HexPair(hi, lo);
      assert (H.Unhex(front) + [b])[..|H.Unhex(front)|] == H.Unhex(front);
      assert H.BytesToHex(H.Unhex(h)) == H.BytesToHex(H.Unhex(front)) + H.ByteToHex(b);
      assert h == front + [hi, lo];
      LowerSplit(front, hi, lo);
    }
  }

  lemma LowerSplit(front: string, hi: char, lo: char)
    ensures LowerCase(front + [hi, lo]) <==> LowerCase(front) && !IsUpperHex(hi) && !IsUpperHex(lo)
  {
    var s := front + [hi, lo];
    assert s[|front|] == hi && s[|front| + 1] == lo;
    if LowerCase(s) {
      forall i | 0 <= i < |front| ensures !IsUpperHex(front[i]) {
        assert s[i] == front[i];
      }
    }
  }

  lemma {:induction false} HexIsDigits(h: string)
    requires H.IsHex(h)
    ensures HexDigits(h)
  {
    if h != "" {
      HexIsDigits(h[..|h| - 2]);
    }
  }

  /** What the three spellings of a 64-byte signature normalise to. */
  lemma SpellingsNormalize(bs58: Base58, chain: string, hex: string)
    requires bs58.Codec() && IsSolana(chain) && H.IsHex(hex) && |hex| == 128
    ensures NormalizeInboundTxHashForKey(bs58, chain, "0x" + hex) == Some("0x" + hex)
    ensures NormalizeInboundTxHashForKey(bs58, chain, hex) == Some("0x" + hex)
    ensures NormalizeInboundTxHashForKey(bs58, chain, bs58.encode(H.Unhex(hex))) ==
            Some("0x" + H.BytesToHex(H.Unhex(hex)))
  {
    HexIsDigits(hex);
    assert H.IsHexChar(hex[1]);
    assert !StartsWith0x(hex);
    var short := bs58.encode(H.Unhex(hex));
    assert '0' !in short && |short| < 128;
    assert !StartsWith0x(short);
  }

  /**
   The `0x`-hex, bare-hex and base58 spellings of one 64-byte signature give one key exactly when
   the hex digits are lower case: the hex spellings are not case-folded.
   */
  lemma OneKeyIffLowerCase(bs58: Base58, chain: string, hex: string, index: string)
    requires bs58.Codec() && IsSolana(chain) && H.IsHex(hex) && |hex| == 128
    ensures ChildPreimage(bs58, chain, "0x" + hex, index) == ChildPreimage(bs58, chain, hex, index)
    ensures LowerCase(hex) <==>
            ChildPreimage(bs58, chain, hex, index) == ChildPreimage(bs58, chain, bs58.encode(H.Unhex(hex)), index)
  {
    SpellingsNormalize(bs58, chain, hex);
    LowerHexIsCanonical(hex);
    var other := H.BytesToHex(H.Unhex(hex));
    if chain + ":" + ("0x" + hex) + ":" + index == chain + ":" + ("0x" + other) + ":" + index {
      SameMiddle(chain + ":" + "0x", hex, other, ":" + index);
      assert chain + ":" + ("0x" + hex) + ":" + index == (chain + ":" + "0x") + hex + (":" + index);
      assert chain + ":" + ("0x" + other) + ":" + index == (chain + ":" + "0x") + other + (":" + index);
    }
  }

  lemma SameMiddle(a: string, x: string, y: string, z: string)
    ensures a + x + z == a + y + z ==> x == y
  {
    if a + x + z == a + y + z {
      assert (a + x + z)[|a|..|a| + |x|] == x;
      assert (a + y + z)[|a|..|a| + |y|] == y;
      assert |x| == |y|;
    }
  }

  function Repeat(c: char, n: nat): (s: string)
    ensures |s| == n && forall i :: 0 <= i < n ==> s[i] == c
  {
    seq(n, _ => c)
  }

  lemma {:induction false} RepeatedHex(c: char, n: nat)
    requires H.IsHexChar(c)
    ensures H.IsHex(Repeat(c, 2 * n))
  {
    if n > 0 {
      RepeatedHex(c, n - 1);
      assert Repeat(c, 2 * n)[..2 * n - 2] == Repeat(c, 2 * (n - 1));
    }
  }

  /** A signature whose upper-case hex spelling has another key than its base58 spelling. */
  lemma UpperCaseSplitsTheKey(bs58: Base58, index: string)
    requires bs58.Codec()
    ensures
      var hex := Repeat('A', 128);
      && H.IsHex(hex)
      && ChildPreimage(bs58, "solana:x", hex, index) !=
         ChildPreimage(bs58, "solana:x", bs58.encode(H.Unhex(hex)), index)
  {
    RepeatedHex('A', 64);
    var hex := Repeat('A', 128);
    assert IsUpperHex(hex[0]);
    assert "solana:x"[..7] == "solana:";
    OneKeyIffLowerCase(bs58, "solana:x", hex, index);
  }

  // ---------------------------------------------------------------- the resolver

  datatype Log = Log(eventName: string, logIndex: int)

  datatype OutboundRecord = OutboundRecord(
    id: Option<string>, outboundStatus: int, destinationChain: Option<string>, observedTxHash: Option<string>,
    amount: Option<string>, recipient: Option<string>)

  /** A record of the chain; a transaction hash may be missing or empty. */
  datatype UniversalTx = UniversalTx(
    id: string, universalStatus: Option<int>, pcTxHashes: seq<Option<string>>, outbounds: seq<OutboundRecord>)

  datatype Answer = Failed(message: string) | Answered(record: Option<UniversalTx>)

  datatype Diagnostic = NegativeIndex(eventName: string) | LookupFailed(id: string, message: string)

  datatype Error = NotBase58

  /** The hash function, the base58 codec, and the chain's answer to the query made for the i-th log. */
  datatype World = World(sha: string -> string, bs58: Base58, answer: (nat, string) -> Answer)

  function DeriveChildUniversalTxId(world: World, chain: string, hash: string, logIndex: int): Option<string> {
    var preimage := ChildPreimage(world.bs58, chain, hash, D.SignedToString(logIndex));
    if preimage.None? then None else Some(world.sha(preimage.value))
  }

  function StatusName(status: int): string {
    match status
    case 0 => "UNIVERSAL_TX_STATUS_UNSPECIFIED"
    case 1 => "INBOUND_SUCCESS"
    case 2 => "PENDING_INBOUND_EXECUTION"
    case 3 => "PC_EXECUTED_SUCCESS"
    case 4 => "PC_EXECUTED_FAILED"
    case 5 => "PC_PENDING_REVERT"
    case 6 => "OUTBOUND_PENDING"
    case 7 => "OUTBOUND_SUCCESS"
    case 8 => "OUTBOUND_FAILED"
    case 9 => "CANCELED"
    case _ => "UNKNOWN(" + D.SignedToString(status) + ")"
  }

  function OutboundStatusName(status: int): string {
    match status
    case 0 => "OUTBOUND_STATUS_UNSPECIFIED"
    case 1 => "PENDING"
    case 2 => "OBSERVED"
    case 3 => "REVERTED"
    case _ => "UNKNOWN(" + D.SignedToString(status) + ")"
  }

  function NonEmpty(s: Option<string>): Option<string> {
    if s == Some("") then None else s
  }

  function OrEmpty(s: Option<string>): string {
    if s.Some? then s.value else ""
  }

  function PresentHashes(hashes: seq<Option<string>>): (r: seq<string>) {
    if hashes == [] then []
    else (if NonEmpty(hashes[0]).Some? then [hashes[0].value] else []) + PresentHashes(hashes[1..])
  }

  function Summaries(outbounds: seq<OutboundRecord>): (r: seq<OutboundSummary>)
    ensures |r| == |outbounds|
  {
    seq(|outbounds|, i requires 0 <= i < |outbounds| =>
      var ob := outbounds[i];
      OutboundSummary(OrEmpty(ob.id), OutboundStatusName(ob.outboundStatus), OrEmpty(ob.destinationChain),
                      NonEmpty(ob.observedTxHash), ob.amount, ob.recipient))
  }

  /** The record of an answer, when there is one with an id. */
  function RecordOf(answer: Answer): Option<UniversalTx> {
    if answer.Answered? && answer.record.Some? && answer.record.value.id != "" then answer.record else None
  }

  function Resolved(id: string, log: Log, answer: Answer): Resolution {
    match RecordOf(answer)
    case None => Resolution(id, log.logIndex, log.eventName, 0, StatusName(0), [], [], true)
    case Some(utx) =>
      var status := if utx.universalStatus.Some? then utx.universalStatus.value else 0;
      Resolution(id, log.logIndex, log.eventName, status, StatusName(status),
                 PresentHashes(utx.pcTxHashes), Summaries(utx.outbounds), false)
  }

  /** The positions, below `n`, of logs with a usable index. */
  function Positions(logs: seq<Log>, n: nat): (r: seq<nat>)
    requires n <= |logs|
    ensures forall k :: 0 <= k < |r| ==> r[k] < n
    decreases n
  {
    if n == 0 then [] else Positions(logs, n - 1) + (if logs[n - 1].logIndex < 0 then [] else [n - 1])
  }

  /** In order, without repetition, all of them and no others. */
  lemma {:induction false} PositionsAreTheUsable(logs: seq<Log>, n: nat)
    requires n <= |logs|
    ensures forall j, k :: 0 <= j < k < |Positions(logs, n)| ==> Positions(logs, n)[j] < Positions(logs, n)[k]
    ensures forall i :: 0 <= i < n ==> (i in Positions(logs, n) <==> logs[i].logIndex >= 0)
  {
    if n > 0 {
      PositionsAreTheUsable(logs, n - 1);
      var before := Positions(logs, n - 1);
      assert n - 1 !in before;
      assert Positions(logs, n) == before || Positions(logs, n) == before + [n - 1];
    }
  }

  /** What the i-th log reports, given its id if it has one. */
  function Reported(log: Log, id: string, answer: Answer): seq<Diagnostic> {
    if log.logIndex < 0 then [NegativeIndex(log.eventName)]
    else if answer.Failed? then [LookupFailed(id, answer.message)]
    else []
  }

  /** How the logs of one transaction get their ids, by log index; none when the hash cannot be decoded. */
  type Derivation = int -> Option<string>

  type Chain = (nat, string) -> Answer

  function IdAt(derive: Derivation, log: Log): string {
    OrEmpty(derive(log.logIndex))
  }

  function Diagnostics(derive: Derivation, answer: Chain, logs: seq<Log>, n: nat): (r: seq<Diagnostic>)
    requires n <= |logs|
    decreases n
  {
    if n == 0 then []
    else
      var id := IdAt(derive, logs[n - 1]);
      Diagnostics(derive, answer, logs, n - 1) + Reported(logs[n - 1], id, answer(n - 1, id))
  }

  function EntryAt(derive: Derivation, answer: Chain, logs: seq<Log>, i: nat): Resolution
    requires i < |logs|
  {
    var id := IdAt(derive, logs[i]);
    Resolved(id, logs[i], answer(i, id))
  }

  /** The entries of the first `n` logs. */
  function Entries(derive: Derivation, answer: Chain, logs: seq<Log>, n: nat): (r: seq<Resolution>)
    requires n <= |logs|
    decreases n
  {
    if n == 0 then []
    else Entries(derive, answer, logs, n - 1) +
         (if logs[n - 1].logIndex < 0 then [] else [EntryAt(derive, answer, logs, n - 1)])
  }

  /** Exactly one entry for each usable log, in the order of the logs. */
  lemma {:induction false} OneEntryPerUsableLog(derive: Derivation, answer: Chain, logs: seq<Log>, n: nat, k: nat)
    requires n <= |logs|
    ensures |Entries(derive, answer, logs, n)| == |Positions(logs, n)|
    ensures k < |Positions(logs, n)| ==>
              Entries(derive, answer, logs, n)[k] == EntryAt(derive, answer, logs, Positions(logs, n)[k])
  {
    if n > 0 {
      OneEntryPerUsableLog(derive, answer, logs, n - 1, k);
    }
  }

  predicate NoneUsable(logs: seq<Log>) {
    Positions(logs, |logs|) == []
  }

  function AllEntries(derive: Derivation, answer: Chain, logs: seq<Log>): seq<Resolution> {
    Entries(derive, answer, logs, |logs|)
  }

  function AllDiagnostics(derive: Derivation, answer: Chain, logs: seq<Log>): seq<Diagnostic> {
    Diagnostics(derive, answer, logs, |logs|)
  }

  /** Those of the logs before the first usable one. */
  function DiagnosticsBeforeUsable(derive: Derivation, answer: Chain, logs: seq<Log>): seq<Diagnostic>
    requires !NoneUsable(logs)
  {
    Diagnostics(derive, answer, logs, Positions(logs, |logs|)[0])
  }

  predicate Keyable(world: World, chain: string, hash: string) {
    NormalizeInboundTxHashForKey(world.bs58, chain, hash).Some?
  }

  function IdsOf(world: World, chain: string, hash: string): Derivation {
    logIndex => DeriveChildUniversalTxId(world, chain, hash, logIndex)
  }

  /**
   One entry for each log with a non-negative index, in the order of the logs; a failed or empty
   lookup leaves an entry, marked not found. A hash that is not base58 is an exception, thrown at
   the first log that needs a key.
   */
  method ResolveChildInboundsFromLogs(world: World, chain: string, hash: string, logs: seq<Log>)
    returns (r: Outcome<seq<Resolution>, Error>, diagnostics: seq<Diagnostic>)
    ensures Keyable(world, chain, hash) || NoneUsable(logs) ==>
              && r == Ok(AllEntries(IdsOf(world, chain, hash), world.answer, logs))
              && diagnostics == AllDiagnostics(IdsOf(world, chain, hash), world.answer, logs)
    ensures !Keyable(world, chain, hash) && !NoneUsable(logs) ==>
              && r == Err(NotBase58)
              && diagnostics == DiagnosticsBeforeUsable(IdsOf(world, chain, hash), world.answer, logs)
  {
    r, diagnostics := ResolveLogs(IdsOf(world, chain, hash), world.answer, logs, Keyable(world, chain, hash));
  }

  /** Its loop, for any derivation that works for all log indices or for none. */
  method ResolveLogs(derive: Derivation, answer: Chain, logs: seq<Log>, keyable: bool)
    returns (r: Outcome<seq<Resolution>, Error>, diagnostics: seq<Diagnostic>)
    requires forall logIndex :: derive(logIndex).Some? <==> keyable
    ensures keyable || NoneUsable(logs) ==>
              r == Ok(AllEntries(derive, answer, logs)) && diagnostics == AllDiagnostics(derive, answer, logs)
    ensures !keyable && !NoneUsable(logs) ==>
              r == Err(NotBase58) && diagnostics == DiagnosticsBeforeUsable(derive, answer, logs)
  {
    var out: seq<Resolution> := [];
    diagnostics := [];
    for i := 0 to |logs|
      invariant keyable || Positions(logs, i) == []
      invariant out == Entries(derive, answer, logs, i)
      invariant diagnostics == Diagnostics(derive, answer, logs, i)
    {
      var log := logs[i];
      if log.logIndex < 0 {
        diagnostics := diagnostics + [NegativeIndex(log.eventName)];
      } else {
        var id := derive(log.logIndex);
        if id.None? {
          FirstPosition(logs, i, |logs|);
          return Err(NotBase58), diagnostics;
        }
        var entry, reported := ResolveLog(id.value, log, answer(i, id.value));
        out := out + [entry];
        diagnostics := diagnostics + reported;
      }
    }
    return Ok(out), diagnostics;
  }

  /** The `try` of the loop: what one answer becomes. */
  method ResolveLog(id: string, log: Log, answer: Answer) returns (entry: Resolution, reported: seq<Diagnostic>)
    requires log.logIndex >= 0
    ensures entry == Resolved(id, log, answer) && reported == Reported(log, id, answer)
  {
    reported := [];
    var notFound := Resolution(id, log.logIndex, log.eventName, 0, StatusName(0), [], [], true);
    match answer
    case Failed(message) =>
      reported := [LookupFailed(id, message)];
      entry := notFound;
    case Answered(record) =>
      if record.None? || record.value.id == "" {
        entry := notFound;
      } else {
        var utx := record.value;
        var status := if utx.universalStatus.Some? then utx.universalStatus.value else 0;
        entry := Resolution(id, log.logIndex, log.eventName, status, StatusName(status),
                            PresentHashes(utx.pcTxHashes), Summaries(utx.outbounds), false);
      }
  }

  lemma {:induction false} FirstPosition(logs: seq<Log>, i: nat, n: nat)
    requires i < n <= |logs| && logs[i].logIndex >= 0 && Positions(logs, i) == []
    ensures Positions(logs, n) != [] && Positions(logs, n)[0] == i
    decreases n
  {
    if i < n - 1 {
      FirstPosition(logs, i, n - 1);
      assert Positions(logs, n - 1)[0] == i;
    } else {
      assert Positions(logs, n) == [] + [i];
    }
  }

  /** Within one transaction, ids are equal exactly for equal log indices, if the hash does not collide. */
  lemma EntriesHaveDistinctIds(world: World, chain: string, hash: string, a: Log, b: Log)
    requires Keyable(world, chain, hash)
    requires forall x, y :: world.sha(x) == world.sha(y) ==> x == y
    ensures IdAt(IdsOf(world, chain, hash), a) == IdAt(IdsOf(world, chain, hash), b) <==> a.logIndex == b.logIndex
  {
    D.SignedReadsBack(a.logIndex);
    D.SignedReadsBack(b.logIndex);
    var prefix := chain + ":" + NormalizeInboundTxHashForKey(world.bs58, chain, hash).value + ":";
    var i, j := D.SignedToString(a.logIndex), D.SignedToString(b.logIndex);
    assert (prefix + i)[|prefix|..] == i;
    assert (prefix + j)[|prefix|..] == j;
  }
}
