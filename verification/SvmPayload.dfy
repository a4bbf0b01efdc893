/**
 The binary payloads of Solana outbounds: the execute payload (big-endian lengths) and, nested
 inside it, the Borsh instruction of the CEA-to-UEA leg (little-endian lengths).

 Decoders are written from the layouts documented above the two encoders, and compared with
 what the encoders write into their buffers.
 */
module SvmPayload {
  import opened Wrappers
  import opened Strings
  import opened Arithmetic

  newtype byte = x: int | 0 <= x < 256
  type Bytes = seq<byte>

  // ---------------------------------------------------------------- fixed-width integers

  function Pow256(k: nat): (p: nat)
    ensures p > 0
  {
    if k == 0 then 1 else 256 * Pow256(k - 1)
  }

  /** The low `k` bytes of `n`, least significant first; negative numbers in two's complement. */
  function LittleEndian(n: int, k: nat): (r: Bytes)
    ensures |r| == k
    decreases k
  {
    if k == 0 then [] else [(n % 256) as byte] + LittleEndian(n / 256, k - 1)
  }

  function BigEndian(n: int, k: nat): (r: Bytes)
    ensures |r| == k
    decreases k
  {
    if k == 0 then [] else BigEndian(n / 256, k - 1) + [(n % 256) as byte]
  }

  function FromLittleEndian(b: Bytes): nat {
    if b == [] then 0 else b[0] as nat + 256 * FromLittleEndian(b[1..])
  }

  function FromBigEndian(b: Bytes): nat {
    if b == [] then 0 else 256 * FromBigEndian(b[..|b| - 1]) + b[|b| - 1] as nat
  }

  lemma ModulusStep(n: int, p: nat)
    requires p > 0
    ensures n % (256 * p) == 256 * ((n / 256) % p) + n % 256
  {
    var a, b, r := (n / 256) / p, (n / 256) % p, n % 256;
    assert n == 256 * (p * a + b) + r;
    assert 256 * (p * a) == (256 * p) * a;
    assert 0 <= 256 * b + r < 256 * p;
    Euclid(n, 256 * p, a, 256 * b + r);
  }

  /** Reading back gives the number modulo the width: the encoders wrap silently. */
  lemma {:induction false} LittleEndianValue(n: int, k: nat)
    ensures FromLittleEndian(LittleEndian(n, k)) == n % Pow256(k)
    decreases k
  {
    if k > 0 {
      LittleEndianValue(n / 256, k - 1);
      ModulusStep(n, Pow256(k - 1));
      assert LittleEndian(n, k)[1..] == LittleEndian(n / 256, k - 1);
    }
  }

  lemma {:induction false} BigEndianValue(n: int, k: nat)
    ensures FromBigEndian(BigEndian(n, k)) == n % Pow256(k)
    decreases k
  {
    if k > 0 {
      BigEndianValue(n / 256, k - 1);
      ModulusStep(n, Pow256(k - 1));
      assert BigEndian(n, k)[..k - 1] == BigEndian(n / 256, k - 1);
    }
  }

  lemma {:induction false} LittleEndianBytes(b: Bytes)
    ensures LittleEndian(FromLittleEndian(b), |b|) == b
    ensures FromLittleEndian(b) < Pow256(|b|)
  {
    if b != [] {
      LittleEndianBytes(b[1..]);
      var v := FromLittleEndian(b[1..]);
      assert (b[0] as int + 256 * v) / 256 == v && (b[0] as int + 256 * v) % 256 == b[0] as int;
    }
  }

  lemma {:induction false} BigEndianBytes(b: Bytes)
    ensures BigEndian(FromBigEndian(b), |b|) == b
    ensures FromBigEndian(b) < Pow256(|b|)
  {
    if b != [] {
      var front := b[..|b| - 1];
      BigEndianBytes(front);
      var v := FromBigEndian(front);
      assert (256 * v + b[|b| - 1] as int) / 256 == v && (256 * v + b[|b| - 1] as int) % 256 == b[|b| - 1] as int;
    }
  }

  /** `setUint32` and `setBigUint64`. */
  function U32BE(n: int): (r: Bytes)
    ensures |r| == 4
  {
    BigEndian(n, 4)
  }

  function U32LE(n: int): (r: Bytes)
    ensures |r| == 4
  {
    LittleEndian(n, 4)
  }

  function U64LE(n: int): (r: Bytes)
    ensures |r| == 8
  {
    LittleEndian(n, 8)
  }

  const TWO_32: nat := 0x1_0000_0000
  const TWO_64: nat := 0x1_0000_0000_0000_0000

  lemma Widths()
    ensures Pow256(4) == TWO_32 && Pow256(8) == TWO_64
  {
    assert Pow256(2) == 256 * Pow256(1) == 65536;
    assert Pow256(4) == 256 * Pow256(3) == 256 * (256 * Pow256(2));
    assert Pow256(6) == 256 * Pow256(5) == 256 * (256 * Pow256(4));
    assert Pow256(8) == 256 * Pow256(7) == 256 * (256 * Pow256(6));
  }

  // ---------------------------------------------------------------- hex

  predicate IsHexChar(c: char) {
    '0' <= c <= '9' || 'a' <= c <= 'f' || 'A' <= c <= 'F'
  }

  /** An even number of hex digits. */
  predicate IsHex(s: string) {
    s == "" || (|s| >= 2 && IsHexChar(s[|s| - 2]) && IsHexChar(s[|s| - 1]) && IsHex(s[..|s| - 2]))
  }

  function HexValue(c: char): (v: nat)
    requires IsHexChar(c)
    ensures v < 16
  {
    if c <= '9' then c as int - '0' as int
    else if c <= 'F' then c as int - 'A' as int + 10
    else c as int - 'a' as int + 10
  }

  function HexDigit(v: nat): (c: char)
    requires v < 16
    ensures IsHexChar(c) && HexValue(c) == v
  {
    if v < 10 then '0' + v as char else 'a' + (v - 10) as char
  }

  function HexPair(hi: char, lo: char): byte
    requires IsHexChar(hi) && IsHexChar(lo)
  {
    (16 * HexValue(hi) + HexValue(lo)) as byte
  }

  /** The bytes of a digit string, two digits a byte. */
  function Unhex(h: string): (r: Bytes)
    requires IsHex(h)
    ensures 2 * |r| == |h|
  {
    if h == "" then [] else Unhex(h[..|h| - 2]) + [HexPair(h[|h| - 2], h[|h| - 1])]
  }

  lemma {:induction false} HexPrefix(h: string, i: nat)
    requires IsHex(h) && 2 * i <= |h|
    ensures IsHex(h[..2 * i])
    ensures 2 * i < |h| ==>
              && 2 * i + 1 < |h|
              && IsHexChar(h[2 * i]) && IsHexChar(h[2 * i + 1]) && IsHex(h[..2 * i + 2])
              && Unhex(h[..2 * i + 2]) == Unhex(h[..2 * i]) + [HexPair(h[2 * i], h[2 * i + 1])]
    decreases |h|
  {
    if 2 * i == |h| {
      assert h[..2 * i] == h;
    } else {
      var front := h[..|h| - 2];
      HexIsEven(h);
      HexPrefix(front, i);
      assert front[..2 * i] == h[..2 * i];
      if 2 * i + 2 == |h| {
        assert h[..2 * i + 2] == h;
      } else {
        assert front[..2 * i + 2] == h[..2 * i + 2];
      }
    }
  }

  lemma {:induction false} HexIsEven(h: string)
    requires IsHex(h)
    ensures |h| % 2 == 0
  {
    if h != "" {
      HexIsEven(h[..|h| - 2]);
    }
  }

  /** `parseInt` of two characters in base 16, stored as a byte: what cannot be read is zero. */
  function ParsePair(hi: char, lo: char): byte {
    if IsHexChar(hi) then (if IsHexChar(lo) then HexPair(hi, lo) else HexValue(hi) as byte)
    else if !IsHexChar(lo) then 0
    else if hi == '-' then ((256 - HexValue(lo)) % 256) as byte
    else if hi == '+' || IsSpace(hi) then HexValue(lo) as byte
    else 0
  }

  /** Any string, two characters a byte; an odd one out is left over. */
  function ReadHex(h: string): (r: Bytes)
    ensures |r| == |h| / 2
  {
    seq(|h| / 2, i requires 0 <= i < |h| / 2 => ParsePair(h[2 * i], h[2 * i + 1]))
  }

  /** On hex digits that is the number they stand for. */
  lemma ReadHexIsUnhex(h: string)
    requires IsHex(h)
    ensures ReadHex(h) == Unhex(h)
  {
    HexIsEven(h);
    ReadHexPrefix(h, |h| / 2);
    assert ReadHex(h)[..|h| / 2] == ReadHex(h);
    assert h[..2 * (|h| / 2)] == h;
  }

  lemma {:induction false} ReadHexPrefix(h: string, i: nat)
    requires IsHex(h) && 2 * i <= |h|
    ensures IsHex(h[..2 * i]) && ReadHex(h)[..i] == Unhex(h[..2 * i])
  {
    if i > 0 {
      ReadHexPrefix(h, i - 1);
      HexPrefix(h, i - 1);
      assert ReadHex(h)[..i] == ReadHex(h)[..i - 1] + [ReadHex(h)[i - 1]];
    }
  }

  /** `hexToBytes`: it reads any string, with or without `0x`. */
  method HexToBytes(hex: string) returns (bytes: array<byte>)
    ensures bytes[..] == ReadHex(Strip0x(hex))
    ensures fresh(bytes)
  {
    var h := Strip0x(hex);
    bytes := new byte[|h| / 2](_ => 0);
    for i := 0 to bytes.Length
      invariant forall k :: 0 <= k < i ==> bytes[k] == ReadHex(h)[k]
    {
      bytes[i] := ParsePair(h[2 * i], h[2 * i + 1]);
    }
  }

  /** Two lower-case digits. */
  function ByteToHex(b: byte): (s: string)
    ensures |s| == 2
  {
    [HexDigit(b as nat / 16), HexDigit(b as nat % 16)]
  }

  function BytesToHex(b: Bytes): (s: string)
    ensures |s| == 2 * |b|
  {
    if b == [] then "" else BytesToHex(b[..|b| - 1]) + ByteToHex(b[|b| - 1])
  }

  lemma PairOfByte(b: byte)
    ensures
      var s := ByteToHex(b);
      IsHexChar(s[0]) && IsHexChar(s[1]) && HexPair(s[0], s[1]) == b
  {
  }

  lemma UnhexSnoc(s: string, pair: string, b: byte)
    requires IsHex(s) && |pair| == 2 && IsHexChar(pair[0]) && IsHexChar(pair[1]) && HexPair(pair[0], pair[1]) == b
    ensures IsHex(s + pair) && Unhex(s + pair) == Unhex(s) + [b]
  {
    assert (s + pair)[..|s|] == s;
  }

  lemma {:induction false} HexDigitsOfBytes(b: Bytes)
    ensures IsHex(BytesToHex(b)) && Unhex(BytesToHex(b)) == b
  {
    if b != [] {
      var front, last := b[..|b| - 1], b[|b| - 1];
      HexDigitsOfBytes(front);
      PairOfByte(last);
      UnhexSnoc(BytesToHex(front), ByteToHex(last), last);
    }
  }

  /** Writing bytes as hex and reading them back changes nothing. */
  lemma HexRoundTrip(b: Bytes)
    ensures IsHex(Strip0x("0x" + BytesToHex(b))) && Unhex(Strip0x("0x" + BytesToHex(b))) == b
  {
    HexDigitsOfBytes(b);
    var s := "0x" + BytesToHex(b);
    assert s[2..] == BytesToHex(b);
  }

  /** `isValidSolanaHexAddress`, also in upper case. */
  predicate IsPubkeyHex(s: string) {
    |s| == 66 && StartsWith0x(s) && IsHex(s[2..])
  }

  /** The bytes that a key contributes, whatever its length. */
  function KeyBytes(s: string): Bytes {
    ReadHex(Strip0x(s))
  }

  lemma PubkeyBytes(s: string)
    requires IsPubkeyHex(s)
    ensures |KeyBytes(s)| == 32 && KeyBytes(s) == Unhex(s[2..])
  {
    ReadHexIsUnhex(s[2..]);
  }

  function GetHexPayloadByteLength(payload: string): real {
    if |payload| < 2 then 0.0 else (|payload| - 2) as real / 2.0
  }

  // ---------------------------------------------------------------- execute payload

  datatype Account = Account(pubkey: string, isWritable: bool)
  datatype Fields = Fields(targetProgram: string, accounts: seq<Account>, ixData: Bytes, instructionId: int)

  /** What a reader of the layout gets to see. */
  datatype RawAccount = RawAccount(pubkey: Bytes, isWritable: bool)
  datatype RawFields = RawFields(targetProgram: Bytes, accounts: seq<RawAccount>, ixData: Bytes, instructionId: byte)

  predicate ValidFields(f: Fields) {
    && IsPubkeyHex(f.targetProgram)
    && forall i :: 0 <= i < |f.accounts| ==> IsPubkeyHex(f.accounts[i].pubkey)
  }

  predicate KeysFit(f: RawFields) {
    && |f.targetProgram| == 32
    && (forall i :: 0 <= i < |f.accounts| ==> |f.accounts[i].pubkey| == 32)
  }

  predicate ValidRaw(f: RawFields) {
    && KeysFit(f)
    && |f.accounts| < TWO_32 && |f.ixData| < TWO_32
  }

  function RawAccounts(accounts: seq<Account>): (r: seq<RawAccount>)
    ensures |r| == |accounts|
  {
    seq(|accounts|, i requires 0 <= i < |accounts| =>
      RawAccount(KeyBytes(accounts[i].pubkey), accounts[i].isWritable))
  }

  function Raw(f: Fields): RawFields {
    RawFields(KeyBytes(f.targetProgram), RawAccounts(f.accounts), f.ixData, (f.instructionId % 256) as byte)
  }

  function AccountBytes(a: RawAccount): Bytes {
    a.pubkey + [if a.isWritable then 1 else 0]
  }

  function AccountsBytes(accounts: seq<RawAccount>): Bytes {
    if accounts == [] then [] else AccountsBytes(accounts[..|accounts| - 1]) + AccountBytes(accounts[|accounts| - 1])
  }

  /** The documented layout, around two length prefixes. */
  function Framed(count: Bytes, len: Bytes, f: RawFields): Bytes {
    count + (AccountsBytes(f.accounts) + (len + (f.ixData + ([f.instructionId] + f.targetProgram))))
  }

  function Layout(f: RawFields): Bytes {
    Framed(U32BE(|f.accounts|), U32BE(|f.ixData|), f)
  }

  lemma {:induction false} AccountsLength(accounts: seq<RawAccount>)
    requires forall i :: 0 <= i < |accounts| ==> |accounts[i].pubkey| == 32
    ensures |AccountsBytes(accounts)| == 33 * |accounts|
  {
    if accounts != [] {
      AccountsLength(accounts[..|accounts| - 1]);
    }
  }

  function Zeros(n: nat): (r: Bytes)
    ensures |r| == n && forall i :: 0 <= i < n ==> r[i] == 0
  {
    seq(n, _ => 0)
  }

  // ---------------------------------------------------------------- writing into the buffer

  datatype Error = RangeError

  /** `Uint8Array.set`: writes over what is there, and refuses to write past the end. */
  function Place(b: Option<Bytes>, s: Bytes, at: nat): Option<Bytes> {
    if b.None? || at + |s| > |b.value| then None else Some(b.value[..at] + s + b.value[at + |s|..])
  }

  /** The writes for the accounts, 33 bytes apart however long the keys are. */
  function PlaceAccounts(b: Option<Bytes>, accounts: seq<RawAccount>): Option<Bytes> {
    if accounts == [] then b
    else
      var i := |accounts| - 1;
      PlaceAccount(PlaceAccounts(b, accounts[..i]), accounts[i], 4 + 33 * i)
  }

  function PlaceAccount(b: Option<Bytes>, a: RawAccount, at: nat): Option<Bytes> {
    Place(Place(b, a.pubkey, at), [if a.isWritable then 1 else 0], at + 32)
  }

  function TotalSize(f: RawFields): nat {
    4 + 33 * |f.accounts| + 4 + |f.ixData| + 1 + 32
  }

  /** The instruction data behind its length. */
  function PlaceData(b: Option<Bytes>, ixData: Bytes, at: nat): Option<Bytes> {
    Place(Place(b, U32BE(|ixData|), at), ixData, at + 4)
  }

  /** The instruction id and the target program. */
  function PlaceTarget(b: Option<Bytes>, id: byte, target: Bytes, at: nat): Option<Bytes> {
    Place(Place(b, [id], at), target, at + 1)
  }

  /** All writes of the encoder, into a buffer of zeros. */
  function Placed(f: RawFields): Option<Bytes> {
    PlaceRest(PlaceAccounts(Place(Some(Zeros(TotalSize(f))), U32BE(|f.accounts|), 0), f.accounts), f)
  }

  function PlaceRest(b: Option<Bytes>, f: RawFields): Option<Bytes> {
    var at := 4 + 33 * |f.accounts|;
    PlaceTarget(PlaceData(b, f.ixData, at), f.instructionId, f.targetProgram, at + 4 + |f.ixData|)
  }

  function Printed(b: Option<Bytes>): Outcome<string, Error> {
    if b.None? then Err(RangeError) else Ok("0x" + BytesToHex(b.value))
  }

  method Put(buffer: array<byte>, bytes: Bytes, offset: nat) returns (ok: bool)
    modifies buffer
    ensures (if ok then Some(buffer[..]) else None) == Place(Some(old(buffer[..])), bytes, offset)
  {
    if offset + |bytes| > buffer.Length {
      return false;
    }
    for i := 0 to |bytes|
      invariant forall k :: 0 <= k < buffer.Length ==>
                  buffer[k] == if offset <= k < offset + i then bytes[k - offset] else old(buffer[k])
    {
      buffer[offset + i] := bytes[i];
    }
    assert buffer[..] == old(buffer[..])[..offset] + bytes + old(buffer[..])[offset + |bytes|..];
    return true;
  }

  /** `encodeSvmExecutePayload`; an error is the exception of a write past the end. */
  method EncodeSvmExecutePayload(f: Fields) returns (r: Outcome<string, Error>)
    ensures r == Printed(Placed(Raw(f)))
    ensures r.Ok? ==> GetHexPayloadByteLength(r.value) ==
                      (4 + 33 * |f.accounts| + 4 + |f.ixData| + 1 + 32) as real
  {
    var totalSize := 4 + 33 * |f.accounts| + 4 + |f.ixData| + 1 + 32;
    var buffer := new byte[totalSize](_ => 0);
    assert buffer[..] == Zeros(TotalSize(Raw(f)));
    var ok := WriteFields(buffer, f);
    if !ok {
      return Err(RangeError);
    }
    r := Ok("0x" + BytesToHex(buffer[..]));
  }

  /** The writes, `offset` running from zero to the end of the buffer. */
  method WriteFields(buffer: array<byte>, f: Fields) returns (ok: bool)
    requires buffer[..] == Zeros(TotalSize(Raw(f)))
    modifies buffer
    ensures (if ok then Some(buffer[..]) else None) == Placed(Raw(f))
  {
    ok := Put(buffer, U32BE(|f.accounts|), 0);
    ok := WriteAccounts(buffer, f.accounts);
    if !ok {
      RestOfNone(Raw(f));
      return;
    }
    ok := WriteRest(buffer, f);
  }

  lemma RestOfNone(f: RawFields)
    ensures PlaceRest(None, f) == None
  {
  }

  method WriteRest(buffer: array<byte>, f: Fields) returns (ok: bool)
    requires buffer.Length == TotalSize(Raw(f))
    modifies buffer
    ensures (if ok then Some(buffer[..]) else None) == PlaceRest(Some(old(buffer[..])), Raw(f))
  {
    var offset := 4 + 33 * |f.accounts|;
    WriteData(buffer, f.ixData, offset);
    offset := offset + 4 + |f.ixData|;
    ok := WriteTarget(buffer, (f.instructionId % 256) as byte, f.targetProgram, offset);
  }

  method WriteData(buffer: array<byte>, ixData: Bytes, offset: nat)
    requires offset + 4 + |ixData| <= buffer.Length
    modifies buffer
    ensures Some(buffer[..]) == PlaceData(Some(old(buffer[..])), ixData, offset)
  {
    var ok := Put(buffer, U32BE(|ixData|), offset);
    ok := Put(buffer, ixData, offset + 4);
  }

  method WriteTarget(buffer: array<byte>, id: byte, targetProgram: string, offset: nat) returns (ok: bool)
    requires offset < buffer.Length
    modifies buffer
    ensures (if ok then Some(buffer[..]) else None) ==
            PlaceTarget(Some(old(buffer[..])), id, KeyBytes(targetProgram), offset)
  {
    ok := Put(buffer, [id], offset);
    var target := HexToBytes(targetProgram);
    ok := Put(buffer, target[..], offset + 1);
  }

  method WriteAccounts(buffer: array<byte>, accounts: seq<Account>) returns (ok: bool)
    requires 4 + 33 * |accounts| <= buffer.Length
    modifies buffer
    ensures (if ok then Some(buffer[..]) else None) == PlaceAccounts(Some(old(buffer[..])), RawAccounts(accounts))
  {
    ghost var raw := RawAccounts(accounts);
    var offset := 4;
    for i := 0 to |accounts|
      invariant offset == 4 + 33 * i
      invariant Some(buffer[..]) == PlaceAccounts(Some(old(buffer[..])), raw[..i])
    {
      PlaceStep(Some(old(buffer[..])), raw, i);
      ok := WriteAccount(buffer, accounts[i], offset);
      if !ok {
        PlaceNone(Some(old(buffer[..])), raw, i + 1);
        return;
      }
      offset := offset + 33;
    }
    assert raw[..|accounts|] == raw;
    ok := true;
  }

  lemma PlaceStep(b: Option<Bytes>, accounts: seq<RawAccount>, i: nat)
    requires i < |accounts|
    ensures PlaceAccounts(b, accounts[..i + 1]) == PlaceAccount(PlaceAccounts(b, accounts[..i]), accounts[i], 4 + 33 * i)
  {
    assert accounts[..i + 1][..i] == accounts[..i];
  }

  /** The key, then the writable flag 32 bytes on. */
  method WriteAccount(buffer: array<byte>, account: Account, offset: nat) returns (ok: bool)
    requires offset + 33 <= buffer.Length
    modifies buffer
    ensures (if ok then Some(buffer[..]) else None) ==
            PlaceAccount(Some(old(buffer[..])), RawAccount(KeyBytes(account.pubkey), account.isWritable), offset)
  {
    var key := HexToBytes(account.pubkey);
    ok := Put(buffer, key[..], offset);
    if ok {
      ok := Put(buffer, [if account.isWritable then 1 else 0], offset + 32);
    }
  }

  /** Once a write has failed, nothing more is written. */
  lemma {:induction false} PlaceNone(b: Option<Bytes>, accounts: seq<RawAccount>, i: nat)
    requires i <= |accounts| && PlaceAccounts(b, accounts[..i]).None?
    ensures PlaceAccounts(b, accounts).None?
    decreases |accounts|
  {
    if i < |accounts| {
      var front := accounts[..|accounts| - 1];
      assert front[..i] == accounts[..i];
      PlaceNone(b, front, i);
    } else {
      assert accounts[..i] == accounts;
    }
  }

  // ---------------------------------------------------------------- the writes tile the buffer

  lemma {:induction false} ZerosSum(m: nat, n: nat)
    ensures Zeros(m) + Zeros(n) == Zeros(m + n)
  {
  }

  /** A write at the end of what has been written so far. */
  lemma PlaceNext(written: Bytes, s: Bytes, k: nat)
    requires |s| <= k
    ensures Place(Some(written + Zeros(k)), s, |written|) == Some(written + s + Zeros(k - |s|))
  {
    ZerosSum(|s|, k - |s|);
    var b := written + Zeros(k);
    assert b[..|written|] == written;
    assert b[|written| + |s|..] == Zeros(k - |s|);
  }

  function Pad(key: Bytes): (r: Bytes)
    requires |key| <= 32
    ensures |r| == 32 && (|key| == 32 ==> r == key)
  {
    key + Zeros(32 - |key|)
  }

  predicate KeysAreShort(f: RawFields) {
    && |f.targetProgram| <= 32
    && forall i :: 0 <= i < |f.accounts| ==> |f.accounts[i].pubkey| <= 32
  }

  function PaddedAccounts(accounts: seq<RawAccount>): (r: seq<RawAccount>)
    requires forall i :: 0 <= i < |accounts| ==> |accounts[i].pubkey| <= 32
    ensures |r| == |accounts|
    ensures forall i :: 0 <= i < |r| ==> r[i] == RawAccount(Pad(accounts[i].pubkey), accounts[i].isWritable)
  {
    seq(|accounts|, i requires 0 <= i < |accounts| => RawAccount(Pad(accounts[i].pubkey), accounts[i].isWritable))
  }

  function Padded(f: RawFields): (r: RawFields)
    requires KeysAreShort(f)
    ensures KeysFit(r) && (KeysFit(f) ==> r == f)
  {
    var r := RawFields(Pad(f.targetProgram), PaddedAccounts(f.accounts), f.ixData, f.instructionId);
    assert KeysFit(f) ==> r.accounts == f.accounts && r.targetProgram == f.targetProgram;
    r
  }

  lemma {:induction false} PlaceShortAccounts(count: Bytes, accounts: seq<RawAccount>, k: nat)
    requires |count| == 4 && forall i :: 0 <= i < |accounts| ==> |accounts[i].pubkey| <= 32
    ensures PlaceAccounts(Some(count + Zeros(33 * |accounts| + k)), accounts) ==
            Some(count + AccountsBytes(PaddedAccounts(accounts)) + Zeros(k))
    decreases |accounts|
  {
    var raw := PaddedAccounts(accounts);
    if accounts == [] {
      assert count + AccountsBytes(raw) == count;
    } else {
      var n := |accounts| - 1;
      var front, last := accounts[..n], accounts[n];
      assert PaddedAccounts(front) == raw[..n];
      PlaceShortAccounts(count, front, 33 + k);
      AccountsLength(raw[..n]);
      PlaceShortAccount(count + AccountsBytes(raw[..n]), last, k);
      Regroup2(count, AccountsBytes(raw[..n]), AccountBytes(raw[n]));
    }
  }

  lemma PlaceShortAccount(written: Bytes, a: RawAccount, k: nat)
    requires |a.pubkey| <= 32
    ensures
      PlaceAccount(Some(written + Zeros(33 + k)), a, |written|) ==
      Some(written + AccountBytes(RawAccount(Pad(a.pubkey), a.isWritable)) + Zeros(k))
  {
    var flag: byte := if a.isWritable then 1 else 0;
    PlaceNext(written, a.pubkey, 33 + k);
    ZerosSum(32 - |a.pubkey|, 1 + k);
    Regroup2(written, a.pubkey, Zeros(32 - |a.pubkey|));
    Regroup2(written + a.pubkey, Zeros(32 - |a.pubkey|), Zeros(1 + k));
    PlaceNext(written + Pad(a.pubkey), [flag], 1 + k);
    Regroup2(written, Pad(a.pubkey), [flag]);
  }

  /**
   The writes tile the buffer without gap or overlap: what is in it at the end is the documented
   layout. Keys shorter than 32 bytes are padded with zeros.
   */
  lemma TilesTheBuffer(f: RawFields)
    requires KeysAreShort(f)
    ensures Placed(f) == Some(Layout(Padded(f)))
    ensures KeysFit(f) ==> Placed(f) == Some(Layout(f))
  {
    var k := 4 + |f.ixData| + 1 + 32;
    var count, len, id := U32BE(|f.accounts|), U32BE(|f.ixData|), [f.instructionId];
    var accounts := AccountsBytes(PaddedAccounts(f.accounts));
    AccountsLength(PaddedAccounts(f.accounts));
    PlaceCount(count, TotalSize(f));
    PlaceShortAccounts(count, f.accounts, k);
    RestTiles(count + accounts, f);
    Regroup(count, accounts, len, f.ixData, id, Pad(f.targetProgram));
  }

  lemma RestTiles(written: Bytes, f: RawFields)
    requires |f.targetProgram| <= 32 && |written| == 4 + 33 * |f.accounts|
    ensures PlaceRest(Some(written + Zeros(4 + |f.ixData| + 1 + 32)), f) ==
            Some(written + U32BE(|f.ixData|) + f.ixData + [f.instructionId] + Pad(f.targetProgram))
  {
    DataTiles(written, f.ixData, 33);
    TargetTiles(written + U32BE(|f.ixData|) + f.ixData, f.instructionId, f.targetProgram);
  }

  lemma PlaceCount(count: Bytes, size: nat)
    requires |count| == 4 <= size
    ensures Place(Some(Zeros(size)), count, 0) == Some(count + Zeros(size - 4))
  {
    PlaceNext([], count, size);
    assert [] + Zeros(size) == Zeros(size) && [] + count == count;
  }

  lemma DataTiles(written: Bytes, ixData: Bytes, k: nat)
    ensures PlaceData(Some(written + Zeros(4 + |ixData| + k)), ixData, |written|) ==
            Some(written + U32BE(|ixData|) + ixData + Zeros(k))
  {
    PlaceNext(written, U32BE(|ixData|), 4 + |ixData| + k);
    PlaceNext(written + U32BE(|ixData|), ixData, |ixData| + k);
  }

  lemma TargetTiles(written: Bytes, id: byte, target: Bytes)
    requires |target| <= 32
    ensures PlaceTarget(Some(written + Zeros(33)), id, target, |written|) == Some(written + [id] + Pad(target))
  {
    PlaceNext(written, [id], 33);
    PlaceNext(written + [id], target, 32);
    Regroup2(written + [id], target, Zeros(32 - |target|));
  }

  // ---------------------------------------------------------------- the exception

  predicate TooLong(f: RawFields, i: nat)
    requires i < |f.accounts|
  {
    4 + 33 * i + |f.accounts[i].pubkey| > TotalSize(f)
  }

  /**
   The encoder throws exactly when the target program is longer than 32 bytes, or an account's
   key reaches past the end of the buffer.
   */
  lemma RangeErrorIff(f: RawFields)
    ensures Placed(f).None? <==> |f.targetProgram| > 32 || exists i :: 0 <= i < |f.accounts| && TooLong(f, i)
    ensures Placed(f).Some? ==> |Placed(f).value| == TotalSize(f)
  {
    var b := Place(Some(Zeros(TotalSize(f))), U32BE(|f.accounts|), 0).value;
    AccountsFitIff(b, f.accounts);
    assert forall i :: 0 <= i < |f.accounts| ==> (TooLong(f, i) <==> PastEnd(b, f.accounts, i));
  }

  predicate PastEnd(b: Bytes, accounts: seq<RawAccount>, i: nat)
    requires i < |accounts|
  {
    4 + 33 * i + |accounts[i].pubkey| > |b|
  }

  lemma {:induction false} AccountsFitIff(b: Bytes, accounts: seq<RawAccount>)
    requires 4 + 33 * |accounts| <= |b|
    ensures PlaceAccounts(Some(b), accounts).None? <==> exists i :: 0 <= i < |accounts| && PastEnd(b, accounts, i)
    ensures PlaceAccounts(Some(b), accounts).Some? ==> |PlaceAccounts(Some(b), accounts).value| == |b|
  {
    if accounts != [] {
      var n := |accounts| - 1;
      AccountsFitIff(b, accounts[..n]);
      assert forall i :: 0 <= i < n ==> (PastEnd(b, accounts[..n], i) <==> PastEnd(b, accounts, i));
      assert PlaceAccounts(Some(b), accounts).None? <==>
             PlaceAccounts(Some(b), accounts[..n]).None? || PastEnd(b, accounts, n);
    }
  }

  lemma Regroup(a: Bytes, b: Bytes, c: Bytes, d: Bytes, e: Bytes, g: Bytes)
    ensures a + b + c + d + e + g == a + (b + (c + (d + (e + g))))
  {
  }

  lemma Regroup2(a: Bytes, b: Bytes, c: Bytes)
    ensures a + b + c == a + (b + c)
  {
  }

  // ---------------------------------------------------------------- keys that are too long

  predicate KeysAreLong(f: RawFields) {
    && |f.targetProgram| == 32
    && forall i :: 0 <= i < |f.accounts| ==> |f.accounts[i].pubkey| >= 32
  }

  function CutAccounts(accounts: seq<RawAccount>): (r: seq<RawAccount>)
    requires forall i :: 0 <= i < |accounts| ==> |accounts[i].pubkey| >= 32
    ensures |r| == |accounts|
    ensures forall i :: 0 <= i < |r| ==> r[i] == RawAccount(accounts[i].pubkey[..32], accounts[i].isWritable)
  {
    seq(|accounts|, i requires 0 <= i < |accounts| => RawAccount(accounts[i].pubkey[..32], accounts[i].isWritable))
  }

  /** A write at the end of what is settled so far, whatever lies behind it. */
  lemma PlaceOver(b: Bytes, written: Bytes, s: Bytes)
    requires |written| + |s| <= |b| && b[..|written|] == written
    ensures
      var r := Place(Some(b), s, |written|);
      && r.Some? && |r.value| == |b| && r.value[..|written| + |s|] == written + s
      && (|written| + |s| == |b| ==> r.value == written + s)
  {
    assert b[|b|..] == [];
  }

  lemma PlaceLongAccount(b: Bytes, written: Bytes, a: RawAccount)
    requires |a.pubkey| >= 32 && |written| + |a.pubkey| <= |b| && |written| + 33 <= |b|
    requires b[..|written|] == written
    ensures
      var r := PlaceAccount(Some(b), a, |written|);
      && r.Some? && |r.value| == |b|
      && r.value[..|written| + 33] == written + AccountBytes(RawAccount(a.pubkey[..32], a.isWritable))
  {
    var flag: byte := if a.isWritable then 1 else 0;
    PlaceOver(b, written, a.pubkey);
    var b1 := Place(Some(b), a.pubkey, |written|).value;
    assert b1[..|written| + 32] == b1[..|written| + |a.pubkey|][..|written| + 32];
    assert (written + a.pubkey)[..|written| + 32] == written + a.pubkey[..32];
    PlaceOver(b1, written + a.pubkey[..32], [flag]);
    Regroup2(written, a.pubkey[..32], [flag]);
  }

  /** A buffer that begins with what is settled. */
  predicate Begins(r: Option<Bytes>, size: nat, written: Bytes) {
    r.Some? && |r.value| == size && |written| <= size && r.value[..|written|] == written
  }

  lemma {:induction false} PlaceLongAccounts(b: Bytes, count: Bytes, accounts: seq<RawAccount>)
    requires |count| == 4 && 4 + 33 * |accounts| <= |b| && b[..4] == count
    requires forall i :: 0 <= i < |accounts| ==> |accounts[i].pubkey| >= 32 && !PastEnd(b, accounts, i)
    ensures Begins(PlaceAccounts(Some(b), accounts), |b|, count + AccountsBytes(CutAccounts(accounts)))
    decreases |accounts|
  {
    var raw := CutAccounts(accounts);
    if accounts == [] {
      assert count + AccountsBytes(raw) == count;
    } else {
      var n := |accounts| - 1;
      var front, last := accounts[..n], accounts[n];
      assert forall i :: 0 <= i < n ==> front[i] == accounts[i] && (PastEnd(b, front, i) <==> PastEnd(b, accounts, i));
      PlaceLongAccounts(b, count, front);
      assert CutAccounts(front) == raw[..n];
      assert !PastEnd(b, accounts, n);
      LongStep(b, count, accounts, raw);
    }
  }

  lemma LongStep(b: Bytes, count: Bytes, accounts: seq<RawAccount>, raw: seq<RawAccount>)
    requires |count| == 4 && accounts != [] && |raw| == |accounts| && 4 + 33 * |accounts| <= |b|
    requires forall i :: 0 <= i < |raw| ==> |raw[i].pubkey| == 32
    requires
      var n := |accounts| - 1;
      && |accounts[n].pubkey| >= 32 && !PastEnd(b, accounts, n)
      && raw[n] == RawAccount(accounts[n].pubkey[..32], accounts[n].isWritable)
      && Begins(PlaceAccounts(Some(b), accounts[..n]), |b|, count + AccountsBytes(raw[..n]))
    ensures Begins(PlaceAccounts(Some(b), accounts), |b|, count + AccountsBytes(raw))
  {
    var n := |accounts| - 1;
    LastStep(Some(b), accounts, raw);
    OneMoreLong(PlaceAccounts(Some(b), accounts[..n]), |b|, count, raw[..n], accounts[n]);
  }

  lemma OneMoreLong(r: Option<Bytes>, size: nat, count: Bytes, before: seq<RawAccount>, a: RawAccount)
    requires |count| == 4 && forall i :: 0 <= i < |before| ==> |before[i].pubkey| == 32
    requires |a.pubkey| >= 32 && 4 + 33 * |before| + |a.pubkey| <= size && 4 + 33 * |before| + 33 <= size
    requires Begins(r, size, count + AccountsBytes(before))
    ensures Begins(PlaceAccount(r, a, 4 + 33 * |before|), size,
                   count + (AccountsBytes(before) + AccountBytes(RawAccount(a.pubkey[..32], a.isWritable))))
  {
    AccountsLength(before);
    PlaceLongAccount(r.value, count + AccountsBytes(before), a);
    Regroup2(count, AccountsBytes(before), AccountBytes(RawAccount(a.pubkey[..32], a.isWritable)));
  }

  lemma LastStep(b: Option<Bytes>, accounts: seq<RawAccount>, raw: seq<RawAccount>)
    requires accounts != [] && |raw| == |accounts|
    ensures
      var n := |accounts| - 1;
      && PlaceAccounts(b, accounts) == PlaceAccount(PlaceAccounts(b, accounts[..n]), accounts[n], 4 + 33 * n)
      && AccountsBytes(raw) == AccountsBytes(raw[..n]) + AccountBytes(raw[n])
  {
  }

  lemma RestOver(b: Bytes, written: Bytes, f: RawFields)
    requires |f.targetProgram| == 32 && |written| == 4 + 33 * |f.accounts|
    requires |b| == TotalSize(f) && b[..|written|] == written
    ensures PlaceRest(Some(b), f) ==
            Some(written + U32BE(|f.ixData|) + f.ixData + [f.instructionId] + f.targetProgram)
  {
    var len := U32BE(|f.ixData|);
    PlaceOver(b, written, len);
    var b1 := Place(Some(b), len, |written|).value;
    PlaceOver(b1, written + len, f.ixData);
    var b2 := Place(Some(b1), f.ixData, |written| + 4).value;
    PlaceOver(b2, written + len + f.ixData, [f.instructionId]);
    var b3 := Place(Some(b2), [f.instructionId], |written| + 4 + |f.ixData|).value;
    PlaceOver(b3, written + len + f.ixData + [f.instructionId], f.targetProgram);
  }

  /** Account keys of more than 32 bytes that stay inside the buffer are cut to 32, without an error. */
  lemma LongKeysAreCut(f: RawFields)
    requires KeysAreLong(f) && Placed(f).Some?
    ensures Placed(f) == Some(Layout(f.(accounts := CutAccounts(f.accounts))))
  {
    var count := U32BE(|f.accounts|);
    PlaceCount(count, TotalSize(f));
    var b := count + Zeros(TotalSize(f) - 4);
    RangeErrorIff(f);
    assert forall i :: 0 <= i < |f.accounts| ==> (TooLong(f, i) <==> PastEnd(b, f.accounts, i));
    PlaceLongAccounts(b, count, f.accounts);
    var accounts := AccountsBytes(CutAccounts(f.accounts));
    AccountsLength(CutAccounts(f.accounts));
    RestOver(PlaceAccounts(Some(b), f.accounts).value, count + accounts, f);
    Regroup(count, accounts, U32BE(|f.ixData|), f.ixData, [f.instructionId], f.targetProgram);
  }

  // ---------------------------------------------------------------- decoder

  function DecodeAccounts(b: Bytes, n: nat): Option<seq<RawAccount>>
    requires |b| == 33 * n
  {
    if n == 0 then Some([])
    else
      var at := |b| - 33;
      var rest := DecodeAccounts(b[..at], n - 1);
      if rest.None? || b[at + 32] > 1 then None
      else Some(rest.value + [RawAccount(b[at..at + 32], b[at + 32] == 1)])
  }

  /** Reads the documented layout; every byte must be accounted for. */
  function Decode(b: Bytes): Option<RawFields> {
    if |b| < 4 then None else DecodeBody(FromBigEndian(b[..4]), b[4..])
  }

  function DecodeBody(n: nat, b: Bytes): Option<RawFields> {
    if |b| < 33 * n + 4 then None
    else DecodeTail(DecodeAccounts(b[..33 * n], n), FromBigEndian(b[33 * n..33 * n + 4]), b[33 * n + 4..])
  }

  function DecodeTail(accounts: Option<seq<RawAccount>>, m: nat, b: Bytes): Option<RawFields> {
    if accounts.None? || |b| != m + 33 then None
    else Some(RawFields(b[m + 1..], accounts.value, b[..m], b[m]))
  }

  lemma {:induction false} DecodeAccountsInverse(accounts: seq<RawAccount>)
    requires forall i :: 0 <= i < |accounts| ==> |accounts[i].pubkey| == 32
    ensures |AccountsBytes(accounts)| == 33 * |accounts|
    ensures DecodeAccounts(AccountsBytes(accounts), |accounts|) == Some(accounts)
  {
    AccountsLength(accounts);
    if accounts != [] {
      var front, last := accounts[..|accounts| - 1], accounts[|accounts| - 1];
      AccountsLength(front);
      DecodeAccountsInverse(front);
      DecodeOneMore(AccountsBytes(front), front, last);
      Snoc(accounts);
    }
  }

  lemma Snoc(accounts: seq<RawAccount>)
    requires accounts != []
    ensures accounts == accounts[..|accounts| - 1] + [accounts[|accounts| - 1]]
  {
  }

  lemma DecodeOneMore(b: Bytes, accounts: seq<RawAccount>, last: RawAccount)
    requires |b| == 33 * |accounts| && DecodeAccounts(b, |accounts|) == Some(accounts) && |last.pubkey| == 32
    ensures DecodeAccounts(b + AccountBytes(last), |accounts| + 1) == Some(accounts + [last])
  {
    CutAccount(b, last.pubkey, if last.isWritable then 1 else 0);
    DecodeStep(b + AccountBytes(last), |accounts| + 1, accounts);
  }

  lemma DecodeStep(b: Bytes, n: nat, front: seq<RawAccount>)
    requires n > 0 && |b| == 33 * n && b[|b| - 1] <= 1
    requires DecodeAccounts(b[..|b| - 33], n - 1) == Some(front)
    ensures DecodeAccounts(b, n) == Some(front + [RawAccount(b[|b| - 33..|b| - 1], b[|b| - 1] == 1)])
  {
  }

  lemma CutAccount(b: Bytes, key: Bytes, flag: byte)
    requires |key| == 32
    ensures
      var whole := b + (key + [flag]);
      whole[..|b|] == b && whole[|b|..|b| + 32] == key && whole[|b| + 32] == flag
  {
  }

  lemma {:induction false} DecodeAccountsExact(b: Bytes, n: nat)
    requires |b| == 33 * n && DecodeAccounts(b, n).Some?
    ensures
      var r := DecodeAccounts(b, n).value;
      && |r| == n && (forall i :: 0 <= i < n ==> |r[i].pubkey| == 32)
      && AccountsBytes(r) == b
  {
    if n > 0 {
      var at := |b| - 33;
      DecodeAccountsExact(b[..at], n - 1);
      LastAccount(b, n);
      JoinAccount(b);
    }
  }

  lemma LastAccount(b: Bytes, n: nat)
    requires |b| == 33 * n && n > 0 && DecodeAccounts(b, n).Some?
    ensures
      var at := |b| - 33;
      var front := DecodeAccounts(b[..at], n - 1);
      && front.Some?
      && DecodeAccounts(b, n).value == front.value + [RawAccount(b[at..at + 32], b[at + 32] == 1)]
      && b[at + 32] == (if b[at + 32] == 1 then 1 else 0)
  {
  }

  lemma JoinAccount(b: Bytes)
    requires |b| >= 33
    ensures var at := |b| - 33; b == b[..at] + (b[at..at + 32] + [b[at + 32]])
  {
  }

  lemma U32BEValue(n: nat)
    requires n < TWO_32
    ensures FromBigEndian(U32BE(n)) == n
  {
    Widths();
    BigEndianValue(n, 4);
    Euclid(n, TWO_32, 0, n);
  }

  lemma U32BEBytes(b: Bytes)
    requires |b| == 4
    ensures U32BE(FromBigEndian(b)) == b && FromBigEndian(b) < TWO_32
  {
    Widths();
    BigEndianBytes(b);
  }

  /** Cutting a concatenation at its seams. */
  lemma Cut2(x: Bytes, y: Bytes)
    ensures (x + y)[..|x|] == x && (x + y)[|x|..] == y
  {
  }

  lemma Cut3(x: Bytes, y: Bytes, z: Bytes)
    ensures (x + (y + z))[..|x|] == x && (x + (y + z))[|x|..|x| + |y|] == y && (x + (y + z))[|x| + |y|..] == z
  {
  }

  lemma DecodeBodyParts(n: nat, accounts: Bytes, len: Bytes, tail: Bytes)
    requires |accounts| == 33 * n && |len| == 4
    ensures DecodeBody(n, accounts + (len + tail)) ==
            DecodeTail(DecodeAccounts(accounts, n), FromBigEndian(len), tail)
  {
    Cut3(accounts, len, tail);
    var b := accounts + (len + tail);
    assert b[..33 * n] == accounts && b[33 * n..33 * n + 4] == len && b[33 * n + 4..] == tail;
  }

  lemma DecodePrefix(count: Bytes, body: Bytes)
    requires |count| == 4
    ensures Decode(count + body) == DecodeBody(FromBigEndian(count), body)
  {
    Cut2(count, body);
  }

  lemma DecodeFramed(count: Bytes, len: Bytes, f: RawFields)
    requires |count| == 4 && |len| == 4 && ValidRaw(f)
    requires FromBigEndian(count) == |f.accounts| && FromBigEndian(len) == |f.ixData|
    ensures Decode(Framed(count, len, f)) == Some(f)
  {
    var accounts := AccountsBytes(f.accounts);
    var tail := f.ixData + ([f.instructionId] + f.targetProgram);
    var body := accounts + (len + tail);
    DecodeAccountsInverse(f.accounts);
    DecodePrefix(count, body);
    DecodeBodyParts(|f.accounts|, accounts, len, tail);
    DecodeTailParts(f);
  }

  lemma DecodeTailParts(f: RawFields)
    requires |f.targetProgram| == 32
    ensures DecodeTail(Some(f.accounts), |f.ixData|, f.ixData + ([f.instructionId] + f.targetProgram)) == Some(f)
  {
    Cut3(f.ixData, [f.instructionId], f.targetProgram);
  }

  lemma FramedOfDecoded(b: Bytes)
    requires Decode(b).Some?
    ensures
      var f := Decode(b).value;
      var n := FromBigEndian(b[..4]);
      && |b| >= 8 + 33 * n
      && var len := b[4 + 33 * n..8 + 33 * n];
         && |f.accounts| == n && |f.ixData| == FromBigEndian(len) && KeysFit(f)
         && Framed(b[..4], len, f) == b
  {
    var body, n := b[4..], FromBigEndian(b[..4]);
    Join(b, 4);
    DecodedBody(n, body);
    assert body[33 * n..33 * n + 4] == b[4 + 33 * n..8 + 33 * n];
  }

  lemma DecodedBody(n: nat, b: Bytes)
    requires DecodeBody(n, b).Some?
    ensures
      var f := DecodeBody(n, b).value;
      && |b| >= 33 * n + 4
      && var len := b[33 * n..33 * n + 4];
         && |f.accounts| == n && |f.ixData| == FromBigEndian(len) && KeysFit(f)
         && b == AccountsBytes(f.accounts) + (len + (f.ixData + ([f.instructionId] + f.targetProgram)))
  {
    var accounts, len, tail := b[..33 * n], b[33 * n..33 * n + 4], b[33 * n + 4..];
    DecodeAccountsExact(accounts, n);
    Join3(b, 33 * n, 4);
    DecodedTail(DecodeAccounts(accounts, n), FromBigEndian(len), tail);
  }

  lemma DecodedTail(accounts: Option<seq<RawAccount>>, m: nat, b: Bytes)
    requires DecodeTail(accounts, m, b).Some?
    ensures
      var f := DecodeTail(accounts, m, b).value;
      && accounts == Some(f.accounts) && |f.ixData| == m && |f.targetProgram| == 32
      && b == f.ixData + ([f.instructionId] + f.targetProgram)
  {
    Join3(b, m, 1);
    assert b[m..m + 1] == [b[m]];
  }

  /** Decoding what was encoded gives the fields back. */
  lemma DecodeLayout(f: RawFields)
    requires ValidRaw(f)
    ensures Decode(Layout(f)) == Some(f)
  {
    U32BEValue(|f.accounts|);
    U32BEValue(|f.ixData|);
    DecodeFramed(U32BE(|f.accounts|), U32BE(|f.ixData|), f);
  }

  lemma PrefixesReencode(count: Bytes, len: Bytes, f: RawFields, b: Bytes)
    requires |count| == 4 && |len| == 4
    requires |f.accounts| == FromBigEndian(count) && |f.ixData| == FromBigEndian(len)
    requires KeysFit(f) && Framed(count, len, f) == b
    ensures ValidRaw(f) && Layout(f) == b
  {
    U32BEBytes(count);
    U32BEBytes(len);
  }

  /** And nothing else decodes: a payload is accepted only if it is the layout of its fields. */
  lemma DecodeIsExact(b: Bytes)
    requires Decode(b).Some?
    ensures ValidRaw(Decode(b).value) && Layout(Decode(b).value) == b
  {
    FramedOfDecoded(b);
    var n := FromBigEndian(b[..4]);
    PrefixesReencode(b[..4], b[4 + 33 * n..8 + 33 * n], Decode(b).value, b);
  }

  lemma Join(b: Bytes, i: nat)
    requires i <= |b|
    ensures b == b[..i] + b[i..]
  {
  }

  lemma Join3(b: Bytes, i: nat, k: nat)
    requires i + k <= |b|
    ensures b == b[..i] + (b[i..i + k] + b[i + k..])
  {
  }

  /** Two payloads are equal only if all fields are. */
  lemma EncodingIsInjective(f: RawFields, g: RawFields)
    requires ValidRaw(f) && ValidRaw(g)
    requires "0x" + BytesToHex(Layout(f)) == "0x" + BytesToHex(Layout(g))
    ensures f == g
  {
    var a, b := "0x" + BytesToHex(Layout(f)), "0x" + BytesToHex(Layout(g));
    assert a[2..] == BytesToHex(Layout(f)) && b[2..] == BytesToHex(Layout(g));
    HexRoundTrip(Layout(f));
    HexRoundTrip(Layout(g));
    DecodeLayout(f);
    DecodeLayout(g);
  }

  // ---------------------------------------------------------------- CEA-to-UEA payload

  /** `discriminator` is the first eight bytes of the hash of the instruction's name. */
  datatype CeaToUea = CeaToUea(
    gatewayProgramHex: string, drainAmount: int, tokenMintHex: Option<string>,
    extraPayload: Option<Bytes>, revertRecipientHex: string)

  predicate ValidCea(p: CeaToUea) {
    && IsPubkeyHex(p.gatewayProgramHex)
    && IsPubkeyHex(p.revertRecipientHex)
    && (p.tokenMintHex.Some? ==> IsPubkeyHex(p.tokenMintHex.value))
  }

  function RepeatZeroPair(n: nat): string {
    if n == 0 then "" else RepeatZeroPair(n - 1) + "00"
  }

  lemma {:induction false} ZeroPairs(n: nat)
    ensures IsHex(RepeatZeroPair(n)) && Unhex(RepeatZeroPair(n)) == Zeros(n)
  {
    if n > 0 {
      ZeroPairs(n - 1);
      assert RepeatZeroPair(n)[..|RepeatZeroPair(n)| - 2] == RepeatZeroPair(n - 1);
    }
  }

  /** 32 bytes: zeros for native SOL, the mint otherwise. */
  function TokenPlaced(mint: Option<string>): Option<Bytes> {
    if mint.None? || mint.value == "" || mint.value == "0x" + RepeatZeroPair(32) then Some(Zeros(32))
    else Place(Some(Zeros(32)), KeyBytes(mint.value), 0)
  }

  /** The default public key stands for native SOL. */
  function TokenBytes(mint: Option<string>): Bytes {
    if mint.Some? then KeyBytes(mint.value) else Zeros(32)
  }

  function PayloadBytes(extra: Option<Bytes>): Bytes {
    if extra.Some? then extra.value else []
  }

  function IxLayout(discriminator: Bytes, token: Bytes, p: CeaToUea): Bytes {
    discriminator + token + U64LE(p.drainAmount) +
    U32LE(|PayloadBytes(p.extraPayload)|) + PayloadBytes(p.extraPayload) + KeyBytes(p.revertRecipientHex)
  }

  function CeaFields(discriminator: Bytes, token: Bytes, p: CeaToUea): RawFields {
    RawFields(KeyBytes(p.gatewayProgramHex), [], IxLayout(discriminator, token, p), 2)
  }

  function EncodedCea(discriminator: Bytes, p: CeaToUea): Outcome<string, Error> {
    var token := TokenPlaced(p.tokenMintHex);
    if token.None? then Err(RangeError) else Printed(Placed(CeaFields(discriminator, token.value, p)))
  }

  /** `encodeSvmCeaToUeaPayload`. */
  method EncodeSvmCeaToUeaPayload(discriminator: Bytes, p: CeaToUea) returns (r: Outcome<string, Error>)
    requires |discriminator| == 8
    ensures r == EncodedCea(discriminator, p)
  {
    var tokenBytes, ok := WriteToken(p.tokenMintHex);
    if !ok {
      return Err(RangeError);
    }
    var ixData := WriteIx(discriminator, tokenBytes, p);
    CeaRaw(discriminator, tokenBytes[..], p);
    r := EncodeSvmExecutePayload(Fields(p.gatewayProgramHex, [], ixData[..], 2));
  }

  lemma CeaRaw(discriminator: Bytes, token: Bytes, p: CeaToUea)
    ensures Raw(Fields(p.gatewayProgramHex, [], IxLayout(discriminator, token, p), 2)) ==
            CeaFields(discriminator, token, p)
  {
    assert RawAccounts([]) == [];
  }

  /** The parts of the instruction, one after the other. */
  method WriteIx(discriminator: Bytes, tokenBytes: array<byte>, p: CeaToUea) returns (ixData: array<byte>)
    requires |discriminator| == 8 && tokenBytes.Length == 32
    ensures fresh(ixData) && ixData[..] == IxLayout(discriminator, tokenBytes[..], p)
  {
    var payloadData := PayloadBytes(p.extraPayload);
    var recipient := HexToBytes(p.revertRecipientHex);
    var amountBuf, payloadLenBuf := U64LE(p.drainAmount), U32LE(|payloadData|);
    var rest := 8 + 4 + |payloadData| + recipient.Length;
    ixData := new byte[8 + 32 + rest](_ => 0);
    ghost var token := tokenBytes[..];
    assert ixData[..] == [] + Zeros(40 + rest);
    PlaceNext([], discriminator, 40 + rest);
    var ok := Put(ixData, discriminator, 0);
    PlaceNext([] + discriminator, token, 32 + rest);
    ok := Put(ixData, tokenBytes[..], 8);
    PlaceNext([] + discriminator + token, amountBuf, rest);
    ok := Put(ixData, amountBuf, 40);
    PlaceNext([] + discriminator + token + amountBuf, payloadLenBuf, rest - 8);
    ok := Put(ixData, payloadLenBuf, 48);
    PlaceNext([] + discriminator + token + amountBuf + payloadLenBuf, payloadData, rest - 12);
    ok := Put(ixData, payloadData, 52);
    ghost var w := [] + discriminator + token + amountBuf + payloadLenBuf + payloadData;
    PlaceNext(w, recipient[..], recipient.Length);
    ok := Put(ixData, recipient[..], 52 + |payloadData|);
    assert ixData[..] == w + recipient[..] + [];
    assert [] + discriminator == discriminator;
  }

  /** 32 bytes that stay zero for native SOL. */
  method WriteToken(mint: Option<string>) returns (tokenBytes: array<byte>, ok: bool)
    ensures fresh(tokenBytes) && tokenBytes.Length == 32
    ensures (if ok then Some(tokenBytes[..]) else None) == TokenPlaced(mint)
  {
    tokenBytes, ok := new byte[32](_ => 0), true;
    assert tokenBytes[..] == Zeros(32);
    if mint.Some? && mint.value != "" && mint.value != "0x" + RepeatZeroPair(32) {
      var mintBytes := HexToBytes(mint.value);
      ok := Put(tokenBytes, mintBytes[..], 0);
    }
  }

  /** It throws exactly for a gateway, or a mint in use, of more than 32 bytes. */
  lemma CeaErrorIff(discriminator: Bytes, p: CeaToUea)
    requires |discriminator| == 8
    ensures EncodedCea(discriminator, p).Err? <==>
            || |KeyBytes(p.gatewayProgramHex)| > 32
            || (p.tokenMintHex.Some? && |KeyBytes(p.tokenMintHex.value)| > 32)
  {
    var token := TokenPlaced(p.tokenMintHex);
    if p.tokenMintHex.Some? {
      ZeroPairs(32);
      assert p.tokenMintHex.value == "0x" + RepeatZeroPair(32) ==> p.tokenMintHex.value[2..] == RepeatZeroPair(32);
    }
    if token.Some? {
      RangeErrorIff(CeaFields(discriminator, token.value, p));
    }
  }

  /** A 32-byte mint, the zero mint included, is the token of the instruction. */
  lemma TokenOfMint(mint: Option<string>)
    requires mint.Some? ==> IsPubkeyHex(mint.value)
    ensures TokenPlaced(mint) == Some(TokenBytes(mint)) && |TokenBytes(mint)| == 32
  {
    if mint.Some? {
      PubkeyBytes(mint.value);
      if mint.value == "0x" + RepeatZeroPair(32) {
        ZeroPairs(32);
        assert mint.value[2..] == RepeatZeroPair(32);
      } else {
        PlaceNext([], KeyBytes(mint.value), 32);
        assert [] + Zeros(32) == Zeros(32) && [] + KeyBytes(mint.value) + Zeros(0) == KeyBytes(mint.value);
      }
    }
  }

  datatype Instruction = Instruction(
    discriminator: Bytes, token: Bytes, amount: nat, payload: Bytes, revertRecipient: Bytes)

  /** Reads the documented Borsh layout; every byte must be accounted for. */
  function DecodeIx(b: Bytes): Option<Instruction> {
    if |b| < 84 then None
    else
      var len := FromLittleEndian(b[48..52]);
      if |b| != 84 + len then None
      else Some(Instruction(b[..8], b[8..40], FromLittleEndian(b[40..48]), b[52..52 + len], b[52 + len..]))
  }

  datatype CeaView = CeaView(gateway: Bytes, instructionId: byte, ix: Instruction)

  /** Hex, outer layout, inner layout. */
  function DecodeCea(payload: string): Option<CeaView> {
    if !IsHex(Strip0x(payload)) then None
    else
      var outer := Decode(Unhex(Strip0x(payload)));
      if outer.None? || outer.value.accounts != [] then None
      else
        var ix := DecodeIx(outer.value.ixData);
        if ix.None? then None
        else Some(CeaView(outer.value.targetProgram, outer.value.instructionId, ix.value))
  }

  lemma LittleEndianWidths(n: int, m: nat)
    requires m < TWO_32
    ensures FromLittleEndian(U64LE(n)) == n % TWO_64 && FromLittleEndian(U32LE(m)) == m
  {
    Widths();
    LittleEndianValue(n, 8);
    LittleEndianValue(m, 4);
    Euclid(m, TWO_32, 0, m);
  }

  lemma Slices5(x: Bytes, t: Bytes, a: Bytes, l: Bytes, d: Bytes, r: Bytes)
    requires |x| == 8 && |t| == 32 && |a| == 8 && |l| == 4
    ensures
      var b := x + t + a + l + d + r;
      && b[..8] == x && b[8..40] == t && b[40..48] == a && b[48..52] == l
      && b[52..52 + |d|] == d && b[52 + |d|..] == r
  {
  }

  lemma DecodeIxLayout(discriminator: Bytes, p: CeaToUea)
    requires |discriminator| == 8 && ValidCea(p) && |PayloadBytes(p.extraPayload)| < TWO_32
    ensures DecodeIx(IxLayout(discriminator, TokenBytes(p.tokenMintHex), p)) ==
            Some(Instruction(discriminator, TokenBytes(p.tokenMintHex), p.drainAmount % TWO_64,
                             PayloadBytes(p.extraPayload), KeyBytes(p.revertRecipientHex)))
  {
    var data, token := PayloadBytes(p.extraPayload), TokenBytes(p.tokenMintHex);
    LittleEndianWidths(p.drainAmount, |data|);
    var amount, len := U64LE(p.drainAmount), U32LE(|data|);
    var recipient := KeyBytes(p.revertRecipientHex);
    TokenOfMint(p.tokenMintHex);
    PubkeyBytes(p.revertRecipientHex);
    Slices5(discriminator, token, amount, len, data, recipient);
  }

  /**
   The round trip through both layouts.  The payload returns every field; the amount comes
   back as itself exactly when it fits in 64 bits, and modulo 2^64 otherwise.
   */
  lemma CeaRoundTrip(discriminator: Bytes, p: CeaToUea)
    requires |discriminator| == 8 && ValidCea(p)
    requires 84 + |PayloadBytes(p.extraPayload)| < TWO_32
    ensures EncodedCea(discriminator, p).Ok?
    ensures DecodeCea(EncodedCea(discriminator, p).value) ==
            Some(CeaView(KeyBytes(p.gatewayProgramHex), 2,
                         Instruction(discriminator, TokenBytes(p.tokenMintHex), p.drainAmount % TWO_64,
                                     PayloadBytes(p.extraPayload), KeyBytes(p.revertRecipientHex))))
    ensures p.drainAmount % TWO_64 == p.drainAmount <==> 0 <= p.drainAmount < TWO_64
  {
    var raw := CeaFields(discriminator, TokenBytes(p.tokenMintHex), p);
    CeaFieldsFit(discriminator, p);
    TilesTheBuffer(raw);
    DecodeIxLayout(discriminator, p);
    DecodeCeaLayout(raw);
    AmountFitsIff(p.drainAmount);
  }

  lemma DecodeCeaLayout(raw: RawFields)
    requires ValidRaw(raw) && raw.accounts == [] && DecodeIx(raw.ixData).Some?
    ensures DecodeCea("0x" + BytesToHex(Layout(raw))) ==
            Some(CeaView(raw.targetProgram, raw.instructionId, DecodeIx(raw.ixData).value))
  {
    HexRoundTrip(Layout(raw));
    DecodeLayout(raw);
  }

  lemma CeaFieldsFit(discriminator: Bytes, p: CeaToUea)
    requires |discriminator| == 8 && ValidCea(p)
    requires 84 + |PayloadBytes(p.extraPayload)| < TWO_32
    ensures ValidRaw(CeaFields(discriminator, TokenBytes(p.tokenMintHex), p))
    ensures TokenPlaced(p.tokenMintHex) == Some(TokenBytes(p.tokenMintHex))
  {
    TokenOfMint(p.tokenMintHex);
    PubkeyBytes(p.gatewayProgramHex);
    PubkeyBytes(p.revertRecipientHex);
  }

  lemma AmountFitsIff(n: int)
    ensures n % TWO_64 == n <==> 0 <= n < TWO_64
  {
    if 0 <= n < TWO_64 {
      Euclid(n, TWO_64, 0, n);
    }
  }

  /** The same for the execute payload of valid fields. */
  lemma ExecuteRoundTrip(f: Fields)
    requires ValidFields(f) && |f.accounts| < TWO_32 && |f.ixData| < TWO_32
    ensures
      var r := Printed(Placed(Raw(f)));
      r.Ok? && IsHex(Strip0x(r.value)) && Decode(Unhex(Strip0x(r.value))) == Some(Raw(f))
  {
    PubkeyBytes(f.targetProgram);
    forall i | 0 <= i < |f.accounts| ensures |Raw(f).accounts[i].pubkey| == 32 {
      PubkeyBytes(f.accounts[i].pubkey);
    }
    TilesTheBuffer(Raw(f));
    HexRoundTrip(Layout(Raw(f)));
    DecodeLayout(Raw(f));
  }
}
