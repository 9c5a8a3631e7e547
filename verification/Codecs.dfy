/** The wire form of stream messages and the byte form of blob identifiers. */
module Codecs {
  import opened Entries

  type Bytes32 = b: Bytes | |b| == 32 witness seq(32, _ => 0)
  type U64 = x: nat | x <= U64_MAX

  // ------------------------------------------------------ fixed-width numbers

  /** The `k` low bytes of a number, least significant first. */
  function LittleEndian(n: nat, k: nat): (b: Bytes)
    ensures |b| == k
  {
    if k == 0 then [] else [n % 256] + LittleEndian(n / 256, k - 1)
  }

  function FromLittleEndian(b: Bytes): (n: nat)
    ensures n < Pow256(|b|)
  {
    if b == [] then 0 else b[0] + 256 * FromLittleEndian(b[1..])
  }

  lemma {:induction false} DecodesEncoded(n: nat, k: nat)
    requires n < Pow256(k)
    ensures FromLittleEndian(LittleEndian(n, k)) == n
  {
    if k > 0 {
      DecodesEncoded(n / 256, k - 1);
      assert LittleEndian(n, k)[1..] == LittleEndian(n / 256, k - 1);
    }
  }

  lemma {:induction false} EncodesDecoded(b: Bytes)
    ensures LittleEndian(FromLittleEndian(b), |b|) == b
  {
    if b != [] {
      EncodesDecoded(b[1..]);
      assert b == [b[0]] + b[1..];
    }
  }

  function Reversed(b: Bytes): (r: Bytes)
    ensures |r| == |b|
  {
    seq(|b|, i requires 0 <= i < |b| => b[|b| - 1 - i])
  }

  lemma ReversedTwice(b: Bytes)
    ensures Reversed(Reversed(b)) == b
  {}

  function PutU64(n: U64): (b: Bytes)
    ensures |b| == 8
  {
    Reversed(LittleEndian(n, 8))
  }

  function GetU64(b: Bytes): U64
    requires |b| == 8
  {
    EightBytes();
    FromLittleEndian(Reversed(b))
  }

  lemma U64RoundTrip(n: U64, b: Bytes)
    requires |b| == 8
    ensures GetU64(PutU64(n)) == n && PutU64(GetU64(b)) == b
  {
    EightBytes();
    DecodesEncoded(n, 8);
    ReversedTwice(LittleEndian(n, 8));
    EncodesDecoded(Reversed(b));
    ReversedTwice(b);
  }

  // --------------------------------------------------------- stream messages

  datatype StreamKey = Local(data: Bytes32) | PublicKeyEd25519(data: Bytes32) | Blake3HashPin(data: Bytes32) {
    function Id(): Byte {
      match this
      case Local(_) => 0
      case PublicKeyEd25519(_) => 1
      case Blake3HashPin(_) => 3
    }

    function SignatureLen(): nat {
      if PublicKeyEd25519? then 64 else 0
    }
  }

  datatype MessageType = Stream | Registry {
    function Id(): Byte {
      if Stream? then 0 else 1
    }
  }

  datatype StreamMessage = StreamMessage(typeId: MessageType, key: StreamKey, revision: U64, hash: Bytes32,
                                         signature: Bytes, data: Option<Bytes>)

  datatype Error =
    | InvalidMessageType(id: Byte)
    | UnknownKeyType(id: Byte)
    | SignatureRequired
    | InvalidSignatureLength(expected: nat, actual: nat)
    | DataTooLarge(size: nat)
    | InsufficientBytes

  datatype Result<+T> = Ok(value: T) | Err(error: Error)

  const MAX_INLINE_DATA_SIZE: nat := 1024
  const FIXED: nat := 74

  /** What `StreamMessage::new` lets through. */
  predicate Accepted(m: StreamMessage) {
    && |m.signature| == m.key.SignatureLen()
    && (m.data.Some? && !m.key.Blake3HashPin? ==> |m.data.value| <= MAX_INLINE_DATA_SIZE)
  }

  /** `StreamMessage::new`. */
  method New(m: StreamMessage) returns (r: Result<StreamMessage>)
    ensures Accepted(m) ==> r == Ok(m)
    ensures !Accepted(m) ==> r.Err?
    ensures r == Err(SignatureRequired) <==> m.key.PublicKeyEd25519? && m.signature == []
    ensures r.Ok? <==>
            |m.signature| == (if m.key.PublicKeyEd25519? then 64 else 0) &&
            (m.key.Blake3HashPin? || m.data == None || |m.data.value| <= 1024)
    ensures r.Ok? ==> r.value == m
  {
    var expected := m.key.SignatureLen();
    if expected > 0 && m.signature == [] {
      return Err(SignatureRequired);
    }
    if |m.signature| != expected {
      return Err(InvalidSignatureLength(expected, |m.signature|));
    }
    if !m.key.Blake3HashPin? && m.data.Some? && |m.data.value| > MAX_INLINE_DATA_SIZE {
      return Err(DataTooLarge(|m.data.value|));
    }
    return Ok(m);
  }

  function Payload(m: StreamMessage): Bytes {
    if m.data.Some? then m.data.value else []
  }

  /** The wire format. */
  function Wire(m: StreamMessage): Bytes {
    [m.typeId.Id(), m.key.Id()] + m.key.data + PutU64(m.revision) + m.hash + m.signature + Payload(m)
  }

  lemma WireFields(m: StreamMessage)
    ensures var b, s := Wire(m), |m.signature|;
            && |b| == FIXED + s + |Payload(m)|
            && b[0] == m.typeId.Id() && b[1] == m.key.Id()
            && b[2..34] == m.key.data && b[34..42] == PutU64(m.revision) && b[42..74] == m.hash
            && b[74..74 + s] == m.signature && b[74 + s..] == Payload(m)
  {}

  /** Eight bytes as a number, the most significant first. */
  lemma BigEndianValue(b: Bytes)
    requires |b| == 8
    ensures GetU64(b) ==
            Number(b[7], b[6], b[5], b[4]) + Number(b[3], b[2], b[1], b[0]) * 0x1_0000_0000
  {
    LittleEndianValue(Reversed(b));
  }

  /** Four digits of base 256, the least significant first. */
  function Number(d0: int, d1: int, d2: int, d3: int): int {
    d0 + d1 * 0x100 + d2 * 0x1_0000 + d3 * 0x100_0000
  }

  lemma LittleEndianValue(b: Bytes)
    requires |b| == 8
    ensures FromLittleEndian(b) ==
            Number(b[0], b[1], b[2], b[3]) + Number(b[4], b[5], b[6], b[7]) * 0x1_0000_0000
  {
    FourBytes(b, b[4..]);
    FourBytes(b[4..], []);
  }

  lemma FourBytes(b: Bytes, rest: Bytes)
    requires |b| >= 4 && b[4..] == rest
    ensures FromLittleEndian(b) ==
            Number(b[0], b[1], b[2], b[3]) + FromLittleEndian(rest) * 0x1_0000_0000
  {
    assert b[1..][1..] == b[2..] && b[2..][1..] == b[3..] && b[3..][1..] == rest;
    assert FromLittleEndian(b[3..]) == b[3] + 0x100 * FromLittleEndian(rest);
    assert FromLittleEndian(b[2..]) == b[2] + 0x100 * FromLittleEndian(b[3..]);
    assert FromLittleEndian(b[1..]) == b[1] + 0x100 * FromLittleEndian(b[2..]);
  }

  /** The wire format byte by byte. */
  lemma WireBytes(m: StreamMessage)
    ensures var b, len := Wire(m), if m.key.PublicKeyEd25519? then 64 else 0;
            && |b| >= 74
            && b[0] == (if m.typeId.Stream? then 0 else 1)
            && b[1] == (if m.key.Local? then 0 else if m.key.PublicKeyEd25519? then 1 else 3)
            && b[2..34] == m.key.data && b[42..74] == m.hash
            && m.revision ==
               Number(b[41], b[40], b[39], b[38]) + Number(b[37], b[36], b[35], b[34]) * 0x1_0000_0000
            && (Accepted(m) ==> b[74..74 + len] == m.signature)
            && (Accepted(m) ==> b[74 + len..] == if m.data.Some? then m.data.value else [])
  {
    WireFields(m);
    var b := Wire(m)[34..42];
    U64RoundTrip(m.revision, b);
    BigEndianValue(b);
  }

  method Serialize(m: StreamMessage) returns (buf: Bytes)
    ensures buf == Wire(m)
  {
    buf := [m.typeId.Id()];
    buf := buf + [m.key.Id()];
    buf := buf + m.key.data;
    buf := buf + PutU64(m.revision);
    buf := buf + m.hash;
    buf := buf + m.signature;
    if m.data.Some? {
      buf := buf + m.data.value;
    }
  }

  function KeyFrom(id: Byte, data: Bytes32): (k: Option<StreamKey>)
    ensures k.Some? ==> k.value.Id() == id && k.value.data == data
    ensures k.None? ==> forall any: StreamKey :: any.Id() != id
  {
    match id
    case 0 => Some(Local(data))
    case 1 => Some(PublicKeyEd25519(data))
    case 3 => Some(Blake3HashPin(data))
    case _ => None
  }

  /** A message and what is left of the buffer after its fixed part. */
  method ReadFixed(bytes: Bytes) returns (r: Result<StreamMessage>, rest: Bytes)
    ensures r.Ok? ==> |bytes| >= FIXED && rest == bytes[FIXED..] && r.value.signature == [] && r.value.data == None
    ensures r.Ok? ==> Wire(r.value) + rest == bytes
    ensures |bytes| < FIXED ==> r == Err(InsufficientBytes)
    ensures r.Err? ==>
              |bytes| < FIXED || forall t: MessageType, k: StreamKey :: !(t.Id() == bytes[0] && k.Id() == bytes[1])
  {
    rest := bytes;
    if |rest| < FIXED {
      return Err(InsufficientBytes), rest;
    }
    var typeByte := rest[0];
    rest := rest[1..];
    if typeByte > 1 {
      return Err(InvalidMessageType(typeByte)), rest;
    }
    var keyByte := rest[0];
    rest := rest[1..];
    var keyData := rest[..32];
    rest := rest[32..];
    var key := KeyFrom(keyByte, keyData);
    if key.None? {
      return Err(UnknownKeyType(keyByte)), rest;
    }
    var revision := GetU64(rest[..8]);
    U64RoundTrip(revision, rest[..8]);
    rest := rest[8..];
    var hash := rest[..32];
    rest := rest[32..];
    r := Ok(StreamMessage(if typeByte == 0 then Stream else Registry, key.value, revision, hash, [], None));
    assert Wire(r.value) == bytes[..74];
  }

  /** `deserialize` inverts the wire format: it accepts exactly the bytes of the
      messages that `new` lets through, and gives the one message that has no
      empty inline payload. */
  method Deserialize(bytes: Bytes) returns (r: Result<StreamMessage>)
    ensures r.Ok? ==> Accepted(r.value) && r.value.data != Some([]) && Wire(r.value) == bytes
    ensures forall m :: Accepted(m) && m.data != Some([]) && Wire(m) == bytes ==> r == Ok(m)
    ensures |bytes| < FIXED ==> r == Err(InsufficientBytes)
  {
    var fixedPart, rest := ReadFixed(bytes);
    if fixedPart.Err? {
      r := fixedPart;
      forall m | Wire(m) == bytes
        ensures false
      {
        WireFields(m);
      }
      return;
    }
    var head := fixedPart.value;
    WireFields(head);
    var len := head.key.SignatureLen();
    if |rest| < len {
      r := Err(InsufficientBytes);
    } else {
      var data := if rest[len..] == [] then None else Some(rest[len..]);
      var whole := head.(signature := rest[..len], data := data);
      assert Wire(whole) == Wire(head) + rest;
      r := New(whole);
      WireFields(whole);
    }
    forall m | Accepted(m) && m.data != Some([]) && Wire(m) == bytes
      ensures r == Ok(m)
    {
      SameFields(head, m, rest);
    }
  }

  /** Two readings of one buffer agree on the fixed part. */
  lemma SameFields(head: StreamMessage, m: StreamMessage, rest: Bytes)
    requires head.signature == [] && head.data == None && Wire(head) + rest == Wire(m) && Accepted(m)
    ensures m == head.(signature := m.signature, data := m.data)
    ensures rest == m.signature + Payload(m)
  {
    WireFields(head);
    WireFields(m);
    var b := Wire(m);
    assert Wire(head)[2..34] == b[2..34] && Wire(head)[34..42] == b[34..42] && Wire(head)[42..74] == b[42..74];
    U64RoundTrip(head.revision, PutU64(head.revision));
    U64RoundTrip(m.revision, PutU64(m.revision));
    assert rest == b[74..];
    assert b[74..] == b[74..74 + |m.signature|] + b[74 + |m.signature|..];
  }

  /** A message survives the wire if and only if its inline payload is not the
      empty one, which comes back as no payload. */
  method WireRoundTrip(m: StreamMessage) returns (r: Result<StreamMessage>)
    requires Accepted(m)
    ensures r == Ok(m) <==> m.data != Some([])
    ensures m.data == Some([]) ==> r == Ok(m.(data := None))
  {
    var buf := Serialize(m);
    r := Deserialize(buf);
    var m' := if m.data == Some([]) then m.(data := None) else m;
    assert Accepted(m') && Wire(m') == buf;
  }

  // -------------------------------------------------------- blob identifiers

  datatype BlobId = BlobId(hash: Bytes32, size: U64)

  datatype ParseError =
    | InvalidLength(length: nat)
    | InvalidMagicByte(b: Byte)
    | InvalidBlobType(b: Byte)
    | InvalidMultihashType(b: Byte)

  datatype Parsed = Parsed(id: BlobId) | ParseFailed(error: ParseError)

  const S5_MAGIC_BYTE: Byte := 0x5b
  const BLOB_TYPE_DEFAULT: Byte := 0x82
  const MULTIHASH_BLAKE3: Byte := 0x1e

  /** Without its trailing zero bytes. */
  function Trim(b: Bytes): (t: Bytes)
    ensures |t| <= |b| && (t == [] || t[|t| - 1] != 0)
  {
    if b == [] || b[|b| - 1] != 0 then b else Trim(b[..|b| - 1])
  }

  function Zeros(k: nat): Bytes {
    seq(k, _ => 0)
  }

  lemma {:induction false} TrimPads(b: Bytes)
    ensures Trim(b) + Zeros(|b| - |Trim(b)|) == b
  {
    if b != [] && b[|b| - 1] == 0 {
      var init := b[..|b| - 1];
      TrimPads(init);
      assert b == init + [0];
      assert Zeros(|init| - |Trim(init)|) + [0] == Zeros(|b| - |Trim(b)|);
    }
  }

  lemma {:induction false} TrimOfPadded(b: Bytes, k: nat)
    requires b == [] || b[|b| - 1] != 0
    ensures Trim(b + Zeros(k)) == b
  {
    if k == 0 {
      assert b + Zeros(0) == b;
    } else {
      assert (b + Zeros(k))[..|b| + k - 1] == b + Zeros(k - 1);
      TrimOfPadded(b, k - 1);
    }
  }

  function ToBytes(id: BlobId): Bytes {
    [S5_MAGIC_BYTE, BLOB_TYPE_DEFAULT, MULTIHASH_BLAKE3] + id.hash + Trim(LittleEndian(id.size, 8))
  }

  /** `BlobId::parse` after multibase decoding: a short size is padded. */
  function Parse(bytes: Bytes): Parsed {
    if |bytes| < 35 then ParseFailed(InvalidLength(|bytes|))
    else if bytes[0] != S5_MAGIC_BYTE then ParseFailed(InvalidMagicByte(bytes[0]))
    else if bytes[1] != BLOB_TYPE_DEFAULT then ParseFailed(InvalidBlobType(bytes[1]))
    else if bytes[2] != MULTIHASH_BLAKE3 then ParseFailed(InvalidMultihashType(bytes[2]))
    else if |bytes| - 35 > 8 then ParseFailed(InvalidLength(|bytes|))
    else
      EightBytes();
      Parsed(BlobId(bytes[3..35], FromLittleEndian(bytes[35..] + Zeros(43 - |bytes|))))
  }

  /** The identifier byte by byte: three fixed bytes, the hash, and the size with
      the least significant byte first, up to its last byte that is not zero. */
  lemma BlobIdBytes(id: BlobId)
    ensures var b := ToBytes(id);
            && 35 <= |b| <= 43 && b[0] == 0x5b && b[1] == 0x82 && b[2] == 0x1e && b[3..35] == id.hash
            && (|b| > 35 ==> b[|b| - 1] != 0)
            && var p := b[35..] + Zeros(43 - |b|);
               |p| == 8 &&
               id.size == Number(p[0], p[1], p[2], p[3]) + Number(p[4], p[5], p[6], p[7]) * 0x1_0000_0000
  {
    var size := LittleEndian(id.size, 8);
    EightBytes();
    DecodesEncoded(id.size, 8);
    TrimPads(size);
    LittleEndianValue(size);
    var b := ToBytes(id);
    assert b[3..35] == id.hash && b[35..] == Trim(size);
  }

  /** Exactly the bytes of the right lengths that start with the three fixed bytes
      are parsed. */
  lemma ParseAcceptsIff(bytes: Bytes)
    ensures Parse(bytes).Parsed? <==> 35 <= |bytes| <= 43 && bytes[..3] == [0x5b, 0x82, 0x1e]
  {}

  /** A damaged fixed byte is reported with what was found, a cut with the length. */
  lemma DamagedIdFails(id: BlobId, k: nat, b: Byte)
    requires k < 35
    ensures Parse(ToBytes(id)[..k]) == ParseFailed(InvalidLength(k))
    ensures k < 3 && b != ToBytes(id)[k] ==>
              Parse(ToBytes(id)[k := b]) ==
              ParseFailed(if k == 0 then InvalidMagicByte(b)
                          else if k == 1 then InvalidBlobType(b)
                          else InvalidMultihashType(b))
  {}

  lemma ParseInvertsToBytes(id: BlobId)
    ensures Parse(ToBytes(id)) == Parsed(id)
  {
    var size := LittleEndian(id.size, 8);
    EightBytes();
    DecodesEncoded(id.size, 8);
    TrimPads(size);
    var b := ToBytes(id);
    assert b[3..35] == id.hash && b[35..] == Trim(size);
  }

  /** Encoding what was parsed gives the same bytes back if and only if they did
      not pad the size with zeros. */
  lemma ToBytesInvertsParseIff(bytes: Bytes)
    requires Parse(bytes).Parsed?
    ensures ToBytes(Parse(bytes).id) == bytes <==> |bytes| == 35 || bytes[|bytes| - 1] != 0
  {
    var size := bytes[35..];
    var padded := size + Zeros(8 - |size|);
    EncodesDecoded(padded);
    assert ToBytes(Parse(bytes).id) == bytes[..35] + Trim(padded);
    assert bytes == bytes[..35] + size;
    if size == [] || size[|size| - 1] != 0 {
      TrimOfPadded(size, 8 - |size|);
    } else {
      assert (bytes[..35] + Trim(padded))[35..] == Trim(padded);
      assert (bytes[..35] + size)[35..] == size;
    }
  }
}
