/**
  * `minecraft_status.py`: the VarInt codec (unsigned LEB128, section 7.6 of the DWARF Debugging Information
  * Format, Version 5, on 32-bit values) and the framing of a status reply.
  */
module VarInts {
  import opened Common

  type Byte = b: int | 0 <= b < 0x100

  const WORD := 0x1_0000_0000

  const MAX_PACKET_BYTES := 2 * 1024 * 1024

  const MAX_STRING_BYTES := 32767 * 4

  datatype StatusError =
    | InvalidVarInt
    | Truncated
    | InvalidPacketSize
    | UnexpectedPacket
    | InvalidResponse

  // ------------------------------------------------------------------
  // Bits
  // ------------------------------------------------------------------

  /** `a | b` on non-negative numbers. */
  function BitOr(a: nat, b: nat): nat {
    if a == 0 then b
    else (if a % 2 == 1 || b % 2 == 1 then 1 else 0) + 2 * BitOr(a / 2, b / 2)
  }

  function Pow2(n: nat): (p: nat)
    ensures p >= 1
  {
    if n == 0 then 1 else 2 * Pow2(n - 1)
  }

  /** `b << 7 * position` */
  function ShiftLeft7(b: nat, position: nat): nat {
    b * Pow2(7 * position)
  }

  /** Bits that do not overlap add up. */
  lemma {:induction false} OrOfDisjoint(a: nat, x: nat, n: nat)
    requires a < Pow2(n)
    ensures BitOr(a, x * Pow2(n)) == a + x * Pow2(n)
    decreases n
  {
    if n > 0 && a > 0 {
      var b := x * Pow2(n);
      var half := x * Pow2(n - 1);
      assert b == 2 * half by {
        assert x * (2 * Pow2(n - 1)) == 2 * (x * Pow2(n - 1));
      }
      OrOfDisjoint(a / 2, x, n - 1);
    }
  }

  lemma {:induction false} Pow2Adds(m: nat, n: nat)
    ensures Pow2(m + n) == Pow2(m) * Pow2(n)
    decreases n
  {
    if n > 0 {
      Pow2Adds(m, n - 1);
      assert Pow2(m + n) == 2 * (Pow2(m) * Pow2(n - 1)) == Pow2(m) * Pow2(n);
    }
  }

  lemma Pow2Of7(position: nat)
    ensures Pow2(7 * (position + 1)) == 128 * Pow2(7 * position)
  {
    Pow2Adds(7 * position, 7);
    assert Pow2(7) == 128;
  }

  // ------------------------------------------------------------------
  // Encoding
  // ------------------------------------------------------------------

  /** The groups of seven bits, lowest first; all but the last carry the high bit. */
  function Encode(v: nat): (bytes: seq<Byte>)
    ensures |bytes| >= 1
  {
    if v < 0x80 then [v] else [0x80 + v % 0x80] + Encode(v / 0x80)
  }

  /** What `_varint` encodes: the value cut down to 32 bits. */
  function Word(value: int): nat {
    value % WORD
  }

  /** `_varint` */
  method VarInt(value: int) returns (encoded: seq<Byte>)
    ensures encoded == Encode(Word(value))
    ensures Represents(encoded, value)
  {
    var rest: nat := value % WORD;
    encoded := [];
    while true
      invariant encoded + Encode(rest) == Encode(Word(value))
      decreases rest
    {
      var byte := rest % 0x80;
      ghost var before := rest;
      rest := rest / 0x80;
      encoded := encoded + [if rest != 0 then byte + 0x80 else byte];
      if rest == 0 {
        assert Encode(before) == [before];
        EncodeRepresents(value);
        return;
      }
    }
  }

  // ------------------------------------------------------------------
  // Decoding
  // ------------------------------------------------------------------

  /** The loop of both decoders, from its `position`-th round on; the answer is the value and the offset after it. */
  function DecodeFrom(payload: seq<Byte>, offset: nat, position: nat, result: nat)
    : Result<(nat, nat), StatusError>
    requires position <= 5
    decreases 5 - position
  {
    if position == 5 then Err(InvalidVarInt)
    else if offset >= |payload| then Err(Truncated)
    else
      var byte := payload[offset];
      var result' := BitOr(result, ShiftLeft7(byte % 0x80, position));
      if byte < 0x80 then Ok((result', offset + 1))
      else DecodeFrom(payload, offset + 1, position + 1, result')
  }

  function Decode(payload: seq<Byte>, offset: nat): Result<(nat, nat), StatusError> {
    DecodeFrom(payload, offset, 0, 0)
  }

  /** `_decode_varint` */
  method DecodeVarInt(payload: seq<Byte>, start: nat) returns (r: Result<(nat, nat), StatusError>)
    ensures r == Decode(payload, start)
  {
    var result: nat, offset: nat := 0, start;
    for position := 0 to 5
      invariant DecodeFrom(payload, offset, position, result) == Decode(payload, start)
    {
      if offset >= |payload| {
        return Err(Truncated);
      }
      var byte := payload[offset];
      offset := offset + 1;
      result := BitOr(result, ShiftLeft7(byte % 0x80, position));
      if byte < 0x80 {
        return Ok((result, offset));
      }
    }
    r := Err(InvalidVarInt);
  }

  /** The number a sequence of groups stands for. */
  function Value(bytes: seq<Byte>): nat {
    if bytes == [] then 0 else bytes[0] % 0x80 + 0x80 * Value(bytes[1..])
  }

  /** One encoded number: the high bit is set on all bytes but the last. */
  predicate IsEncoding(bytes: seq<Byte>) {
    && 1 <= |bytes| <= 5
    && bytes[|bytes| - 1] < 0x80
    && forall i :: 0 <= i < |bytes| - 1 ==> bytes[i] >= 0x80
  }

  /** The sum the decoder builds up over the groups. */
  function SumFrom(bytes: seq<Byte>, position: nat, result: nat): nat {
    if bytes == [] then result
    else SumFrom(bytes[1..], position + 1, result + bytes[0] % 0x80 * Pow2(7 * position))
  }

  lemma {:induction false} SumIsValue(bytes: seq<Byte>, position: nat, result: nat)
    ensures SumFrom(bytes, position, result) == result + Value(bytes) * Pow2(7 * position)
    decreases |bytes|
  {
    if bytes != [] {
      var b: nat := bytes[0] % 0x80;
      var p := Pow2(7 * position);
      Pow2Of7(position);
      SumIsValue(bytes[1..], position + 1, result + b * p);
      GroupAdds(b, p, Value(bytes[1..]));
    }
  }

  lemma GroupAdds(b: nat, p: nat, v: nat)
    ensures b * p + v * (128 * p) == (b + 0x80 * v) * p
  {
    assert v * (128 * p) == (128 * v) * p;
  }

  lemma GroupFits(result: nat, b: nat, p: nat)
    requires result < p && b < 0x80
    ensures result + b * p < 128 * p
  {
    assert b * p <= 127 * p;
  }

  lemma RestOfEncoding(bytes: seq<Byte>)
    requires IsEncoding(bytes)
    ensures if bytes[0] < 0x80 then bytes[1..] == [] else IsEncoding(bytes[1..])
  {
  }

  /** The decoder adds up exactly the groups of the encoding it finds. */
  lemma {:induction false} DecodeFromMeaning(
    payload: seq<Byte>, offset: nat, position: nat, result: nat, bytes: seq<Byte>)
    requires position < 5 && result < Pow2(7 * position)
    requires 1 <= |bytes| <= 5 - position && IsEncoding(bytes)
    requires offset + |bytes| <= |payload| && payload[offset..offset + |bytes|] == bytes
    ensures DecodeFrom(payload, offset, position, result) ==
            Ok((SumFrom(bytes, position, result), offset + |bytes|))
    decreases |bytes|
  {
    var rest := bytes[1..];
    assert payload[offset] == bytes[0];
    DecodeStep(payload, offset, position, result);
    RestOfEncoding(bytes);
    if bytes[0] >= 0x80 {
      Pow2Of7(position);
      GroupFits(result, bytes[0] % 0x80, Pow2(7 * position));
      assert payload[offset + 1..offset + 1 + |rest|] == rest;
      DecodeFromMeaning(payload, offset + 1, position + 1, result + bytes[0] % 0x80 * Pow2(7 * position), rest);
    }
  }

  /** One round of the decoder, in arithmetic. */
  lemma DecodeStep(payload: seq<Byte>, offset: nat, position: nat, result: nat)
    requires position < 5 && offset < |payload| && result < Pow2(7 * position)
    ensures var sum := result + payload[offset] % 0x80 * Pow2(7 * position);
            DecodeFrom(payload, offset, position, result) ==
              if payload[offset] < 0x80 then Ok((sum, offset + 1))
              else DecodeFrom(payload, offset + 1, position + 1, sum)
  {
    OrOfDisjoint(result, payload[offset] % 0x80, 7 * position);
  }

  lemma {:induction false} DecodeFromFinds(payload: seq<Byte>, offset: nat, position: nat, result: nat)
    requires position <= 5 && DecodeFrom(payload, offset, position, result).Ok?
    ensures var end := DecodeFrom(payload, offset, position, result).value.1;
            && offset < end <= |payload| && end - offset <= 5 - position
            && IsEncoding(payload[offset..end])
    decreases 5 - position
  {
    var byte := payload[offset];
    if byte >= 0x80 {
      var result' := BitOr(result, ShiftLeft7(byte % 0x80, position));
      DecodeFromFinds(payload, offset + 1, position + 1, result');
      var end := DecodeFrom(payload, offset, position, result).value.1;
      assert payload[offset..end] == [byte] + payload[offset + 1..end];
    }
  }

  lemma {:induction false} DecodeFromErrors(payload: seq<Byte>, offset: nat, position: nat, result: nat)
    requires position <= 5
    ensures DecodeFrom(payload, offset, position, result) == Err(Truncated) <==>
            && position < 5 && offset + (5 - position) > |payload|
            && forall i :: offset <= i < |payload| ==> payload[i] >= 0x80
    ensures DecodeFrom(payload, offset, position, result) == Err(InvalidVarInt) <==>
            && (position == 5 || offset + (5 - position) <= |payload|)
            && forall i :: offset <= i < offset + (5 - position) ==> payload[i] >= 0x80
    decreases 5 - position
  {
    if position < 5 && offset < |payload| && payload[offset] >= 0x80 {
      var result' := BitOr(result, ShiftLeft7(payload[offset] % 0x80, position));
      DecodeFromErrors(payload, offset + 1, position + 1, result');
    }
  }

  /** Why nothing is accepted: the bytes end before a last group, or five groups go by without one. */
  lemma DecodeErrors(payload: seq<Byte>, offset: nat)
    ensures Decode(payload, offset) == Err(Truncated) <==>
            offset + 5 > |payload| && forall i :: offset <= i < |payload| ==> payload[i] >= 0x80
    ensures Decode(payload, offset) == Err(InvalidVarInt) <==>
            offset + 5 <= |payload| && forall i :: offset <= i < offset + 5 ==> payload[i] >= 0x80
    ensures Decode(payload, offset).Err? ==> Decode(payload, offset).error in {Truncated, InvalidVarInt}
  {
    DecodeFromErrors(payload, offset, 0, 0);
    DecodeFromErrorKinds(payload, offset, 0, 0);
  }

  lemma {:induction false} DecodeFromErrorKinds(payload: seq<Byte>, offset: nat, position: nat, result: nat)
    requires position <= 5
    ensures var r := DecodeFrom(payload, offset, position, result); r.Err? ==> r.error in {Truncated, InvalidVarInt}
    decreases 5 - position
  {
    if position < 5 && offset < |payload| && payload[offset] >= 0x80 {
      var result' := BitOr(result, ShiftLeft7(payload[offset] % 0x80, position));
      DecodeFromErrorKinds(payload, offset + 1, position + 1, result');
    }
  }

  /** What is accepted, and as what: the decoder returns `n` and `end` exactly for an encoding of `n` that ends at `end`. */
  lemma DecodeMeaning(payload: seq<Byte>, offset: nat, n: nat, end: nat)
    ensures Decode(payload, offset) == Ok((n, end)) <==>
            offset < end <= |payload| && IsEncoding(payload[offset..end]) && Value(payload[offset..end]) == n
  {
    if Decode(payload, offset).Ok? {
      DecodeFromFinds(payload, offset, 0, 0);
      var e := Decode(payload, offset).value.1;
      DecodeFromMeaning(payload, offset, 0, 0, payload[offset..e]);
      SumIsValue(payload[offset..e], 0, 0);
    }
    if offset < end <= |payload| && IsEncoding(payload[offset..end]) {
      DecodeFromMeaning(payload, offset, 0, 0, payload[offset..end]);
      SumIsValue(payload[offset..end], 0, 0);
    }
  }

  // ------------------------------------------------------------------
  // Round trip and minimality
  // ------------------------------------------------------------------

  lemma {:induction false} EncodeMeaning(v: nat, n: nat)
    requires n >= 1 && v < Pow2(7 * n)
    ensures |Encode(v)| <= n && Value(Encode(v)) == v
    ensures Encode(v)[|Encode(v)| - 1] < 0x80
    ensures forall i :: 0 <= i < |Encode(v)| - 1 ==> Encode(v)[i] >= 0x80
    decreases n
  {
    assert Pow2(7) == 128;
    if v < 0x80 {
    } else {
      Pow2Of7(n - 1);
      EncodeMeaning(v / 0x80, n - 1);
      var rest := Encode(v / 0x80);
      assert Encode(v)[1..] == rest;
    }
  }

  lemma WordFits(value: int)
    ensures Word(value) < Pow2(7 * 5)
  {
    assert Pow2(8) == 0x100;
    Pow2Adds(8, 8);
    Pow2Adds(16, 16);
    Pow2Adds(32, 3);
  }

  /** `n` is `v` modulo 2^32. */
  predicate IsWordOf(n: nat, v: int) {
    n < 0x1_0000_0000 && (v - n) % 0x1_0000_0000 == 0
  }

  /** An encoding that ends in no superfluous zero group. */
  predicate IsCanonical(bytes: seq<Byte>) {
    IsEncoding(bytes) && (|bytes| == 1 || bytes[|bytes| - 1] != 0)
  }

  /** The bytes are the canonical encoding of `v` modulo 2^32. */
  predicate Represents(bytes: seq<Byte>, v: int) {
    IsCanonical(bytes) && IsWordOf(Value(bytes), v)
  }

  lemma {:induction false} LastGroup(v: nat)
    ensures var bytes := Encode(v); |bytes| == 1 || bytes[|bytes| - 1] != 0
  {
    if v >= 0x80 {
      LastGroup(v / 0x80);
    }
  }

  /** What is decoded at `offset` is `v` modulo 2^32, and ends at `end`. */
  ghost predicate DecodesTo(payload: seq<Byte>, offset: nat, v: int, end: nat) {
    exists n: nat :: IsWordOf(n, v) && Decode(payload, offset) == Ok((n, end))
  }

  lemma WordIsWordOf(value: int)
    ensures IsWordOf(Word(value), value)
  {
  }

  lemma EncodeRepresents(value: int)
    ensures Represents(Encode(Word(value)), value)
  {
    WordIsWordOf(value);
    WordFits(value);
    EncodeMeaning(Word(value), 5);
    LastGroup(Word(value));
  }

  /** There is only one canonical encoding of a number. */
  lemma {:induction false} CanonicalIsUnique(a: seq<Byte>, b: seq<Byte>)
    requires IsCanonical(a) && IsCanonical(b) && Value(a) == Value(b)
    ensures a == b
  {
    ValueSteps(a);
    ValueSteps(b);
    if |a| > 1 && |b| > 1 {
      CanonicalIsUnique(a[1..], b[1..]);
      assert a == [a[0]] + a[1..] && b == [b[0]] + b[1..];
    } else if |a| > 1 {
      ValueIsPositive(a[1..]);
    } else if |b| > 1 {
      ValueIsPositive(b[1..]);
    }
  }

  lemma {:induction false} ValueIsPositive(bytes: seq<Byte>)
    requires bytes != [] && 0 < bytes[|bytes| - 1] < 0x80
    ensures Value(bytes) > 0
  {
    if |bytes| > 1 {
      ValueIsPositive(bytes[1..]);
    }
  }

  /**
    * The bytes `_varint` writes for any integer, one to five of them, are its canonical encoding, and decoding
    * them, whatever stands before and after, uses exactly those bytes and gives the integer modulo 2^32.
    */
  lemma VarIntRoundTrip(value: int, before: seq<Byte>, after: seq<Byte>)
    ensures var bytes := Encode(Word(value));
            && IsCanonical(bytes) && |bytes| <= 5
            && DecodesTo(before + bytes + after, |before|, value, |before| + |bytes|)
  {
    EncodeRepresents(value);
    DecodesWord(value, before, after);
    WordIsWordOf(value);
  }

  /** `_varint(-1)`, which every handshake sends. */
  lemma MinusOne()
    ensures Encode(Word(-1)) == [0xFF, 0xFF, 0xFF, 0xFF, 0x0F]
  {
    assert Word(-1) == 0xFFFF_FFFF;
    assert Encode(0x0F) == [0x0F];
    assert Encode(0x7FF) == [0xFF, 0x0F];
    assert Encode(0x3FFFF) == [0xFF, 0xFF, 0x0F];
    assert Encode(0x1FF_FFFF) == [0xFF, 0xFF, 0xFF, 0x0F];
  }

  lemma DecodesWord(value: int, before: seq<Byte>, after: seq<Byte>)
    ensures var bytes := Encode(Word(value));
            Decode(before + bytes + after, |before|) == Ok((Word(value), |before| + |bytes|))
  {
    var bytes := Encode(Word(value));
    WordFits(value);
    EncodeMeaning(Word(value), 5);
    var payload := before + bytes + after;
    assert payload[|before|..|before| + |bytes|] == bytes;
    DecodeMeaning(payload, |before|, Word(value), |before| + |bytes|);
  }

  lemma ValueSteps(bytes: seq<Byte>)
    requires bytes != []
    ensures Value(bytes) / 0x80 == Value(bytes[1..]) && Value(bytes) % 0x80 == bytes[0] % 0x80
  {
  }

  lemma {:induction false} EncodingIsNotShorter(bytes: seq<Byte>)
    requires bytes != []
    ensures |Encode(Value(bytes))| <= |bytes|
  {
    ValueSteps(bytes);
    if |bytes| > 1 {
      EncodingIsNotShorter(bytes[1..]);
    }
  }

  lemma {:induction false} ShortestIsEncode(bytes: seq<Byte>)
    requires IsEncoding(bytes) && |Encode(Value(bytes))| == |bytes|
    ensures Encode(Value(bytes)) == bytes
  {
    ValueSteps(bytes);
    if |bytes| > 1 {
      var rest := bytes[1..];
      assert Encode(Value(bytes)) == [0x80 + bytes[0] % 0x80] + Encode(Value(rest));
      ShortestIsEncode(rest);
      assert bytes == [bytes[0]] + rest;
    }
  }

  /** No accepted encoding of a value is shorter than the one `_varint` writes, and none of that length is different. */
  lemma VarIntIsMinimal(payload: seq<Byte>, offset: nat)
    requires Decode(payload, offset).Ok?
    ensures var (n, end) := Decode(payload, offset).value;
            && offset < end <= |payload|
            && |Encode(n)| <= end - offset
            && (|Encode(n)| == end - offset ==> payload[offset..end] == Encode(n))
  {
    var (n, end) := Decode(payload, offset).value;
    DecodeMeaning(payload, offset, n, end);
    var bytes := payload[offset..end];
    EncodingIsNotShorter(bytes);
    if |Encode(n)| == |bytes| {
      ShortestIsEncode(bytes);
    }
  }

  // ------------------------------------------------------------------
  // The stream
  // ------------------------------------------------------------------

  /** The bytes the server sends, and how many of them have been read. */
  class StreamReader {
    const data: seq<Byte>
    var position: nat

    constructor (data: seq<Byte>)
      ensures this.data == data && position == 0
    {
      this.data, position := data, 0;
    }

    ghost predicate Valid()
      reads this
    {
      position <= |data|
    }

    /** `readexactly`: None for IncompleteReadError, which uses up what is left. */
    method ReadExactly(n: nat) returns (bytes: Option<seq<Byte>>)
      requires Valid()
      modifies this
      ensures Valid()
      ensures bytes == if old(position) + n <= |data| then Some(data[old(position)..old(position) + n]) else None
      ensures position == if old(position) + n <= |data| then old(position) + n else |data|
    {
      if position + n <= |data| {
        bytes := Some(data[position..position + n]);
        position := position + n;
      } else {
        bytes := None;
        position := |data|;
      }
    }

    /** `_read_varint`: on every input what the buffer decoder says of the same bytes, and the same bytes used. */
    method ReadVarInt() returns (r: Result<nat, StatusError>)
      requires Valid()
      modifies this
      ensures Valid()
      ensures match Decode(data, old(position))
              case Ok((n, end)) => r == Ok(n) && position == end
              case Err(error) => r == Err(error)
    {
      var result: nat := 0;
      for round := 0 to 5
        invariant Valid()
        invariant DecodeFrom(data, position, round, result) == Decode(data, old(position))
      {
        var bytes := ReadExactly(1);
        if bytes.None? {
          return Err(Truncated);
        }
        var byte := bytes.value[0];
        result := BitOr(result, ShiftLeft7(byte % 0x80, round));
        if byte < 0x80 {
          return Ok(result);
        }
      }
      r := Err(InvalidVarInt);
    }

    /** `_read_packet` */
    method ReadPacket() returns (r: Result<seq<Byte>, StatusError>)
      requires Valid()
      modifies this
      ensures Valid()
      ensures r == Packet(data, old(position))
    {
      var length := ReadVarInt();
      if length.Err? {
        return Err(length.error);
      }
      if length.value < 1 || length.value > MAX_PACKET_BYTES {
        return Err(InvalidPacketSize);
      }
      var bytes := ReadExactly(length.value);
      if bytes.None? {
        return Err(Truncated);
      }
      r := Ok(bytes.value);
    }

    /** The part of `query_minecraft_status` that takes the reply apart, up to the text of the status. */
    method ReadStatus() returns (r: Result<seq<Byte>, StatusError>)
      requires Valid()
      modifies this
      ensures Valid()
      ensures r == Status(data, old(position))
    {
      var packet := ReadPacket();
      if packet.Err? {
        return Err(packet.error);
      }
      var id := DecodeVarInt(packet.value, 0);
      if id.Err? {
        return Err(id.error);
      }
      if id.value.0 != 0 {
        return Err(UnexpectedPacket);
      }
      var length := DecodeVarInt(packet.value, id.value.1);
      if length.Err? {
        return Err(length.error);
      }
      if length.value.0 > MAX_STRING_BYTES || length.value.1 + length.value.0 != |packet.value| {
        return Err(InvalidResponse);
      }
      r := Ok(packet.value[length.value.1..]);
    }
  }

  /** The packet that starts at `position`. */
  function Packet(data: seq<Byte>, position: nat): Result<seq<Byte>, StatusError> {
    match Decode(data, position)
    case Err(error) => Err(error)
    case Ok((length, start)) =>
      if length < 1 || length > MAX_PACKET_BYTES then Err(InvalidPacketSize)
      else if start + length > |data| then Err(Truncated)
      else Ok(data[start..start + length])
  }

  /** The text inside a status packet. */
  function Text(packet: seq<Byte>): Result<seq<Byte>, StatusError> {
    match Decode(packet, 0)
    case Err(error) => Err(error)
    case Ok((id, offset)) =>
      if id != 0 then Err(UnexpectedPacket)
      else
        match Decode(packet, offset)
        case Err(error) => Err(error)
        case Ok((length, start)) =>
          if length > MAX_STRING_BYTES || start + length != |packet| then Err(InvalidResponse)
          else Ok(packet[start..])
  }

  function Status(data: seq<Byte>, position: nat): Result<seq<Byte>, StatusError> {
    match Packet(data, position)
    case Err(error) => Err(error)
    case Ok(packet) => Text(packet)
  }

  /** `_string` on encoded text. */
  function StringBytes(text: seq<Byte>): seq<Byte> {
    Encode(Word(|text|)) + text
  }

  /** The reply a server frames around `text`: the length, packet number 0, and the text as a string. */
  function Reply(text: seq<Byte>): seq<Byte> {
    var body := Encode(Word(0)) + StringBytes(text);
    Encode(Word(|body|)) + body
  }

  lemma SmallWord(n: nat)
    requires n < WORD
    ensures Word(n) == n
  {
  }

  lemma TextOfBody(text: seq<Byte>)
    requires |text| <= MAX_STRING_BYTES
    ensures Text(Encode(Word(0)) + StringBytes(text)) == Ok(text)
    ensures 1 <= |Encode(Word(0)) + StringBytes(text)| <= |text| + 10
  {
    var zero, length := Encode(Word(0)), Encode(Word(|text|));
    var body := zero + StringBytes(text);
    DecodesWord(0, [], StringBytes(text));
    assert [] + zero + StringBytes(text) == body;
    DecodesWord(|text|, zero, text);
    assert zero + length + text == body;
    SmallWord(|text|);
    assert body[|zero| + |length|..] == text;
  }

  lemma PacketOfBody(body: seq<Byte>, before: seq<Byte>, after: seq<Byte>)
    requires 1 <= |body| <= MAX_PACKET_BYTES
    ensures Packet(before + (Encode(Word(|body|)) + body) + after, |before|) == Ok(body)
  {
    var head := Encode(Word(|body|));
    FramedAt(before, head, body, after);
    DecodesWord(|body|, before, body + after);
    SmallWord(|body|);
  }

  lemma FramedAt(before: seq<Byte>, head: seq<Byte>, body: seq<Byte>, after: seq<Byte>)
    ensures var data := before + (head + body) + after;
            && data == before + head + (body + after)
            && data[|before| + |head|..|before| + |head| + |body|] == body
            && |before| + |head| + |body| <= |data|
  {
  }

  lemma TextIsShort(packet: seq<Byte>)
    ensures Text(packet).Ok? ==> |Text(packet).value| <= MAX_STRING_BYTES
  {
  }

  /** At `position` of the stream stands the length of the packet, up to `start`, and then the packet. */
  predicate IsPacketAt(data: seq<Byte>, position: nat, packet: seq<Byte>, start: nat) {
    && position < start && start + |packet| <= |data| && 1 <= |packet| <= 2097152
    && IsEncoding(data[position..start]) && Value(data[position..start]) == |packet|
    && data[start..start + |packet|] == packet
  }

  /** The packet is the number 0, up to `middle`, the length of the text, up to `end`, and the text. */
  predicate IsTextOf(packet: seq<Byte>, text: seq<Byte>, middle: nat, end: nat) {
    && 0 < middle < end <= |packet| && |text| <= 131068
    && IsEncoding(packet[..middle]) && Value(packet[..middle]) == 0
    && IsEncoding(packet[middle..end]) && Value(packet[middle..end]) == |text|
    && packet[end..] == text
  }

  lemma PacketMeaning(data: seq<Byte>, position: nat, packet: seq<Byte>)
    ensures Packet(data, position) == Ok(packet) <==> exists start: nat :: IsPacketAt(data, position, packet, start)
  {
    if Packet(data, position) == Ok(packet) {
      var (length, start) := Decode(data, position).value;
      DecodeMeaning(data, position, length, start);
      assert IsPacketAt(data, position, packet, start);
    }
    if start: nat :| IsPacketAt(data, position, packet, start) {
      DecodeMeaning(data, position, |packet|, start);
    }
  }

  lemma TextMeaning(packet: seq<Byte>, text: seq<Byte>)
    ensures Text(packet) == Ok(text) <==> exists middle: nat, end: nat :: IsTextOf(packet, text, middle, end)
  {
    if Text(packet) == Ok(text) {
      var (id, middle) := Decode(packet, 0).value;
      DecodeMeaning(packet, 0, id, middle);
      var (length, end) := Decode(packet, middle).value;
      DecodeMeaning(packet, middle, length, end);
      assert packet[0..middle] == packet[..middle];
      assert IsTextOf(packet, text, middle, end);
    }
    if middle: nat, end: nat :| IsTextOf(packet, text, middle, end) {
      assert packet[0..middle] == packet[..middle];
      DecodeMeaning(packet, 0, 0, middle);
      DecodeMeaning(packet, middle, |text|, end);
    }
  }

  /** What is accepted as a status reply, whoever sent it, and as which text. */
  lemma StatusMeaning(data: seq<Byte>, position: nat, text: seq<Byte>)
    ensures Status(data, position) == Ok(text) <==>
            exists packet: seq<Byte>, start: nat, middle: nat, end: nat ::
              IsPacketAt(data, position, packet, start) && IsTextOf(packet, text, middle, end)
  {
    if Packet(data, position).Ok? {
      PacketMeaning(data, position, Packet(data, position).value);
      TextMeaning(Packet(data, position).value, text);
    }
    if packet: seq<Byte>, start: nat, middle: nat, end: nat :|
      IsPacketAt(data, position, packet, start) && IsTextOf(packet, text, middle, end)
    {
      PacketMeaning(data, position, packet);
      TextMeaning(packet, text);
    }
  }

  /**
    * A framed reply comes back as its text, whatever else is on the stream before and after it, if and only
    * if the text has at most 131068 bytes.
    */
  lemma ReplyRoundTrip(text: seq<Byte>, before: seq<Byte>, after: seq<Byte>)
    ensures Status(before + Reply(text) + after, |before|) == Ok(text) <==> |text| <= MAX_STRING_BYTES
  {
    var data := before + Reply(text) + after;
    if |text| <= MAX_STRING_BYTES {
      TextOfBody(text);
      PacketOfBody(Encode(Word(0)) + StringBytes(text), before, after);
    } else if Packet(data, |before|).Ok? {
      TextIsShort(Packet(data, |before|).value);
    }
  }
}
