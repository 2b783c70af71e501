/** Bytes, the reader the decoders consume, and the MQTT primitives: the variable-length Remaining
    Length (section 2.2.3 of MQTT 3.1.1) and length-prefixed strings and binary data (section 1.5.3). */
module Wire {
  import opened Sequences

  type byte = x: int | 0 <= x < 256

  type Bytes = seq<byte>

  datatype Error =
    | Eof
    | MalformedRemainingLength
    | InvalidProtocol
    | InvalidPacketType
    | InvalidQoS
    | EmptyPayload
    | TruncatedData
    | InvalidReservedBit
    | EmptyTopicName

  datatype Result<+T> = Ok(value: T) | Err(error: Error)

  /** What a parser makes of the bytes ahead: a value and the bytes left, or an error. */
  datatype Parsed<+T> = Got(value: T, rest: Bytes) | Failed(error: Error) {
    function Outcome(): Result<T> { if Got? then Ok(value) else Err(error) }
  }

  /** A byte source with a position, as bytes.Reader and a finite connection stream behave. */
  class Reader {
    const data: Bytes
    var pos: nat

    ghost predicate Valid() reads this { pos <= |data| }

    ghost function Rest(): Bytes
      reads this
      requires Valid()
    {
      data[pos..]
    }

    constructor (data: Bytes)
      ensures Valid() && Rest() == data
    {
      this.data, pos := data, 0;
    }

    function Len(): nat
      reads this
      requires Valid()
    {
      |data| - pos
    }

    /** All n bytes, or an error after consuming what there was. */
    method ReadFull(n: nat) returns (buf: Bytes, err: bool)
      requires Valid()
      modifies this
      ensures Valid() && err == (|old(Rest())| < n)
      ensures !err ==> buf == old(Rest())[..n] && Rest() == old(Rest())[n..]
    {
      if |data| - pos < n {
        pos := |data|;
        return [], true;
      }
      buf := data[pos..pos + n];
      pos := pos + n;
      return buf, false;
    }
  }

  // ----- stock facts about concatenation -----

  lemma Parts(a: Bytes, b: Bytes)
    ensures (a + b)[..|a|] == a && (a + b)[|a|..] == b
  {
  }

  // ----- Remaining Length -----

  const MAX_LENGTH: int := 268_435_456  // 128^4

  function EncodedLength(n: nat): Bytes {
    if n < 128 then [n] else [n % 128 + 128] + EncodedLength(n / 128)
  }

  /** The length ahead when `read` of its bytes have already been taken. */
  function LengthAhead(s: Bytes, read: nat): Parsed<nat>
    decreases |s|
  {
    if s == [] then Failed(Eof)
    else if read >= 4 then Failed(MalformedRemainingLength)
    else if s[0] < 128 then Got(s[0], s[1..])
    else match LengthAhead(s[1..], read + 1)
      case Got(v, rest) => Got(s[0] - 128 + 128 * v, rest)
      case Failed(e) => Failed(e)
  }

  method EncodeRemainingLength(length: nat) returns (encoded: Bytes)
    ensures encoded == EncodedLength(length)
  {
    encoded := [];
    var n := length;
    while true
      invariant encoded + EncodedLength(n) == EncodedLength(length)
      decreases n
    {
      var b: byte := n % 128;
      n := n / 128;
      if n > 0 {
        b := b + 128;
      }
      ghost var before := encoded;
      encoded := encoded + [b];
      assert n > 0 ==> before + ([b] + EncodedLength(n)) == encoded + EncodedLength(n);
      if n == 0 {
        break;
      }
    }
  }

  /** The weight of the byte at position k, and one past the largest value of k bytes. */
  function Place(k: nat): nat {
    match k
    case 0 => 1
    case 1 => 128
    case 2 => 16384
    case 3 => 2097152
    case _ => 268435456
  }

  function Scaled(multiplier: nat, value: nat, p: Parsed<nat>): Parsed<nat> {
    match p
    case Got(v, rest) => Got(value + multiplier * v, rest)
    case Failed(e) => Failed(e)
  }

  /** Taking one byte: the lengths ahead of it and behind it, scaled, are the same. */
  lemma {:induction false} ByteTaken(multiplier: nat, value: nat, s: Bytes, read: nat)
    requires s != []
    ensures var v := value + s[0] % 128 * multiplier;
      Scaled(multiplier, value, LengthAhead(s, read))
      == if read >= 4 then Failed(MalformedRemainingLength)
         else if s[0] < 128 then Got(v, s[1..])
         else Scaled(multiplier * 128, v, LengthAhead(s[1..], read + 1))
  {
    var b := s[0];
    assert b % 128 == if b < 128 then b else b - 128;
    if read < 4 && b >= 128 && LengthAhead(s[1..], read + 1).Got? {
      var v := LengthAhead(s[1..], read + 1).value;
      Distribute(multiplier, b - 128, v);
    }
  }

  lemma Distribute(m: int, a: int, v: int)
    ensures m * (a + 128 * v) == a * m + m * 128 * v
  {
  }

  method DecodeRemainingLength(reader: Reader) returns (r: Result<nat>)
    requires reader.Valid()
    modifies reader
    ensures reader.Valid()
    ensures r == LengthAhead(old(reader.Rest()), 0).Outcome()
    ensures r.Ok? ==> reader.Rest() == LengthAhead(old(reader.Rest()), 0).rest
  {
    var multiplier, value: nat := 1, 0;
    ghost var k := 0;
    ghost var all := LengthAhead(reader.Rest(), 0);
    while true
      invariant reader.Valid() && k <= 4 && multiplier == Place(k)
      invariant all == Scaled(multiplier, value, LengthAhead(reader.Rest(), k))
      decreases |reader.Rest()|
    {
      ghost var ahead := reader.Rest();
      var buf, err := reader.ReadFull(1);
      if err {
        return Err(Eof);
      }
      var b := buf[0];
      ByteTaken(multiplier, value, ahead, k);
      value := value + b % 128 * multiplier;
      multiplier := multiplier * 128;
      if multiplier > MAX_LENGTH {
        return Err(MalformedRemainingLength);
      }
      if b < 128 {
        break;
      }
      k := k + 1;
    }
    return Ok(value);
  }

  lemma {:induction false} LengthRoundTripFrom(n: nat, rest: Bytes, read: nat, bound: nat)
    requires read <= 4 && bound == if read == 4 then 0 else Place(4 - read)
    ensures LengthAhead(EncodedLength(n) + rest, read)
         == if n < bound then Got(n, rest) else Failed(MalformedRemainingLength)
    decreases 4 - read
  {
    var s := EncodedLength(n) + rest;
    if read < 4 && n >= 128 {
      assert s[1..] == EncodedLength(n / 128) + rest;
      assert read < 3 ==> (n < bound <==> n / 128 < bound / 128);
      LengthRoundTripFrom(n / 128, rest, read + 1, if read == 3 then 0 else bound / 128);
    }
  }

  /** The decoder gives back an encoded length exactly when it is below 128^4; a longer one is refused as
      malformed. */
  lemma LengthRoundTrip(n: nat, rest: Bytes)
    ensures LengthAhead(EncodedLength(n) + rest, 0) == Got(n, rest) <==> n < MAX_LENGTH
    ensures n >= MAX_LENGTH ==> LengthAhead(EncodedLength(n) + rest, 0) == Failed(MalformedRemainingLength)
  {
    LengthRoundTripFrom(n, rest, 0, MAX_LENGTH);
  }

  /** The encoder's form is the shortest the decoder accepts for a value, and accepted values are below
      128^4. */
  lemma {:induction false} EncodingIsShortest(s: Bytes, read: nat)
    requires LengthAhead(s, read).Got?
    ensures var p := LengthAhead(s, read);
      && 1 <= |EncodedLength(p.value)| <= |s| - |p.rest|
      && p.rest == s[|s| - |p.rest|..]
      && read < 4
      && p.value < Place(4 - read)
    decreases |s|
  {
    if s[0] >= 128 {
      EncodingIsShortest(s[1..], read + 1);
      var v := LengthAhead(s[1..], read + 1).value;
      assert (s[0] - 128 + 128 * v) / 128 == v;
    }
  }

  /** The digits of n with one more continuation byte and a final zero. */
  function Padded(n: nat): Bytes {
    if n < 128 then [n + 128, 0] else [n % 128 + 128] + Padded(n / 128)
  }

  lemma {:induction false} PaddedAccepted(n: nat, read: nat)
    requires read < 3 && n < Place(3 - read)
    ensures LengthAhead(Padded(n), read) == Got(n, []) && |Padded(n)| > |EncodedLength(n)|
    decreases 3 - read
  {
    if n >= 128 { PaddedAccepted(n / 128, read + 1); }
  }

  lemma {:induction false} LongFormIsExact(s: Bytes, read: nat)
    requires LengthAhead(s, read).Got? && read <= 3 && LengthAhead(s, read).value >= Place(3 - read)
    ensures s == EncodedLength(LengthAhead(s, read).value) + LengthAhead(s, read).rest
    decreases |s|
  {
    var tail := s[1..];
    assert s == [s[0]] + tail;
    assert read == 3 ==> LengthAhead(tail, 4).Failed?;
    if s[0] >= 128 && read < 3 {
      var p := LengthAhead(tail, read + 1);
      LongFormIsExact(tail, read + 1);
      DigitFirst(s[0] - 128, p.value);
      Assoc([s[0]], EncodedLength(p.value), p.rest);
    }
  }

  lemma DigitFirst(d: byte, v: nat)
    requires d < 128 && v > 0
    ensures EncodedLength(d + 128 * v) == [d + 128] + EncodedLength(v)
  {
  }

  /** The decoder accepts a longer form besides the encoder's exactly for values below 128^3. */
  lemma OneFormIff(n: nat)
    ensures (forall s :: LengthAhead(s, 0) == Got(n, []) ==> s == EncodedLength(n)) <==> n >= 2097152
  {
    if n >= 2097152 {
      forall s | LengthAhead(s, 0) == Got(n, []) ensures s == EncodedLength(n) {
        LongFormIsExact(s, 0);
        assert EncodedLength(n) + [] == EncodedLength(n);
      }
    } else {
      PaddedAccepted(n, 0);
      assert LengthAhead(Padded(n), 0) == Got(n, []) && Padded(n) != EncodedLength(n);
    }
  }

  /** Four continuation bytes are refused whatever follows them. */
  lemma ContinuationPastFourBytes(s: Bytes)
    requires |s| >= 4 && forall i | 0 <= i < 4 :: s[i] >= 128
    ensures LengthAhead(s, 0).Failed?
    ensures |s| > 4 ==> LengthAhead(s, 0) == Failed(MalformedRemainingLength)
  {
    assert s[1..][0] == s[1] && s[2..][0] == s[2] && s[3..][0] == s[3];
    assert s[1..][1..] == s[2..] && s[2..][1..] == s[3..] && s[3..][1..] == s[4..];
    assert LengthAhead(s[4..], 4).Failed?;
    assert LengthAhead(s[3..], 3).Failed?;
    assert LengthAhead(s[2..], 2).Failed?;
    assert LengthAhead(s[1..], 1).Failed?;
  }

  /** The value of an accepted form: seven bits a byte, the low ones first, every byte but the last with its
      high bit set. */
  lemma LengthByDigits(d0: byte, d1: byte, d2: byte, d3: byte, rest: Bytes)
    requires d0 < 128 && d1 < 128 && d2 < 128 && d3 < 128
    ensures LengthAhead([d0] + rest, 0) == Got(d0, rest)
    ensures LengthAhead([d0 + 128] + ([d1] + rest), 0) == Got(d0 + 128 * d1, rest)
    ensures LengthAhead([d0 + 128] + ([d1 + 128] + ([d2] + rest)), 0) == Got(d0 + 128 * d1 + 16384 * d2, rest)
    ensures LengthAhead([d0 + 128] + ([d1 + 128] + ([d2 + 128] + ([d3] + rest))), 0)
         == Got(d0 + 128 * d1 + 16384 * d2 + 2097152 * d3, rest)
  {
    OneDigit(d0, rest, 0);
    TwoDigits(d0, d1, rest, 0);
    ThreeDigits(d0, d1, d2, rest, 0);
    ThreeDigits(d1, d2, d3, rest, 1);
    MoreDigits(d0, [d1 + 128] + ([d2 + 128] + ([d3] + rest)), 0);
  }

  lemma {:induction false} TwoDigits(d: byte, e: byte, rest: Bytes, read: nat)
    requires d < 128 && e < 128 && read < 3
    ensures LengthAhead([d + 128] + ([e] + rest), read) == Got(d + 128 * e, rest)
  {
    OneDigit(e, rest, read + 1);
    MoreDigits(d, [e] + rest, read);
  }

  lemma {:induction false} ThreeDigits(d: byte, e: byte, f: byte, rest: Bytes, read: nat)
    requires d < 128 && e < 128 && f < 128 && read < 2
    ensures LengthAhead([d + 128] + ([e + 128] + ([f] + rest)), read) == Got(d + 128 * e + 16384 * f, rest)
  {
    TwoDigits(e, f, rest, read + 1);
    MoreDigits(d, [e + 128] + ([f] + rest), read);
  }

  lemma {:induction false} OneDigit(d: byte, rest: Bytes, read: nat)
    requires d < 128 && read < 4
    ensures LengthAhead([d] + rest, read) == Got(d, rest)
  {
    Parts([d], rest);
  }

  lemma {:induction false} MoreDigits(d: byte, s: Bytes, read: nat)
    requires d < 128 && read < 4 && LengthAhead(s, read + 1).Got?
    ensures LengthAhead([d + 128] + s, read)
         == Got(d + 128 * LengthAhead(s, read + 1).value, LengthAhead(s, read + 1).rest)
  {
    Parts([d + 128], s);
  }

  /** A length whose bytes end before the last one is an end of input, up to four bytes. */
  lemma {:induction false} LengthCutShort(s: Bytes, read: nat)
    requires |s| + read <= 4 && forall i | 0 <= i < |s| :: s[i] >= 128
    ensures LengthAhead(s, read) == Failed(Eof)
    decreases |s|
  {
    if s != [] { LengthCutShort(s[1..], read + 1); }
  }

  // ----- two-byte integers, strings and binary data -----

  type uint16 = x: int | 0 <= x < 65536

  function Int16(n: uint16): Bytes { [n / 256, n % 256] }

  function Int16At(s: Bytes): uint16
    requires |s| >= 2
  {
    var high: int, low: int := s[0], s[1];
    high * 256 + low
  }

  lemma Int16RoundTrip(n: uint16, s: Bytes)
    ensures Int16At(Int16(n) + s) == n
    ensures Int16At(Int16(n)) == n
    ensures |s| >= 2 ==> Int16(Int16At(s)) == s[..2]
  {
  }

  /** The prefix keeps only the low 16 bits of the length; the content is written in full. */
  function WrittenString(s: Bytes): Bytes { Int16(|s| % 65536) + s }

  function StringAhead(s: Bytes): Parsed<Bytes> {
    if |s| < 2 then Failed(Eof) else
      var n, content := Int16At(s), s[2..];
      if |content| < n then Failed(Eof) else Got(content[..n], content[n..])
  }

  /** Strings and binary data are read alike: a string is its bytes. */
  method ReadString(reader: Reader) returns (r: Result<Bytes>)
    requires reader.Valid()
    modifies reader
    ensures reader.Valid()
    ensures r == StringAhead(old(reader.Rest())).Outcome()
    ensures r.Ok? ==> reader.Rest() == StringAhead(old(reader.Rest())).rest
  {
    ghost var s := reader.Rest();
    var lenBuf, err := reader.ReadFull(2);
    if err {
      return Err(Eof);
    }
    var length := Int16At(lenBuf);
    assert length == Int16At(s);
    if length == 0 {
      assert s[2..][..0] == [] && s[2..][0..] == s[2..];
      return Ok([]);
    }
    var buf, err' := reader.ReadFull(length);
    if err' {
      return Err(Eof);
    }
    return Ok(buf);
  }

  method WriteUTF8String(s: Bytes) returns (buf: Bytes)
    ensures buf == WrittenString(s)
  {
    var length: uint16 := |s| % 65536;
    buf := Int16(length);
    buf := buf + s;
  }

  /** A string survives exactly when it fits its two-byte prefix. */
  lemma StringRoundTrip(x: Bytes, rest: Bytes)
    ensures StringAhead(WrittenString(x) + rest) == Got(x, rest) <==> |x| < 65536
  {
    Int16RoundTrip(|x| % 65536, x + rest);
    Assoc(Int16(|x| % 65536), x, rest);
    Parts(Int16(|x| % 65536), x + rest);
    Parts(x, rest);
  }

  /** Two bytes, the high one first. */
  lemma Int16ByBytes(h: byte, l: byte, rest: Bytes)
    ensures Int16(256 * h + l) == [h, l] && Int16At([h, l] + rest) == 256 * h + l
  {
  }

  /** A string on the wire is its length in two bytes and its content. */
  lemma StringByBytes(h: byte, l: byte, x: Bytes, rest: Bytes)
    requires |x| == 256 * h + l
    ensures WrittenString(x) == [h, l] + x && StringAhead([h, l] + x + rest) == Got(x, rest)
  {
    StringRoundTrip(x, rest);
  }

  /** What is read prints back to the bytes read. */
  lemma StringReprint(s: Bytes)
    requires StringAhead(s).Got?
    ensures var p := StringAhead(s); s == WrittenString(p.value) + p.rest && |p.value| < 65536
  {
    Int16RoundTrip(0, s);
    var p := StringAhead(s);
    Assoc(s[..2], p.value, p.rest);
  }
}
