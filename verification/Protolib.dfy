/** Length-prefixed messages on a byte stream: each message follows its size, written as a varint. */
module Protolib {
  import opened Arithmetic

  type Byte = b: int | 0 <= b < 256

  const MASK: int := 0x1_0000_0000

  // ----- Varints -----

  /** Seven bits a byte, the lowest first; every byte but the last has its high bit set. */
  function Varint(value: nat): (r: seq<Byte>)
    ensures |r| > 0
  {
    if value < 0x80 then [value] else [0x80 + value % 0x80] + Varint(value / 0x80)
  }

  /** As many bytes are written as the value has digits to the base 128. */
  lemma {:induction false} VarintLength(value: nat)
    ensures var v := Varint(value); value < Power(0x80, |v|) && (|v| > 1 ==> value >= Power(0x80, |v| - 1))
  {
    if value < 0x80 {
      assert Power(0x80, 1) == 0x80 * Power(0x80, 0);
    } else {
      var n := |Varint(value / 0x80)|;
      VarintLength(value / 0x80);
      DigitBounds(value, Power(0x80, n));
      DigitBounds(value, Power(0x80, n - 1));
    }
  }

  lemma DigitBounds(value: nat, p: nat)
    ensures value / 0x80 < p ==> value < 0x80 * p
    ensures value / 0x80 >= p ==> value >= 0x80 * p
  {
  }

  /** Byte i holds the i-th of them, and all bytes but the last have the high bit. */
  lemma {:induction false} VarintDigits(value: nat, i: nat)
    requires i < |Varint(value)|
    ensures var v := Varint(value);
            v[i] == value / Power(0x80, i) % 0x80 + if i < |v| - 1 then 0x80 else 0
    decreases value, i
  {
    if i > 0 {
      VarintDigits(value / 0x80, i - 1);
      DivideTwice(value, 0x80, Power(0x80, i - 1));
    }
  }

  /** The seven bits of a byte, at their place in the value. */
  function Shifted(b: Byte, pos: nat): nat {
    b % 0x80 * Power(0x80, pos)
  }

  datatype Decoded = EndOfFile | TooLong | Value(size: int, rest: seq<Byte>)

  /** Values from 2^63 on count as negative; either way only the low 32 bits are kept. */
  function Narrow(result: nat): (r: int)
    ensures r % MASK == result % MASK && -MASK <= r < MASK
    ensures r < 0 <==> result >= 0x8000_0000_0000_0000
  {
    if result >= 0x8000_0000_0000_0000 then result % MASK - MASK else result % MASK
  }

  /** The varint at the front of a stream, when `pos` bytes of it have been read and give `result`. */
  function Decoding(data: seq<Byte>, pos: nat, result: nat): Decoded
    decreases |data|
  {
    if pos >= 10 then TooLong
    else if data == [] then EndOfFile
    else
      var next := result + Shifted(data[0], pos);
      if data[0] < 0x80 then Value(Narrow(next), data[1..]) else Decoding(data[1..], pos + 1, next)
  }

  function Decode(data: seq<Byte>): Decoded {
    Decoding(data, 0, 0)
  }

  /** One byte of a written varint. */
  lemma DecodeFirst(b: Byte, low: nat, tail: seq<Byte>, pos: nat, result: nat)
    requires pos < 10 && low == b % 0x80
    ensures var next := result + low * Power(0x80, pos);
            Decoding([b] + tail, pos, result) ==
            if b < 0x80 then Value(Narrow(next), tail) else Decoding(tail, pos + 1, next)
  {
    assert ([b] + tail)[1..] == tail;
    assert Shifted(b, pos) == low * Power(0x80, pos);
  }

  lemma PowerAtLeast(n: nat)
    requires n > 0
    ensures Power(0x80, n) >= 0x80
  {
  }

  /** What decoding a written varint gives, when `pos` bytes have been read and give `result`. */
  function Written(value: nat, rest: seq<Byte>, pos: nat, result: nat): Decoded
    requires pos <= 10
  {
    if value < Power(0x80, 10 - pos) then Value(Narrow(result + value * Power(0x80, pos)), rest) else TooLong
  }

  lemma LastByte(value: nat, rest: seq<Byte>, pos: nat, result: nat)
    requires pos < 10 && value < 0x80
    ensures Decoding(Varint(value) + rest, pos, result) == Written(value, rest, pos, result)
  {
    assert Varint(value) == [value];
    DecodeFirst(value, value, rest, pos, result);
    PowerAtLeast(10 - pos);
  }

  lemma MoreBytes(value: nat, rest: seq<Byte>, pos: nat, result: nat)
    requires pos < 10 && value >= 0x80
    ensures Decoding(Varint(value) + rest, pos, result) ==
            Decoding(Varint(value / 0x80) + rest, pos + 1, result + value % 0x80 * Power(0x80, pos))
  {
    var b, high := value % 0x80, value / 0x80;
    assert Varint(value) + rest == [0x80 + b] + (Varint(high) + rest);
    DecodeFirst(0x80 + b, b, Varint(high) + rest, pos, result);
  }

  lemma WrittenOn(value: nat, rest: seq<Byte>, pos: nat, result: nat)
    requires pos < 10
    ensures Written(value / 0x80, rest, pos + 1, result + value % 0x80 * Power(0x80, pos))
            == Written(value, rest, pos, result)
  {
    NextLimit(value, pos);
    NextByte(value, pos);
  }

  lemma {:induction false} DecodeVarintFrom(value: nat, rest: seq<Byte>, pos: nat, result: nat)
    requires pos <= 10
    ensures pos < 10 || value > 0 ==>
              Decoding(Varint(value) + rest, pos, result) == Written(value, rest, pos, result)
    decreases value
  {
    if pos < 10 {
      if value < 0x80 {
        LastByte(value, rest, pos, result);
      } else {
        MoreBytes(value, rest, pos, result);
        DecodeVarintFrom(value / 0x80, rest, pos + 1, result + value % 0x80 * Power(0x80, pos));
        WrittenOn(value, rest, pos, result);
      }
    }
  }

  lemma NextLimit(value: nat, pos: nat)
    requires pos < 10
    ensures value / 0x80 < Power(0x80, 9 - pos) <==> value < Power(0x80, 10 - pos)
  {
    HighPart(value, Power(0x80, 9 - pos));
  }

  lemma HighPart(value: nat, limit: nat)
    ensures value / 0x80 < limit <==> value < 0x80 * limit
  {
  }

  lemma NextByte(value: nat, pos: nat)
    ensures value % 0x80 * Power(0x80, pos) + value / 0x80 * Power(0x80, pos + 1) == value * Power(0x80, pos)
  {
    SevenBits(value, Power(0x80, pos));
  }

  lemma SevenBits(value: nat, unit: nat)
    ensures value % 0x80 * unit + value / 0x80 * (0x80 * unit) == value * unit
  {
    var b, high := value % 0x80, value / 0x80;
    assert value == b + 0x80 * high;
    assert high * (0x80 * unit) == (0x80 * high) * unit;
  }

  lemma TenBytes(ten: nat)
    requires ten == 10
    ensures Power(0x80, ten) == TOO_LONG
  {
    assert Power(0x80, 3) == 0x20_0000;
    assert Power(0x80, 6) == 0x400_0000_0000;
    assert Power(0x80, 9) == 0x8000_0000_0000_0000;
  }

  /** What comes back of a written varint: its low 32 bits, as long as it has at most seventy bits. */
  lemma DecodeVarint(value: nat, rest: seq<Byte>)
    ensures Decode(Varint(value) + rest) ==
            if value < TOO_LONG then Value(Narrow(value), rest) else TooLong
  {
    DecodeFromStart(value, rest, 0);
  }

  lemma DecodeFromStart(value: nat, rest: seq<Byte>, start: nat)
    requires start == 0
    ensures Decoding(Varint(value) + rest, start, start) ==
            if value < TOO_LONG then Value(Narrow(value), rest) else TooLong
  {
    DecodeVarintFrom(value, rest, start, start);
    TenBytes(10 - start);
    assert start + value * Power(0x80, start) == value;
  }

  /** So exactly the 32-bit values make the round trip. */
  lemma VarintRoundTrip(value: nat, rest: seq<Byte>)
    ensures Decode(Varint(value) + rest) == Value(value, rest) <==> value < MASK
  {
    DecodeVarint(value, rest);
  }

  // ----- Messages -----

  type Message = seq<Byte>

  function Encoded(ms: seq<Message>): seq<Byte> {
    if ms == [] then [] else Varint(|ms[0]|) + ms[0] + Encoded(ms[1..])
  }

  /** Reading stops at the end of the data; the size -1 asks for all of it, and no smaller one is accepted. */
  function Read(data: seq<Byte>, size: int): (r: (seq<Byte>, seq<Byte>))
    requires size >= -1
    ensures r.0 + r.1 == data
    ensures 0 <= size <= |data| ==> |r.0| == size
  {
    if 0 <= size <= |data| then (data[..size], data[size..]) else (data, [])
  }

  datatype Next = NoMessage(rest: seq<Byte>) | ValueError(rest: seq<Byte>) | Next(message: Message, rest: seq<Byte>)

  /** One attempt to read a message. */
  function NextMessage(data: seq<Byte>): (r: Next)
    ensures r.Next? ==> |r.rest| < |data|
  {
    DecodeConsumes(data, 0, 0);
    match Decode(data)
    case EndOfFile => NoMessage([])
    case TooLong => NoMessage(data[10..])
    case Value(size, rest) =>
      if size == 0 then NoMessage(rest)
      else if size < -1 then ValueError(rest)
      else Next(Read(rest, size).0, Read(rest, size).1)
  }

  lemma {:induction false} DecodeConsumes(data: seq<Byte>, pos: nat, result: nat)
    requires pos <= 10
    ensures var d := Decoding(data, pos, result);
            && (d.TooLong? ==> |data| >= 10 - pos)
            && (d.Value? ==> |d.rest| < |data| && d.rest == data[|data| - |d.rest|..])
    decreases 10 - pos
  {
    if pos < 10 && data != [] && data[0] >= 0x80 {
      DecodeConsumes(data[1..], pos + 1, result + Shifted(data[0], pos));
    }
  }

  /** Everything a reader gets until the first attempt that fails. */
  function AllMessages(data: seq<Byte>): seq<Message>
    decreases |data|
  {
    match NextMessage(data)
    case NoMessage(_) => []
    case ValueError(_) => []
    case Next(m, rest) => [m] + AllMessages(rest)
  }

  /** The messages before the first empty one. */
  function BeforeEmpty(ms: seq<Message>): seq<Message> {
    if ms == [] || ms[0] == [] then [] else [ms[0]] + BeforeEmpty(ms[1..])
  }

  lemma ReadsFirst(m: Message, rest: seq<Byte>)
    requires |m| < MASK
    ensures NextMessage(Varint(|m|) + m + rest) == if m == [] then NoMessage(rest) else Next(m, rest)
  {
    VarintRoundTrip(|m|, m + rest);
    Rearranged(Varint(|m|), m, rest);
    NextOfSize(Varint(|m|) + (m + rest), |m|, m + rest);
  }

  lemma Rearranged(size: seq<Byte>, m: Message, rest: seq<Byte>)
    ensures size + m + rest == size + (m + rest)
    ensures (m + rest)[..|m|] == m && (m + rest)[|m|..] == rest
  {
  }

  lemma NextOfSize(data: seq<Byte>, size: nat, body: seq<Byte>)
    requires Decode(data) == Value(size, body) && size <= |body|
    ensures NextMessage(data) == if size == 0 then NoMessage(body) else Next(body[..size], body[size..])
  {
  }

  /** A stream gives back exactly the messages before the first empty one, whose size is taken for the end. */
  lemma {:induction false} StreamGivesMessages(ms: seq<Message>)
    requires forall i :: 0 <= i < |ms| ==> |ms[i]| < MASK
    ensures AllMessages(Encoded(ms)) == BeforeEmpty(ms)
  {
    if ms != [] {
      ReadsFirst(ms[0], Encoded(ms[1..]));
      StreamGivesMessages(ms[1..]);
    }
  }

  const TOO_LONG: int := 0x40_0000_0000_0000_0000

  /** What a reader gets of any message, whatever its size: nothing where the size is refused, reads as zero or
      as a number below -1; all that is left where it reads as -1; else as many bytes as the size says. */
  lemma ReadsAny(m: Message, rest: seq<Byte>)
    ensures var next := NextMessage(Varint(|m|) + m + rest);
            var size := Narrow(|m|);
            if |m| >= TOO_LONG || size == 0 then next.NoMessage?
            else if size < -1 then next == ValueError(m + rest)
            else if size == -1 then next == Next(m + rest, [])
            else size <= |m| && next == Next((m + rest)[..size], (m + rest)[size..])
  {
    Rearranged(Varint(|m|), m, rest);
    DecodeVarint(|m|, m + rest);
    NarrowIsSmaller(|m|);
  }

  lemma NarrowIsSmaller(size: nat)
    ensures Narrow(size) <= size && Narrow(size) < MASK
  {
  }

  /** A message is read back as it is if its size has 32 bits and is not zero; or if it is the last one and its
      size reads as -1. */
  predicate ComesBack(m: Message, last: bool) {
    || 0 < |m| < MASK
    || (last && |m| < TOO_LONG && Narrow(|m|) == -1)
  }

  /** The first attempt on a written stream. */
  lemma FirstAttempt(m: Message, ms: seq<Message>)
    ensures AllMessages(Encoded([m] + ms)) ==
            match NextMessage(Varint(|m|) + m + Encoded(ms))
            case NoMessage(_) => []
            case ValueError(_) => []
            case Next(first, rest) => [first] + AllMessages(rest)
  {
    assert ([m] + ms)[1..] == ms;
    assert Encoded([m] + ms) == Varint(|m|) + m + Encoded(ms);
  }

  lemma FirstComesBack(m: Message, ms: seq<Message>)
    ensures var all := AllMessages(Encoded([m] + ms));
            all != [] && all[0] == m <==> ComesBack(m, Encoded(ms) == [])
    ensures ComesBack(m, Encoded(ms) == []) && |m| < MASK ==>
              AllMessages(Encoded([m] + ms)) == [m] + AllMessages(Encoded(ms))
    ensures ComesBack(m, Encoded(ms) == []) && |m| >= MASK ==> AllMessages(Encoded([m] + ms)) == [m]
  {
    var rest := Encoded(ms);
    FirstAttempt(m, ms);
    if |m| < MASK {
      ReadsFirst(m, rest);
    } else {
      ReadsAny(m, rest);
      NarrowIsSmaller(|m|);
      NothingLeft();
      SameOnlyAlone(m, rest);
    }
  }

  lemma SameOnlyAlone(m: Message, rest: seq<Byte>)
    ensures m + rest == m <==> rest == []
  {
    assert |m + rest| == |m| + |rest|;
  }

  lemma NothingLeft()
    ensures AllMessages([]) == []
  {
    assert Decode([]) == EndOfFile;
  }

  lemma EncodedIsEmpty(ms: seq<Message>)
    ensures Encoded(ms) == [] <==> ms == []
  {
  }

  ghost predicate AllComeBack(ms: seq<Message>) {
    forall i :: 0 <= i < |ms| ==> ComesBack(ms[i], i == |ms| - 1)
  }

  lemma AllButFirst(ms: seq<Message>)
    requires ms != []
    ensures AllComeBack(ms) <==> ComesBack(ms[0], |ms| == 1) && AllComeBack(ms[1..])
  {
    var rest := ms[1..];
    if AllComeBack(ms) {
      forall i | 0 <= i < |rest| ensures ComesBack(rest[i], i == |rest| - 1) {
        assert ComesBack(ms[i + 1], i + 1 == |ms| - 1);
      }
    }
    if ComesBack(ms[0], |ms| == 1) && AllComeBack(rest) {
      forall i | 0 <= i < |ms| ensures ComesBack(ms[i], i == |ms| - 1) {
        if i > 0 {
          assert ComesBack(rest[i - 1], i - 1 == |rest| - 1);
        }
      }
    }
  }

  /** So the round trip of a whole stream holds exactly if each message comes back. */
  lemma {:induction false} StreamRoundTrip(ms: seq<Message>)
    ensures AllMessages(Encoded(ms)) == ms <==> AllComeBack(ms)
  {
    if ms == [] {
      NothingLeft();
    } else {
      assert ms == [ms[0]] + ms[1..];
      FirstComesBack(ms[0], ms[1..]);
      EncodedIsEmpty(ms[1..]);
      AllButFirst(ms);
      StreamRoundTrip(ms[1..]);
      SameTail(AllMessages(Encoded(ms[1..])), ms);
    }
  }

  lemma SameTail(tail: seq<Message>, ms: seq<Message>)
    requires ms != []
    ensures [ms[0]] + tail == ms <==> tail == ms[1..]
  {
    assert ([ms[0]] + tail)[1..] == tail;
    assert [ms[0]] + ms[1..] == ms;
  }

  // ----- Files -----

  /** A file, by what is still to be read from it or what has been written to it. */
  class File {
    var data: seq<Byte>

    constructor (data: seq<Byte>)
      ensures this.data == data
    {
      this.data := data;
    }

    method ReadBytes(size: int) returns (r: seq<Byte>)
      requires size >= -1
      modifies this
      ensures (r, data) == Read(old(data), size)
    {
      var got := Read(data, size);
      r, data := got.0, got.1;
    }

    method Write(bytes: seq<Byte>)
      modifies this
      ensures data == old(data) + bytes
    {
      data := data + bytes;
    }
  }

  method EncodeVarint32(out: File, size: nat)
    modifies out
    ensures out.data == old(out.data) + Varint(size)
  {
    var bits, value := size % 0x80, size / 0x80;
    while value != 0
      invariant 0 <= bits < 0x80 && value >= 0
      invariant out.data + Varint(bits + 0x80 * value) == old(out.data) + Varint(size)
      decreases value
    {
      var n := bits + 0x80 * value;
      assert n % 0x80 == bits && n / 0x80 == value;
      assert out.data + ([0x80 + bits] + Varint(value)) == out.data + [0x80 + bits] + Varint(value);
      out.Write([0x80 + bits]);
      bits, value := value % 0x80, value / 0x80;
    }
    out.Write([bits]);
  }

  datatype Varint32 = Varint32(size: int, pos: nat) | TooManyBytes

  /** What reading a varint returns and what it leaves of the data. */
  ghost predicate IsRead(r: Varint32, data: seq<Byte>, rest: seq<Byte>) {
    match Decode(data)
    case EndOfFile => r == Varint32(0, 0) && rest == []
    case TooLong => r == TooManyBytes && |data| >= 10 && rest == data[10..]
    case Value(size, left) => |left| < |data| && r == Varint32(size, |data| - |left|) && rest == left
  }

  method DecodeVarint32(in_: File) returns (r: Varint32)
    modifies in_
    ensures IsRead(r, old(in_.data), in_.data)
  {
    ghost var all := in_.data;
    var result, pos := 0, 0;
    while true
      invariant 0 <= pos < 10 && result >= 0
      invariant pos <= |all| && in_.data == all[pos..]
      invariant Decoding(in_.data, pos, result) == Decode(all)
      decreases 10 - pos
    {
      var c := in_.ReadBytes(1);
      if |c| == 0 {
        return Varint32(0, 0);
      }
      var b := c[0];
      result := result + Shifted(b, pos);
      pos := pos + 1;
      if b < 0x80 {
        return Varint32(Narrow(result), pos);
      }
      if 7 * pos >= 64 {
        return TooManyBytes;
      }
    }
  }

  datatype Attempt = Failure | Success(message: Message) | Raised

  /** The message is opaque: what is parsed is the bytes that were read. An IOError counts as no message; a
      ValueError from reading a size below -1 gets through. */
  method DecodeMessage(in_: File) returns (r: Attempt)
    modifies in_
    ensures match NextMessage(old(in_.data))
            case NoMessage(rest) => r == Failure && in_.data == rest
            case ValueError(rest) => r == Raised && in_.data == rest
            case Next(m, rest) => r == Success(m) && in_.data == rest
  {
    DecodeConsumes(in_.data, 0, 0);
    var v := DecodeVarint32(in_);
    if v.TooManyBytes? || v.size == 0 {
      return Failure;
    }
    if v.size < -1 {
      return Raised;
    }
    var message := in_.ReadBytes(v.size);
    r := Success(message);
  }

  method EncodeMessage(out: File, message: Message)
    modifies out
    ensures out.data == old(out.data) + Encoded([message])
  {
    EncodeVarint32(out, |message|);
    out.Write(message);
    assert Encoded([message][1..]) == [];
  }
}
