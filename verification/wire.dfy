/**
 The frame format and its one-shot codec, network byte order as the host's
 memory sees it, and what the socket receiver makes of any byte stream.
 */
module Wire {
  import opened Options

  type Byte = b: int | 0 <= b < 256

  const WORD: int := 0x1_0000_0000
  const NAME_MAX: int := 128
  const DATA_MIN: int := 2
  const DATA_MAX: int := 1024 * 1024

  type Word = w: int | 0 <= w < WORD

  // ------------------------------------------------------------ byte order

  datatype Endian = Little | Big

  function BigEndian(x: Word): (bytes: seq<Byte>)
    ensures |bytes| == 4
  {
    [x / 0x100_0000, x / 0x1_0000 % 0x100, x / 0x100 % 0x100, x % 0x100]
  }

  function FromBigEndian(bytes: seq<Byte>): Word
    requires |bytes| == 4
  {
    var b0: int, b1: int, b2: int := bytes[0], bytes[1], bytes[2];
    b0 * 0x100_0000 + b1 * 0x1_0000 + b2 * 0x100 + bytes[3]
  }

  /** A word's bytes in this host's memory. */
  function InMemory(order: Endian, x: Word): (bytes: seq<Byte>)
    ensures |bytes| == 4
  {
    var b := BigEndian(x);
    if order.Big? then b else [b[3], b[2], b[1], b[0]]
  }

  function FromMemory(order: Endian, bytes: seq<Byte>): Word
    requires |bytes| == 4
  {
    FromBigEndian(if order.Big? then bytes else [bytes[3], bytes[2], bytes[1], bytes[0]])
  }

  /** htonl and ntohl: the identity or a byte swap. */
  function Htonl(order: Endian, x: Word): Word {
    if order.Big? then x
    else x % 0x100 * 0x100_0000 + x / 0x100 % 0x100 * 0x1_0000 + x / 0x1_0000 % 0x100 * 0x100 + x / 0x100_0000
  }

  /** The number a sequence of bytes writes in base 256, most significant first. */
  function Value(bytes: seq<Byte>): int {
    if bytes == [] then 0 else Value(bytes[..|bytes| - 1]) * 256 + bytes[|bytes| - 1]
  }

  lemma ValueOfFour(bytes: seq<Byte>)
    requires |bytes| == 4
    ensures var a: int, b: int, c: int := bytes[0], bytes[1], bytes[2];
            Value(bytes) == ((a * 256 + b) * 256 + c) * 256 + bytes[3]
  {
    var a: int, b: int, c: int := bytes[0], bytes[1], bytes[2];
    assert bytes[..3][..2] == bytes[..2] && bytes[..2][..1] == bytes[..1] && bytes[..1][..0] == [];
    assert Value(bytes[..1]) == a;
    assert Value(bytes[..2]) == a * 256 + b;
    assert Value(bytes[..3]) == (a * 256 + b) * 256 + c;
  }

  /** A word's bytes write the word, and are read as what they write. */
  lemma BigEndianValue(x: Word, bytes: seq<Byte>)
    requires |bytes| == 4
    ensures Value(BigEndian(x)) == x && FromBigEndian(bytes) == Value(bytes)
  {
    ValueOfFour(BigEndian(x));
    ValueOfFour(bytes);
    BigEndianRoundTrip(x);
  }

  lemma BigEndianRoundTrip(x: Word)
    ensures FromBigEndian(BigEndian(x)) == x
  {
    var a := x / 0x100;
    var b := a / 0x100;
    var c := b / 0x100;
    assert x == a * 0x100 + x % 0x100 && a == b * 0x100 + a % 0x100 && b == c * 0x100 + b % 0x100;
    assert b == x / 0x1_0000 && c == x / 0x100_0000;
  }

  /** A word's bytes are unique. */
  lemma DigitsUnique(a: Byte, b: Byte, c: Byte, d: Byte)
    ensures BigEndian(FromBigEndian([a, b, c, d])) == [a, b, c, d]
  {
    var x: int := FromBigEndian([a, b, c, d]);
    var a: int, b: int, c: int, d: int := a, b, c, d;
    assert x == ((a * 0x100 + b) * 0x100 + c) * 0x100 + d;
    assert x / 0x100 == (a * 0x100 + b) * 0x100 + c;
    assert x / 0x1_0000 == a * 0x100 + b;
    assert x / 0x100_0000 == a;
  }

  /** On either host, storing a swapped word puts big-endian bytes in memory and
      swapping a loaded word reads them back. */
  lemma NetworkOrder(order: Endian, x: Word, bytes: seq<Byte>)
    requires |bytes| == 4
    ensures InMemory(order, Htonl(order, x)) == BigEndian(x)
    ensures Htonl(order, FromMemory(order, bytes)) == FromBigEndian(bytes)
  {
    if order.Little? {
      var b := BigEndian(x);
      assert Htonl(order, x) == FromBigEndian([b[3], b[2], b[1], b[0]]);
      DigitsUnique(b[3], b[2], b[1], b[0]);
      var y := FromMemory(order, bytes);
      DigitsUnique(bytes[3], bytes[2], bytes[1], bytes[0]);
      assert BigEndian(y) == [bytes[3], bytes[2], bytes[1], bytes[0]];
    }
  }

  // ----------------------------------------------------------------- codec

  datatype Message = Message(name: seq<Byte>, data: seq<Byte>)

  predicate ValidMessage(m: Message) {
    1 <= |m.name| <= NAME_MAX && DATA_MIN <= |m.data| <= DATA_MAX
  }

  /** One length byte, the name, the data length in network order, the data. */
  function Frame(m: Message): seq<Byte>
    requires ValidMessage(m)
  {
    [|m.name|] + m.name + BigEndian(|m.data|) + m.data
  }

  function EncodeFrame(m: Message): Option<seq<Byte>> {
    if ValidMessage(m) then Some(Frame(m)) else None
  }

  datatype Decoded = Decoded(message: Message, consumed: nat) | Short | BadNameLength | BadDataLength

  function DecodeFrame(buf: seq<Byte>): Decoded {
    if |buf| < 1 then Short
    else if !(1 <= buf[0] <= NAME_MAX) then BadNameLength
    else if |buf| < 1 + buf[0] + 4 then Short
    else
      var n := buf[0];
      var dataLength := FromBigEndian(buf[1 + n..1 + n + 4]);
      if !(DATA_MIN <= dataLength <= DATA_MAX) then BadDataLength
      else
        var end := 1 + n + 4 + dataLength;
        if |buf| < end then Short else Decoded(Message(buf[1..1 + n], buf[1 + n + 4..end]), end)
  }

  /** The parts of a frame by position. */
  lemma FrameLayout(m: Message)
    requires 1 <= |m.name| <= 128 && 2 <= |m.data| <= 1_048_576
    ensures ValidMessage(m)
    ensures var f, n := Frame(m), |m.name|;
            && |f| == 1 + n + 4 + |m.data| && f[0] == n && f[1..1 + n] == m.name
            && Value(f[1 + n..1 + n + 4]) == |m.data| && f[1 + n + 4..] == m.data
  {
    var f, n := Frame(m), |m.name|;
    assert f[1..1 + n] == m.name;
    assert f[1 + n..1 + n + 4] == BigEndian(|m.data|);
    assert f[1 + n + 4..] == m.data;
    BigEndianValue(|m.data|, BigEndian(|m.data|));
  }

  /** A message has a frame exactly when its name has 1 to 128 bytes and its data
      two bytes to one megabyte. */
  lemma FrameLimits(m: Message)
    ensures EncodeFrame(m).Some? <==> 1 <= |m.name| <= 128 && 2 <= |m.data| <= 1_048_576
  {
  }

  lemma EncodeThenDecode(m: Message, rest: seq<Byte>)
    requires EncodeFrame(m).Some?
    ensures DecodeFrame(EncodeFrame(m).value + rest) == Decoded(m, |EncodeFrame(m).value|)
  {
    var buf, n := Frame(m) + rest, |m.name|;
    assert buf[1..1 + n] == m.name;
    assert buf[1 + n..1 + n + 4] == BigEndian(|m.data|);
    BigEndianRoundTrip(|m.data|);
    assert buf[1 + n + 4..1 + n + 4 + |m.data|] == m.data;
  }

  /** When decoding refuses a buffer for good. */
  lemma DecodeRefuses(buf: seq<Byte>)
    ensures DecodeFrame(buf).BadNameLength? <==> |buf| >= 1 && !(1 <= buf[0] <= 128)
    ensures DecodeFrame(buf).BadDataLength? <==>
              && |buf| >= 1
              && var n: int := buf[0];
                 1 <= n <= 128 && |buf| >= 5 + n && !(2 <= Value(buf[1 + n..5 + n]) <= 1_048_576)
  {
    if buf != [] {
      var n: int := buf[0];
      if |buf| >= 5 + n {
        BigEndianValue(0, buf[1 + n..1 + n + 4]);
      }
    }
  }

  /** Every proper prefix of a frame is short, nothing else. */
  lemma DecodePrefix(buf: seq<Byte>, i: nat)
    requires DecodeFrame(buf).Decoded? && i < DecodeFrame(buf).consumed
    ensures i <= |buf| && DecodeFrame(buf[..i]).Short?
  {
    var n := buf[0];
    if i >= 1 + n + 4 {
      assert buf[..i][1 + n..1 + n + 4] == buf[1 + n..1 + n + 4];
    }
  }

  lemma DecodeThenEncode(buf: seq<Byte>)
    requires DecodeFrame(buf).Decoded?
    ensures var d := DecodeFrame(buf);
            d.consumed <= |buf| && EncodeFrame(d.message) == Some(buf[..d.consumed])
  {
    var n := buf[0];
    var header := buf[1 + n..1 + n + 4];
    DigitsUnique(header[0], header[1], header[2], header[3]);
    assert header == [header[0], header[1], header[2], header[3]];
    var d := DecodeFrame(buf);
    assert ValidMessage(d.message) && BigEndian(|d.message.data|) == header;
    FrameSplits(buf, n, |d.message.data|);
  }

  /** The first bytes of a buffer are the parts of a frame, one after the other. */
  lemma FrameSplits(buf: seq<Byte>, n: nat, length: nat)
    requires 1 + n + 4 + length <= |buf|
    ensures buf[..1 + n + 4 + length]
            == [buf[0]] + buf[1..1 + n] + buf[1 + n..1 + n + 4] + buf[1 + n + 4..1 + n + 4 + length]
  {
    assert buf[..1 + n] == [buf[0]] + buf[1..1 + n];
    assert buf[..1 + n + 4] == buf[..1 + n] + buf[1 + n..1 + n + 4];
    assert buf[..1 + n + 4 + length] == buf[..1 + n + 4] + buf[1 + n + 4..1 + n + 4 + length];
  }

  // --------------------------------------------- what the receiver makes of it

  function Zeros(n: nat): (z: seq<Byte>)
    ensures |z| == n
  {
    seq(n, _ => 0)
  }

  /** The first n bytes of a stream read into a zeroed buffer: a stream that ends
      early leaves the tail of the buffer zero. */
  function ZeroFilled(stream: seq<Byte>, n: nat): (buffer: seq<Byte>)
    ensures |buffer| == n
  {
    if n <= |stream| then stream[..n] else stream + Zeros(n - |stream|)
  }

  function Drop(stream: seq<Byte>, n: nat): seq<Byte> {
    if n <= |stream| then stream[n..] else []
  }

  datatype Received = Received(message: Message, total: nat, rest: seq<Byte>) | Rejected

  function Headers(stream: seq<Byte>): (Byte, Word) {
    var n := ZeroFilled(stream, 1)[0];
    (n, FromBigEndian(ZeroFilled(Drop(Drop(stream, 1), n), 4)))
  }

  /** The receiver on any stream, complete or not: it never compares a short
      count with the length it asked for. */
  function ReceiveFrom(stream: seq<Byte>): Received {
    var (n, length) := Headers(stream);
    var afterName := Drop(Drop(stream, 1), n);
    var afterLength := Drop(afterName, 4);
    if !(1 <= n <= NAME_MAX) || !(DATA_MIN <= length <= DATA_MAX) then Rejected
    else
      var rest := Drop(afterLength, length);
      Received(Message(ZeroFilled(Drop(stream, 1), n), ZeroFilled(afterLength, length)), |stream| - |rest|, rest)
  }

  /** The header fields, read zero-filled, look valid although the stream ends
      before the frame does. */
  predicate TruncatedButAccepted(stream: seq<Byte>) {
    var (n, length) := Headers(stream);
    && 1 <= n <= NAME_MAX && DATA_MIN <= length <= DATA_MAX
    && |stream| < 1 + n + 4 + length
  }

  /** With the whole header there, nothing of it is zero-filled. */
  lemma WholeHeader(stream: seq<Byte>)
    requires |stream| >= 1 && stream[0] <= |stream| - 5
    ensures var n: nat := stream[0];
            && Headers(stream) == (n, FromBigEndian(stream[1 + n..1 + n + 4]))
            && ZeroFilled(Drop(stream, 1), n) == stream[1..1 + n]
            && Drop(Drop(Drop(stream, 1), n), 4) == stream[1 + n + 4..]
  {
  }

  lemma WholeData(stream: seq<Byte>, start: nat, length: nat)
    requires start + length <= |stream|
    ensures ZeroFilled(stream[start..], length) == stream[start..start + length]
    ensures Drop(stream[start..], length) == stream[start + length..]
  {
  }

  lemma ReceiveUnfolds(stream: seq<Byte>, n: nat, length: nat)
    requires Headers(stream) == (n, length) && 1 <= n <= NAME_MAX && DATA_MIN <= length <= DATA_MAX
    ensures var afterLength := Drop(Drop(Drop(stream, 1), n), 4);
            ReceiveFrom(stream) == Received(Message(ZeroFilled(Drop(stream, 1), n), ZeroFilled(afterLength, length)),
                                            |stream| - |Drop(afterLength, length)|, Drop(afterLength, length))
  {
  }

  /** What is received when the stream holds all the header promises. */
  lemma ReceivedWhole(stream: seq<Byte>, n: nat, length: nat)
    requires 1 + n + 4 + length <= |stream| && stream[0] == n && 1 <= n <= NAME_MAX
    requires DATA_MIN <= length <= DATA_MAX && length == FromBigEndian(stream[1 + n..1 + n + 4])
    ensures var end := 1 + n + 4 + length;
            ReceiveFrom(stream) == Received(Message(stream[1..1 + n], stream[1 + n + 4..end]), end, stream[end..])
  {
    var end := 1 + n + 4 + length;
    WholeHeader(stream);
    WholeData(stream, 1 + n + 4, length);
    ReceiveUnfolds(stream, n, length);
    var afterLength := Drop(Drop(Drop(stream, 1), n), 4);
    assert afterLength == stream[1 + n + 4..];
    assert Drop(afterLength, length) == stream[end..] && |stream| - |stream[end..]| == end;
  }

  lemma DecodedShape(buf: seq<Byte>) returns (n: nat, length: nat)
    requires DecodeFrame(buf).Decoded?
    ensures 1 + n + 4 + length <= |buf| && buf[0] == n && 1 <= n <= NAME_MAX
    ensures DATA_MIN <= length <= DATA_MAX && length == FromBigEndian(buf[1 + n..1 + n + 4])
    ensures var end := 1 + n + 4 + length;
            DecodeFrame(buf) == Decoded(Message(buf[1..1 + n], buf[1 + n + 4..end]), end)
  {
    n := buf[0];
    length := FromBigEndian(buf[1 + n..1 + n + 4]);
  }

  /** Whatever the decoder accepts is received as it decodes it. */
  lemma ReceiverAgreesWithDecoder(stream: seq<Byte>)
    ensures var d := DecodeFrame(stream);
            d.Decoded? ==>
              && d.consumed <= |stream|
              && ReceiveFrom(stream) == Received(d.message, d.consumed, stream[d.consumed..])
  {
    if DecodeFrame(stream).Decoded? {
      var n, length := DecodedShape(stream);
      ReceivedWhole(stream, n, length);
    }
  }

  /** The receiver accepts what the decoder accepts on every stream except
      exactly the truncated frames whose zero-filled header looks valid. */
  lemma AcceptanceExactly(stream: seq<Byte>)
    ensures (ReceiveFrom(stream).Received? <==> DecodeFrame(stream).Decoded?) <==> !TruncatedButAccepted(stream)
  {
    AcceptsByHeader(stream);
    if |stream| >= 1 && stream[0] <= |stream| - 5 {
      WholeHeader(stream);
    } else {
      assert |stream| >= 1 ==> ZeroFilled(stream, 1)[0] == stream[0];
    }
  }

  /** What a truncated frame is received as: all of the stream, with zeros for the
      bytes that did not come. */
  lemma TruncatedReceived(stream: seq<Byte>)
    requires TruncatedButAccepted(stream)
    ensures var (n, length) := Headers(stream);
            && ReceiveFrom(stream).Received?
            && var m := ReceiveFrom(stream).message;
               && ReceiveFrom(stream).total == |stream| && ReceiveFrom(stream).rest == []
               && |m.name| == n && |m.data| == length
               && (forall i :: 0 <= i < n ==> m.name[i] == if 1 + i < |stream| then stream[1 + i] else 0)
               && (forall i :: 0 <= i < length ==>
                     m.data[i] == if 1 + n + 4 + i < |stream| then stream[1 + n + 4 + i] else 0)
  {
    var (n, length) := Headers(stream);
    ReceiveUnfolds(stream, n, length);
    assert stream != [] ==> stream[0] == n;
    ZeroFilledAt(stream, 1, n);
    var afterLength := Drop(Drop(Drop(stream, 1), n), 4);
    assert afterLength == Drop(stream, 1 + n + 4);
    ZeroFilledAt(stream, 1 + n + 4, length);
  }

  lemma ZeroFilledAt(stream: seq<Byte>, from: nat, n: nat)
    ensures forall i :: 0 <= i < n ==>
              ZeroFilled(Drop(stream, from), n)[i] == if from + i < |stream| then stream[from + i] else 0
  {
  }

  lemma AcceptsByHeader(stream: seq<Byte>)
    ensures var (n, length) := Headers(stream);
            ReceiveFrom(stream).Received? <==> 1 <= n <= NAME_MAX && DATA_MIN <= length <= DATA_MAX
  {
  }

  /** Cutting the length field short can turn a one-byte name into a message of
      256 zero bytes. */
  lemma TruncatedLengthAccepted(c: Byte)
    ensures TruncatedButAccepted([1, c, 0, 0, 1])
    ensures ReceiveFrom([1, c, 0, 0, 1]) == Received(Message([c], Zeros(256)), 5, [])
  {
  }
}
