/**
 Framed transfer over a socket whose kernel reads and writes any positive number
 of bytes at a time: the short-count loops, the two message functions above them
 and a complete exchange between hosts of either byte order.
 */
module Transfer {
  import opened Options
  import opened Wire

  function Min(a: nat, b: nat): nat {
    if a <= b then a else b
  }

  lemma Spliced(buffer: seq<Byte>, was: seq<Byte>, stream: seq<Byte>, r: nat)
    requires |buffer| == |was| && r <= |stream| && r <= |was|
    requires forall j :: 0 <= j < r ==> buffer[j] == stream[j]
    requires forall j :: r <= j < |was| ==> buffer[j] == was[j]
    ensures buffer == stream[..r] + was[r..]
  {
  }

  lemma DroppedTwice(stream: seq<Byte>, t: nat, n: nat)
    requires t + n <= |stream|
    ensures stream[t..][n..] == stream[t + n..]
  {
  }

  /** input is everything still to arrive before the peer closes; output is
      everything sent. A healthy socket's system calls never fail. */
  class AsyncSocket {
    const order: Endian
    const healthy: bool
    var input: seq<Byte>
    var output: seq<Byte>

    constructor (order: Endian, healthy: bool, input: seq<Byte>)
      ensures this.order == order && this.healthy == healthy && this.input == input && output == []
    {
      this.order, this.healthy, this.input, output := order, healthy, input, [];
    }

    /** How many bytes the kernel moves at once: any positive count that fits. */
    static method KernelCount(most: nat) returns (n: nat)
      requires most >= 1
      ensures 1 <= n <= most
    {
      n := *;
      if !(1 <= n <= most) {
        n := most;
      }
    }

    /** The kernel: -1 for an error, 0 only at the end of the stream or for an
        empty buffer, else any positive count that fits. */
    method RecvOperation(buffer: array<Byte>, offset: nat, len: nat) returns (n: int)
      requires offset + len <= buffer.Length
      modifies this`input, buffer
      ensures n == -1 ==> !healthy
      ensures n == -1 || 0 <= n <= Min(len, |old(input)|)
      ensures n == 0 <==> len == 0 || old(input) == []
      ensures var got := if n == -1 then 0 else n;
              && input == old(input)[got..]
              && (forall j :: offset <= j < offset + got ==> buffer[j] == old(input)[j - offset])
              && (forall j :: 0 <= j < buffer.Length && !(offset <= j < offset + got) ==> buffer[j] == old(buffer[j]))
    {
      if len == 0 || input == [] {
        return 0;
      }
      var fails: bool := *;
      if fails && !healthy {
        return -1;
      }
      n := KernelCount(Min(len, |input|));
      forall i | 0 <= i < n {
        buffer[offset + i] := input[i];
      }
      input := input[n..];
    }

    method SendOperation(bytes: seq<Byte>) returns (n: int)
      modifies this`output
      ensures n == -1 ==> !healthy && output == old(output)
      ensures n == -1 || 0 <= n <= |bytes|
      ensures n == 0 <==> bytes == []
      ensures n >= 0 ==> output == old(output) + bytes[..n]
    {
      if bytes == [] {
        return 0;
      }
      var fails: bool := *;
      if fails && !healthy {
        return -1;
      }
      n := KernelCount(|bytes|);
      output := output + bytes[..n];
    }

    /** Reads until len bytes came or the stream ended; bytes that did not come
        leave the buffer as it was. */
    method Recv(buffer: array<Byte>, len: nat) returns (r: int)
      requires len == buffer.Length
      modifies this`input, buffer
      ensures r == -1 ==> !healthy
      ensures r == -1 || r == Min(len, |old(input)|)
      ensures r >= 0 ==>
                && input == Drop(old(input), len)
                && buffer[..] == old(input)[..r] + old(buffer[..])[r..]
    {
      var totalReadBytes: nat := 0;
      while true
        invariant totalReadBytes <= Min(len, |old(input)|)
        invariant input == old(input)[totalReadBytes..]
        invariant forall j :: 0 <= j < totalReadBytes ==> buffer[j] == old(input)[j]
        invariant forall j :: totalReadBytes <= j < len ==> buffer[j] == old(buffer[j])
        invariant totalReadBytes == 0 || totalReadBytes < len
        decreases len - totalReadBytes
      {
        var numReadBytes := RecvOperation(buffer, totalReadBytes, len - totalReadBytes);
        if numReadBytes == -1 {
          return -1;
        }
        DroppedTwice(old(input), totalReadBytes, numReadBytes);
        totalReadBytes := totalReadBytes + numReadBytes;
        if numReadBytes == 0 || totalReadBytes >= len {
          break;
        }
      }
      Spliced(buffer[..], old(buffer[..]), old(input), totalReadBytes);
      return totalReadBytes;
    }

    /** Writes until everything is out. */
    method Send(bytes: seq<Byte>) returns (r: int)
      modifies this`output
      ensures r == -1 ==> !healthy
      ensures r == -1 || r == |bytes|
      ensures r >= 0 ==> output == old(output) + bytes
    {
      var totalWriteBytes: nat := 0;
      while true
        invariant totalWriteBytes <= |bytes|
        invariant output == old(output) + bytes[..totalWriteBytes]
        invariant totalWriteBytes == 0 || totalWriteBytes < |bytes|
        decreases |bytes| - totalWriteBytes
      {
        var numWriteBytes := SendOperation(bytes[totalWriteBytes..]);
        if numWriteBytes == -1 {
          return -1;
        }
        totalWriteBytes := totalWriteBytes + numWriteBytes;
        if numWriteBytes == 0 || totalWriteBytes >= |bytes| {
          break;
        }
      }
      assert bytes[..|bytes|] == bytes;
      return totalWriteBytes;
    }

    /** Recv into a fresh zeroed buffer. */
    method RecvZeroed(len: nat) returns (r: int, bytes: seq<Byte>)
      modifies this`input
      ensures r == -1 ==> !healthy
      ensures r == -1 || r == Min(len, |old(input)|)
      ensures r >= 0 ==> input == Drop(old(input), len) && bytes == ZeroFilled(old(input), len)
    {
      var buffer := new Byte[len](_ => 0);
      assert buffer[..] == Zeros(len);
      r := Recv(buffer, len);
      bytes := buffer[..];
    }
  }

  /** What the sender puts on the wire for any message: the name length is cut to
      a byte, and the name with it, and the data length to a word. */
  function WireImage(m: Message): seq<Byte> {
    var n := |m.name| % 256;
    [n] + m.name[..n] + BigEndian(|m.data| % WORD) + m.data
  }

  /** For the messages the receiver admits nothing is cut. */
  lemma WireImageIsFrame(m: Message)
    requires ValidMessage(m)
    ensures WireImage(m) == Frame(m)
  {
    var n, d := |m.name|, |m.data|;
    assert n % 256 == n && d % WORD == d;
    assert m.name[..n] == m.name;
  }

  /** The parts of the wire image of any message by position. */
  lemma WireImageLayout(m: Message)
    ensures var w, n := WireImage(m), |m.name| % 256;
            && |w| == 1 + n + 4 + |m.data| && w[0] == n && w[1..1 + n] == m.name[..n]
            && Value(w[1 + n..1 + n + 4]) == |m.data| % 4_294_967_296 && w[1 + n + 4..] == m.data
  {
    var w, n := WireImage(m), |m.name| % 256;
    assert w[1..1 + n] == m.name[..n];
    assert w[1 + n..1 + n + 4] == BigEndian(|m.data| % WORD);
    assert w[1 + n + 4..] == m.data;
    BigEndianValue(|m.data| % WORD, BigEndian(|m.data| % WORD));
  }

  /** A word goes out in network order whatever the host's byte order is. */
  method SendWord(socket: AsyncSocket, x: Word) returns (sent: int)
    modifies socket`output
    ensures sent == -1 ==> !socket.healthy
    ensures sent == -1 || sent == 4
    ensures sent >= 0 ==> socket.output == old(socket.output) + BigEndian(x) && Value(BigEndian(x)) == x
  {
    NetworkOrder(socket.order, x, BigEndian(x));
    BigEndianValue(x, BigEndian(x));
    sent := socket.Send(InMemory(socket.order, Htonl(socket.order, x)));
  }

  /** A word is read into zeroed memory and swapped from network order. */
  method RecvWord(socket: AsyncSocket) returns (got: int, x: Word)
    modifies socket`input
    ensures got == -1 ==> !socket.healthy
    ensures got == -1 || got == Min(4, |old(socket.input)|)
    ensures got >= 0 ==>
              && socket.input == Drop(old(socket.input), 4)
              && x == FromBigEndian(ZeroFilled(old(socket.input), 4)) == Value(ZeroFilled(old(socket.input), 4))
  {
    var bytes;
    got, bytes := socket.RecvZeroed(4);
    if got == -1 {
      return -1, 0;
    }
    NetworkOrder(socket.order, 0, bytes);
    BigEndianValue(0, bytes);
    x := Htonl(socket.order, FromMemory(socket.order, bytes));
  }

  /** The sending half, up to waiting for the acknowledgement. */
  method WriteFrame(socket: AsyncSocket, m: Message) returns (total: int)
    modifies socket`output
    ensures total == -1 ==> !socket.healthy
    ensures total != -1 ==> total == |WireImage(m)| && socket.output == old(socket.output) + WireImage(m)
  {
    var dataTypeLen := |m.name| % 256;
    var sent := socket.Send([dataTypeLen]);
    if sent == -1 {
      return -1;
    }
    total := sent;
    sent := socket.Send(m.name[..dataTypeLen]);
    if sent == -1 {
      return -1;
    }
    total := total + sent;
    sent := SendWord(socket, |m.data| % WORD);
    if sent == -1 {
      return -1;
    }
    total := total + sent;
    sent := socket.Send(m.data);
    if sent == -1 {
      return -1;
    }
    total := total + sent;
  }

  /** The acknowledgement: anything but the exact byte count is a failure. */
  method ReadAck(socket: AsyncSocket, total: int) returns (r: int)
    modifies socket`input
    ensures r == -1 || r == total
    ensures r != -1 ==>
              && FromBigEndian(ZeroFilled(old(socket.input), 4)) == total
              && socket.input == Drop(old(socket.input), 4)
    ensures socket.healthy && total != -1 ==> (r == total <==> FromBigEndian(ZeroFilled(old(socket.input), 4)) == total)
  {
    var got, totalAckBytes := RecvWord(socket);
    if got == -1 {
      return -1;
    }
    if totalAckBytes != total {
      return -1;
    }
    return total;
  }

  method SendNetworkMessage(socket: AsyncSocket, m: Message) returns (r: int)
    modifies socket`input, socket`output
    ensures r != -1 ==>
              && r == |WireImage(m)| && socket.output == old(socket.output) + WireImage(m)
              && socket.input == Drop(old(socket.input), 4)
    ensures socket.healthy ==>
              (r != -1 <==> FromBigEndian(ZeroFilled(old(socket.input), 4)) == |WireImage(m)|)
  {
    var total := WriteFrame(socket, m);
    if total == -1 {
      return -1;
    }
    r := ReadAck(socket, total);
  }

  /** Receives one message and acknowledges the bytes it took. */
  method ReceiveNetworkMessage(socket: AsyncSocket) returns (m: Option<Message>, total: int)
    modifies socket`input, socket`output
    ensures m.Some? ==>
              var expected := ReceiveFrom(old(socket.input));
              && expected.Received? && m.value == expected.message && total == expected.total
              && socket.input == expected.rest
              && 0 <= total < WORD && socket.output == old(socket.output) + BigEndian(total)
    ensures m.None? ==> total == -1
    ensures socket.healthy ==> (m.Some? <==> ReceiveFrom(old(socket.input)).Received?)
    ensures socket.healthy && m.None? ==> socket.output == old(socket.output)
  {
    var got, bytes := socket.RecvZeroed(1);
    if got == -1 {
      return None, -1;
    }
    total := got;
    var dataTypeNameLength := bytes[0];
    if dataTypeNameLength < 1 || dataTypeNameLength > NAME_MAX {
      return None, -1;
    }
    var name;
    got, name := socket.RecvZeroed(dataTypeNameLength);
    if got == -1 {
      return None, -1;
    }
    total := total + got;
    var dataLength;
    got, dataLength := RecvWord(socket);
    if got == -1 {
      return None, -1;
    }
    total := total + got;
    if dataLength < DATA_MIN || dataLength > DATA_MAX {
      return None, -1;
    }
    var data;
    got, data := socket.RecvZeroed(dataLength);
    if got == -1 {
      return None, -1;
    }
    total := total + got;
    var sent := SendWord(socket, total);
    if sent == -1 {
      return None, -1;
    }
    return Some(Message(name, data)), total;
  }

  /** What arrives when a frame, and possibly more behind it, is delivered. */
  lemma Delivered(m: Message, following: seq<Byte>)
    requires ValidMessage(m)
    ensures var total := |Frame(m)|;
            && total < WORD && WireImage(m) == Frame(m)
            && DecodeFrame(Frame(m) + following) == Decoded(m, total)
            && ReceiveFrom(Frame(m) + following) == Received(m, total, following)
            && FromBigEndian(ZeroFilled(BigEndian(total), 4)) == total
            && Drop(BigEndian(total), 4) == []
  {
    WireImageIsFrame(m);
    var stream, total := Frame(m) + following, |Frame(m)|;
    EncodeThenDecode(m, following);
    ReceiverAgreesWithDecoder(stream);
    assert stream[total..] == following;
    BigEndianRoundTrip(total);
    assert ZeroFilled(BigEndian(total), 4) == BigEndian(total);
  }

  /** One message from sender to receiver, hosts of either byte order and any
      splitting of reads and writes: the receiver gets exactly the message and
      consumes exactly the frame, the one-shot decoder agrees, and the sender
      sees its own byte count acknowledged. */
  method Exchange(sender: AsyncSocket, receiver: AsyncSocket, m: Message, following: seq<Byte>)
    returns (sent: int, received: Option<Message>, total: int)
    requires sender != receiver && sender.healthy && receiver.healthy && ValidMessage(m)
    requires sender.input == sender.output == receiver.input == receiver.output == []
    modifies sender, receiver
    ensures received == Some(m)
    ensures sent == total == |Frame(m)|
    ensures DecodeFrame(Frame(m) + following) == Decoded(m, total)
    ensures receiver.input == following && sender.input == []
  {
    Delivered(m, following);
    ghost var frame := Frame(m);
    sent := WriteFrame(sender, m);
    assert sender.output == frame && sent == |frame|;
    // The network delivers what was written, and possibly more behind it.
    receiver.input := sender.output + following;
    received, total := ReceiveNetworkMessage(receiver);
    assert received == Some(m) && total == |frame| && receiver.output == BigEndian(total);
    sender.input := receiver.output;
    sent := ReadAck(sender, sent);
  }
}
