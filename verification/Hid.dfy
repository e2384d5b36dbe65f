/** Splitting messages into packets of 64 bytes, and reading the packets (section 8.1.4 of CTAP 2.0). */
module Hid {
  import opened Wrappers
  import opened Bytes

  type HidPacket = p: seq<byte> | |p| == 64 witness seq(64, _ => 0)
  type ChannelId = c: seq<byte> | |c| == 4 witness seq(4, _ => 0)

  datatype Message = Message(cid: ChannelId, cmd: byte, payload: seq<byte>)

  datatype ProcessedPacket =
    | InitPacket(cmd: byte, len: nat, data: seq<byte>)
    | ContinuationPacket(number: byte, data: seq<byte>)

  const MAX_PAYLOAD: nat := 7609
  const INIT_DATA: nat := 57
  const NEXT_DATA: nat := 59

  /** Sets the highest bit. */
  function WithTypeBit(b: byte): byte {
    if b < 128 then b + 128 else b
  }

  predicate HasTypeBit(b: byte) {
    b >= 128
  }

  /** Clears the highest bit. */
  function WithoutTypeBit(b: byte): byte {
    if b < 128 then b else b - 128
  }

  /** Reads a packet. */
  function ProcessSinglePacket(p: HidPacket): (ChannelId, ProcessedPacket) {
    if HasTypeBit(p[4]) then
      (p[..4], InitPacket(WithoutTypeBit(p[4]), p[5] as nat * 256 + p[6] as nat, p[7..]))
    else
      (p[..4], ContinuationPacket(p[4], p[5..]))
  }

  /** The bytes of a payload from a position on, and zeros after its end. */
  function Piece(payload: seq<byte>, start: nat, n: nat): (piece: seq<byte>)
    ensures |piece| == n
  {
    seq(n, j requires 0 <= j < n => if start + j < |payload| then payload[start + j] else 0)
  }

  class MessageSplitter {
    const message: Message
    const packet: array<byte>
    var number: Option<byte>
    var i: nat

    ghost predicate Valid()
      reads this, packet
    {
      && packet.Length == 64 && packet[..4] == message.cid && |message.payload| <= MAX_PAYLOAD
      && (number.Some? ==> number.value <= 128
                           && i == if INIT_DATA + NEXT_DATA * number.value as nat < |message.payload|
                                   then INIT_DATA + NEXT_DATA * number.value as nat else |message.payload|)
    }

    constructor (message: Message)
      requires |message.payload| <= MAX_PAYLOAD
      ensures Valid() && this.message == message && number.None? && fresh(packet)
    {
      this.message := message;
      packet := new byte[64](j requires 0 <= j < 64 => if j < 4 then message.cid[j] else 0);
      number := None;
      i := 0;
    }

    /** Copies as much data as fits into the packet, and zeros after it; returns how much was copied. */
    method ConsumeData(start: nat, data: seq<byte>) returns (n: nat)
      requires start <= packet.Length
      modifies packet
      ensures packet[..start] == old(packet[..start]) && packet[start..] == Piece(data, 0, packet.Length - start)
      ensures n == if |data| <= packet.Length - start then |data| else packet.Length - start
    {
      var length := packet.Length - start;
      if |data| <= length {
        CopyInto(packet, start, data);
        for j := start + |data| to packet.Length
          invariant packet[..start] == old(packet[..start])
          invariant forall k :: start <= k < start + |data| ==> packet[k] == data[k - start]
          invariant forall k :: start + |data| <= k < j ==> packet[k] == 0
        {
          packet[j] := 0;
        }
        return |data|;
      }
      CopyInto(packet, start, data[..length]);
      return length;
    }

    /** Returns the next packet, if any is left. */
    method Next() returns (r: Option<HidPacket>)
      requires Valid()
      modifies this`number, this`i, packet
      ensures Valid()
      ensures old(number).None? ==>
                && r.Some? && number == Some(0)
                && ProcessSinglePacket(r.value)
                     == (message.cid, InitPacket(WithoutTypeBit(message.cmd), |message.payload|,
                                                 Piece(message.payload, 0, INIT_DATA)))
      ensures old(number).Some? ==>
                var k := old(number).value;
                var start := INIT_DATA + NEXT_DATA * k as nat;
                if start < |message.payload| then
                  && r.Some? && k < 128 && number == Some(k + 1)
                  && ProcessSinglePacket(r.value) == (message.cid,
                                                      ContinuationPacket(k, Piece(message.payload, start, NEXT_DATA)))
                else r.None? && number == old(number)
    {
      hide Piece;
      var length := |message.payload|;
      match number {
        case None =>
          packet[4] := WithTypeBit(message.cmd);
          packet[5] := (length / 256) as byte;
          packet[6] := (length % 256) as byte;
          number := Some(0);
          ghost var header := packet[..7];
          i := ConsumeData(7, message.payload);
          assert packet[..4] == header[..4] && packet[4] == header[4] && packet[5] == header[5]
                 && packet[6] == header[6];
          r := Some(packet[..]);
          assert packet[..][7..] == packet[7..];
        case Some(k) =>
          if i >= length {
            return None;
          }
          packet[4] := k;
          number := Some(k + 1);
          ghost var header := packet[..5];
          PieceFrom(message.payload, i, NEXT_DATA);
          var n := ConsumeData(5, message.payload[i..]);
          i := i + n;
          assert packet[..4] == header[..4] && packet[4] == header[4];
          r := Some(packet[..]);
          assert packet[..][5..] == packet[5..];
      }
    }
  }

  lemma PieceFrom(payload: seq<byte>, start: nat, n: nat)
    requires start <= |payload|
    ensures Piece(payload[start..], 0, n) == Piece(payload, start, n)
  {
  }

  /** Copies bytes into a buffer. */
  method CopyInto(buffer: array<byte>, start: nat, data: seq<byte>)
    requires start + |data| <= buffer.Length
    modifies buffer
    ensures forall k :: 0 <= k < buffer.Length ==>
              buffer[k] == if start <= k < start + |data| then data[k - start] else old(buffer[k])
  {
    for j := 0 to |data|
      invariant forall k :: 0 <= k < buffer.Length ==>
        buffer[k] == if start <= k < start + j then data[k - start] else old(buffer[k])
    {
      buffer[start + j] := data[j];
    }
  }

  // ---------------------------------------------------------------------------------------------
  // Messages

  /** The data of packets, one after the other. */
  function Assembled(packets: seq<HidPacket>): seq<byte> {
    if packets == [] then []
    else Assembled(packets[..|packets| - 1]) + ProcessSinglePacket(packets[|packets| - 1]).1.data
  }

  /** The packets start a message with its channel, command and length, and go on with numbered packets. */
  ghost predicate Framed(message: Message, packets: seq<HidPacket>) {
    && packets != []
    && (var (cid, first) := ProcessSinglePacket(packets[0]);
        cid == message.cid && first.InitPacket? && first.cmd == WithoutTypeBit(message.cmd)
          && first.len == |message.payload|)
    && forall k :: 1 <= k < |packets| ==>
         var (cid, next) := ProcessSinglePacket(packets[k]);
         cid == message.cid && next.ContinuationPacket? && next.number < 128 && next.number as int == k - 1
  }

  /**
   Splits a message into packets, unless it is too long. Reading them gives the message back: what comes
   after the payload is zeros, and there are no more packets than needed.
   */
  method SplitMessage(message: Message) returns (packets: Option<seq<HidPacket>>)
    ensures packets.None? <==> |message.payload| > MAX_PAYLOAD
    ensures packets.Some? ==>
              var data := Assembled(packets.value);
              && Framed(message, packets.value)
              && message.payload <= data && (forall j :: |message.payload| <= j < |data| ==> data[j] == 0)
              && (|packets.value| == 1 || |data| - |message.payload| < NEXT_DATA)
  {
    if |message.payload| > MAX_PAYLOAD {
      return None;
    }
    hide ProcessSinglePacket, Piece, Sent;
    var splitter := new MessageSplitter(message);
    var first := splitter.Next();
    var all := [first.value];
    SentFirst(message, first.value);
    ghost var n: nat := 0;
    while true
      invariant n <= 128 && Sent(message, all, n) && fresh(splitter) && fresh(splitter.packet)
      invariant splitter.Valid() && splitter.message == message && splitter.number == Some(n as byte)
      decreases 128 - n
    {
      var next := splitter.Next();
      if next.None? {
        break;
      }
      SentNext(message, all, n, next.value);
      all := all + [next.value];
      n := n + 1;
    }
    SentAll(message, all, n);
    return Some(all);
  }

  /** The first packet and some more were sent. */
  ghost predicate Sent(message: Message, packets: seq<HidPacket>, n: nat) {
    && |packets| == n + 1 && n <= 128 && Framed(message, packets)
    && Assembled(packets) == Piece(message.payload, 0, INIT_DATA + NEXT_DATA * n)
    && (n > 0 ==> INIT_DATA + NEXT_DATA * (n - 1) < |message.payload|)
  }

  lemma SentFirst(message: Message, p: HidPacket)
    requires ProcessSinglePacket(p)
             == (message.cid, InitPacket(WithoutTypeBit(message.cmd), |message.payload|,
                                         Piece(message.payload, 0, INIT_DATA)))
    ensures Sent(message, [p], 0)
  {
    hide ProcessSinglePacket, Piece;
    AssembledNext([], p);
  }

  lemma SentNext(message: Message, packets: seq<HidPacket>, n: nat, p: HidPacket)
    requires Sent(message, packets, n) && n < 128 && INIT_DATA + NEXT_DATA * n < |message.payload|
    requires ProcessSinglePacket(p)
             == (message.cid, ContinuationPacket(n as byte,
                                                 Piece(message.payload, INIT_DATA + NEXT_DATA * n, NEXT_DATA)))
    ensures Sent(message, packets + [p], n + 1)
  {
    hide ProcessSinglePacket, Piece, Assembled;
    AssembledNext(packets, p);
    PieceNext(message.payload, INIT_DATA + NEXT_DATA * n, NEXT_DATA);
  }

  lemma SentAll(message: Message, packets: seq<HidPacket>, n: nat)
    requires Sent(message, packets, n) && INIT_DATA + NEXT_DATA * n >= |message.payload|
    ensures var data := Assembled(packets);
            && Framed(message, packets)
            && message.payload <= data && (forall j :: |message.payload| <= j < |data| ==> data[j] == 0)
            && (|packets| == 1 || |data| - |message.payload| < NEXT_DATA)
  {
    hide ProcessSinglePacket, Piece, Assembled, Framed;
    PieceWhole(message.payload, INIT_DATA + NEXT_DATA * n);
  }

  lemma AssembledNext(packets: seq<HidPacket>, next: HidPacket)
    ensures Assembled(packets + [next]) == Assembled(packets) + ProcessSinglePacket(next).1.data
    ensures Assembled([]) == [] && [] + [next] == [next]
  {
    hide ProcessSinglePacket;
    assert (packets + [next])[..|packets|] == packets;
  }

  lemma PieceNext(payload: seq<byte>, m: nat, n: nat)
    ensures Piece(payload, 0, m) + Piece(payload, m, n) == Piece(payload, 0, m + n)
    ensures Piece(payload, 0, 0) == []
  {
  }

  lemma PieceWhole(payload: seq<byte>, n: nat)
    requires n >= |payload|
    ensures payload <= Piece(payload, 0, n) && forall j :: |payload| <= j < n ==> Piece(payload, 0, n)[j] == 0
  {
    assert Piece(payload, 0, n)[..|payload|] == payload;
  }
}
