/**
 Frames on a byte stream: four magic bytes, a four-byte length, the payload. The stream may be
 delivered in any pieces, with pauses anywhere between them.
 */
module Framing {
  import opened Prelude
  import opened ByteOrder

  const MAGIC: seq<byte> := [0x6B, 0x69, 0x6B, 0x6F]
  const MAX_FRAME_PAYLOAD: nat := 64 * 1024 * 1024
  const HEADER_SIZE: nat := 8

  /** send_frame */
  function FrameBytes(payload: seq<byte>): (bytes: seq<byte>)
    ensures |bytes| == HEADER_SIZE + |payload|
  {
    MAGIC + BigEndian(|payload|, 4) + payload
  }

  predicate Sendable(payload: seq<byte>) {
    |payload| <= MAX_FRAME_PAYLOAD
  }

  function Concat(frames: seq<seq<byte>>): seq<byte> {
    if frames == [] then [] else FrameBytes(frames[0]) + Concat(frames[1..])
  }

  /** The length field of a stream that starts with a frame. */
  lemma HeaderParses(payload: seq<byte>, stream: seq<byte>)
    requires Sendable(payload) && FrameBytes(payload) <= stream
    ensures |stream| >= HEADER_SIZE + |payload|
    ensures stream[..4] == MAGIC && FromBigEndian(stream[4..8]) == |payload|
    ensures stream[8..8 + |payload|] == payload
  {
    WordCapacities();
    RoundTrip(|payload|, 4);
    assert FrameBytes(payload)[4..8] == BigEndian(|payload|, 4);
    assert FrameBytes(payload)[8..] == payload;
    assert stream[..|FrameBytes(payload)|] == FrameBytes(payload);
    assert stream[4..8] == FrameBytes(payload)[4..8];
    assert stream[8..8 + |payload|] == FrameBytes(payload)[8..8 + |payload|];
  }

  /** Conversely a header and enough bytes make a frame. */
  lemma HeaderMeansFrame(stream: seq<byte>, length: nat)
    requires |stream| >= HEADER_SIZE + length && stream[..4] == MAGIC && FromBigEndian(stream[4..8]) == length
    ensures FrameBytes(stream[8..8 + length]) + stream[8 + length..] == stream
  {
    RoundTripBytes(stream[4..8]);
    assert stream == stream[..4] + stream[4..8] + stream[8..8 + length] + stream[8 + length..];
  }

  /** A stream starts with at most one frame. */
  lemma FirstFrameUnique(p: seq<byte>, q: seq<byte>, s: seq<byte>, t: seq<byte>)
    requires Sendable(p) && Sendable(q) && FrameBytes(p) + s == FrameBytes(q) + t
    ensures p == q && s == t
  {
    var stream := FrameBytes(p) + s;
    HeaderParses(p, stream);
    HeaderParses(q, stream);
    assert s == stream[8 + |p|..] && t == stream[8 + |q|..];
  }

  /** A whole frame of at most `max` payload bytes is at the front. */
  predicate StartsWithFrame(stream: seq<byte>, max: nat) {
    && |stream| >= HEADER_SIZE && stream[..4] == MAGIC
    && FromBigEndian(stream[4..8]) <= max && |stream| >= HEADER_SIZE + FromBigEndian(stream[4..8])
  }

  // ---------------------------------------------------------------- a socket

  /** What the network does next: bytes, a stop that times the reader out, the end, or an error. */
  datatype Arrival = Piece(bytes: seq<byte>) | Pause | End | Fault

  datatype Read = Got(bytes: seq<byte>) | Nothing | Threw

  /** The bytes still to come. */
  function Available(arrivals: seq<Arrival>): seq<byte> {
    if arrivals == [] then []
    else (if arrivals[0].Piece? then arrivals[0].bytes else []) + Available(arrivals[1..])
  }

  /** Only bytes arrive: no pause, no end, no error. */
  predicate Calm(arrivals: seq<Arrival>) {
    forall i :: 0 <= i < |arrivals| ==> arrivals[i].Piece?
  }

  class TcpSocket {
    var isOpen: bool
    var arrivals: seq<Arrival>

    function Stream(): seq<byte>
      reads this
    {
      Available(arrivals)
    }

    constructor (arrivals: seq<Arrival>)
      ensures isOpen && this.arrivals == arrivals
    {
      this.isOpen, this.arrivals := true, arrivals;
    }

    method Close()
      modifies this`isOpen
      ensures !isOpen
    {
      isOpen := false;
    }

    /** recv_some_timeout: at most one piece, never more than asked for. */
    method RecvSomeTimeout(size: nat) returns (r: Read)
      requires size > 0
      modifies this
      ensures r.Got? ==> 0 < |r.bytes| <= size && old(Stream()) == r.bytes + Stream()
                         && isOpen && old(isOpen)
      ensures !r.Got? ==> Stream() == old(Stream()) && (isOpen ==> old(isOpen))
      ensures Calm(old(arrivals)) ==> Calm(arrivals) && !r.Threw?
      ensures Calm(old(arrivals)) && old(isOpen) ==> isOpen && (r.Got? || old(Stream()) == [])
    {
      if !isOpen {
        return Nothing;
      }
      while arrivals != []
        invariant Stream() == old(Stream()) && isOpen
        invariant Calm(old(arrivals)) ==> Calm(arrivals)
        decreases |arrivals|
      {
        var next := arrivals[0];
        match next
        case Piece(bytes) =>
          if bytes == [] {
            assert [] + Available(arrivals[1..]) == Available(arrivals[1..]);
            arrivals := arrivals[1..];
            continue;
          }
          var count := Min(size, |bytes|);
          TakeFront(arrivals, count);
          arrivals := [Piece(bytes[count..])] + arrivals[1..];
          return Got(bytes[..count]);
        case Pause =>
          assert [] + Available(arrivals[1..]) == Available(arrivals[1..]);
          arrivals := arrivals[1..];
          return Nothing;
        case End =>
          isOpen := false;
          return Nothing;
        case Fault =>
          return Threw;
      }
      return Nothing;
    }

    /** recv_exact_timeout: bytes read before a failure are gone. */
    method RecvExactTimeout(size: nat) returns (r: Read)
      modifies this
      ensures r.Got? ==> |r.bytes| == size && old(Stream()) == r.bytes + Stream() && isOpen == old(isOpen)
      ensures isOpen ==> old(isOpen)
      ensures |Stream()| <= |old(Stream())|
      ensures Calm(old(arrivals)) ==> Calm(arrivals) && !r.Threw?
      ensures Calm(old(arrivals)) && old(isOpen) && |old(Stream())| >= size ==> r.Got?
    {
      var received: seq<byte> := [];
      ghost var all := Stream();
      assert [] + Stream() == all;
      while |received| < size
        invariant |received| <= size && all == received + Stream() && isOpen == old(isOpen)
        invariant Calm(old(arrivals)) ==> Calm(arrivals)
        decreases size - |received|
      {
        var some := RecvSomeTimeout(size - |received|);
        if !some.Got? {
          return some;
        }
        assert received + (some.bytes + Stream()) == (received + some.bytes) + Stream();
        received := received + some.bytes;
      }
      return Got(received);
    }

    /** receive_remaining in recv_frame_timeout: a partial frame closes the socket. */
    method RecvRemaining(size: nat) returns (r: Read)
      modifies this
      ensures r.Got? ==> |r.bytes| == size && old(Stream()) == r.bytes + Stream() && isOpen == old(isOpen)
      ensures r.Nothing? ==> !isOpen
      ensures Calm(old(arrivals)) ==> Calm(arrivals) && !r.Threw?
      ensures Calm(old(arrivals)) && old(isOpen) && |old(Stream())| >= size ==> r.Got?
    {
      r := RecvExactTimeout(size);
      if r.Nothing? {
        Close();
      }
    }

    /**
     recv_frame_timeout: a frame is taken whole or the socket is closed or nothing was taken, unless
     an exception says otherwise. Never a normal return with the socket open in the middle of a frame.
     */
    method RecvFrameTimeout(max: nat) returns (r: Read)
      requires max <= MAX_FRAME_PAYLOAD
      modifies this
      ensures r.Got? ==> |r.bytes| <= max && old(Stream()) == FrameBytes(r.bytes) + Stream() && isOpen
      ensures r.Nothing? ==> !isOpen || Stream() == old(Stream())
      ensures Calm(old(arrivals)) ==> Calm(arrivals)
      ensures Calm(old(arrivals)) && old(isOpen) && StartsWithFrame(old(Stream()), max) ==> r.Got?
    {
      ghost var stream := Stream();
      var first := RecvSomeTimeout(1);
      if !first.Got? {
        return first;
      }
      var rest := RecvRemaining(3);
      if !rest.Got? {
        return rest;
      }
      assert first.bytes + rest.bytes == stream[..4];
      if first.bytes + rest.bytes != MAGIC {
        return Threw;
      }
      var lengthBytes := RecvRemaining(4);
      if !lengthBytes.Got? {
        return lengthBytes;
      }
      assert lengthBytes.bytes == stream[4..8] && Stream() == stream[8..];
      var length := FromBigEndian(lengthBytes.bytes);
      if length > max {
        return Threw;
      }
      if length == 0 {
        HeaderMeansFrame(stream, 0);
        return Got([]);
      }
      r := RecvRemaining(length);
      if r.Got? {
        assert r.bytes == stream[8..8 + length] && Stream() == stream[8 + length..];
        HeaderMeansFrame(stream, length);
      }
    }
  }

  lemma TakeFront(arrivals: seq<Arrival>, count: nat)
    requires arrivals != [] && arrivals[0].Piece? && count <= |arrivals[0].bytes|
    ensures Available(arrivals)
            == arrivals[0].bytes[..count] + Available([Piece(arrivals[0].bytes[count..])] + arrivals[1..])
  {
    var bytes, later := arrivals[0].bytes, arrivals[1..];
    var rest := [Piece(bytes[count..])] + later;
    assert rest[1..] == later && rest[0] == Piece(bytes[count..]);
    assert Available(rest) == bytes[count..] + Available(later);
    assert bytes == bytes[..count] + bytes[count..];
    assert (bytes[..count] + bytes[count..]) + Available(later) == bytes[..count] + (bytes[count..] + Available(later));
  }

  // ---------------------------------------------------------------- many frames

  ghost predicate AllSendable(frames: seq<seq<byte>>) {
    forall i :: 0 <= i < |frames| ==> Sendable(frames[i])
  }

  lemma ConcatHead(frames: seq<seq<byte>>, k: nat)
    requires k < |frames|
    ensures Concat(frames[k..]) == FrameBytes(frames[k]) + Concat(frames[k + 1..])
  {
    assert frames[k..][1..] == frames[k + 1..];
  }

  /**
   Reading a stream of sent frames, cut into any pieces and with any pauses: what comes out so far
   is the first frames sent, in order, and the stream is then exactly at the next frame.
   */
  method ReceiveFrames(socket: TcpSocket, ghost frames: seq<seq<byte>>, attempts: nat)
    returns (payloads: seq<seq<byte>>, threw: bool)
    requires AllSendable(frames) && socket.Stream() == Concat(frames)
    modifies socket
    ensures |payloads| <= |frames| && payloads == frames[..|payloads|]
    ensures threw || !socket.isOpen || socket.Stream() == Concat(frames[|payloads|..])
    ensures old(Calm(socket.arrivals) && socket.isOpen) && attempts <= |frames| ==> payloads == frames[..attempts]
  {
    payloads, threw := [], false;
    assert frames[0..] == frames;
    for n := 0 to attempts
      invariant |payloads| <= |frames| && payloads == frames[..|payloads|] && !threw
      invariant !socket.isOpen || socket.Stream() == Concat(frames[|payloads|..])
      invariant old(Calm(socket.arrivals) && socket.isOpen) && attempts <= |frames| ==>
        |payloads| == n && socket.isOpen && Calm(socket.arrivals)
    {
      ghost var k, before, wasOpen := |payloads|, socket.Stream(), socket.isOpen;
      if k < |frames| {
        ConcatHead(frames, k);
        if wasOpen {
          HeaderParses(frames[k], before);
        }
      } else {
        assert frames[k..] == [];
      }
      if !socket.isOpen {
        continue;
      }
      var r := socket.RecvFrameTimeout(MAX_FRAME_PAYLOAD);
      if r.Threw? {
        threw := true;
        return;
      }
      if r.Got? {
        if k < |frames| {
          FirstFrameUnique(r.bytes, frames[k], socket.Stream(), Concat(frames[k + 1..]));
        }
        payloads := payloads + [r.bytes];
      }
    }
  }
}
