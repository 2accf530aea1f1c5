/** Cutting a received byte stream into frames, however the network splits it. */
module Receiving {
  import opened Wire
  import opened Messages
  import opened PacketBytes
  import opened Framing

  // ----- the frames of a stream -----

  /** The complete frames at the front of some bytes and the bytes left over. `stuck` is set when
      a header announces size 0: the loop would then meet the same header for ever. */
  datatype Cut = Cut(frames: seq<seq<Byte>>, rest: seq<Byte>, stuck: bool)

  function CutFrames(b: seq<Byte>): Cut
    decreases |b|
  {
    if |b| < HEADER_SIZE || |b| < SizeOf(b) then Cut([], b, false)
    else if SizeOf(b) == 0 then Cut([], b, true)
    else
      var more := CutFrames(b[SizeOf(b)..]);
      more.(frames := [b[..SizeOf(b)]] + more.frames)
  }

  lemma {:induction false} RestIsShort(b: seq<Byte>)
    ensures !CutFrames(b).stuck ==> |CutFrames(b).rest| < UINT16_MAX
    decreases |b|
  {
    hide Word;
    if |b| >= HEADER_SIZE {
      SizeFits(b);
      if 0 < SizeOf(b) <= |b| {
        RestIsShort(b[SizeOf(b)..]);
      }
    }
  }

  lemma SameSize(a: seq<Byte>, b: seq<Byte>)
    requires |a| >= HEADER_SIZE
    ensures SizeOf(a + b) == SizeOf(a)
  {
    assert (a + b)[..2] == a[..2];
  }

  /** Cutting a longer stream goes on where cutting its beginning stopped. */
  lemma {:induction false} CutGoesOn(a: seq<Byte>, b: seq<Byte>)
    requires !CutFrames(a).stuck
    ensures var first := CutFrames(a); var then_ := CutFrames(first.rest + b);
            CutFrames(a + b) == then_.(frames := first.frames + then_.frames)
    decreases |a|
  {
    hide SizeOf, CutFrames;
    if |a| < HEADER_SIZE || |a| < SizeOf(a) {
      CutNone(a);
      var whole := CutFrames(a + b);
      assert [] + whole.frames == whole.frames;
    } else {
      SameSize(a, b);
      var size := SizeOf(a);
      CutFirst(a);
      CutFirst(a + b);
      assert (a + b)[size..] == a[size..] + b && (a + b)[..size] == a[..size];
      CutGoesOn(a[size..], b);
      var first := CutFrames(a[size..]);
      var then_ := CutFrames(first.rest + b);
      assert [a[..size]] + (first.frames + then_.frames) == [a[..size]] + first.frames + then_.frames;
    }
  }

  lemma CutNone(b: seq<Byte>)
    requires |b| < HEADER_SIZE || |b| < SizeOf(b)
    ensures CutFrames(b) == Cut([], b, false)
  {
  }

  lemma CutFirst(b: seq<Byte>)
    requires |b| >= HEADER_SIZE && |b| >= SizeOf(b)
    ensures SizeOf(b) == 0 ==> CutFrames(b) == Cut([], b, true)
    ensures SizeOf(b) > 0 ==> var more := CutFrames(b[SizeOf(b)..]);
                              CutFrames(b) == more.(frames := [b[..SizeOf(b)]] + more.frames)
  {
  }

  // ----- the receive buffer -----

  class RecvBuffer {
    const bufferSize: nat
    const buffer: array<Byte>
    var readPos: nat
    var writePos: nat

    ghost predicate Valid()
      reads this
    {
      buffer.Length == 10 * bufferSize && readPos <= writePos <= buffer.Length
    }

    ghost function Contents(): seq<Byte>
      requires Valid()
      reads this, buffer
    {
      buffer[readPos..writePos]
    }

    constructor (size: nat)
      ensures Valid() && fresh(buffer) && bufferSize == size && Contents() == [] && writePos == 0
      ensures FreeSize() == 10 * size
    {
      bufferSize := size;
      buffer := new Byte[10 * size];
      readPos, writePos := 0, 0;
    }

    function DataSize(): nat
      requires Valid()
      reads this
    {
      writePos - readPos
    }

    function FreeSize(): nat
      requires Valid()
      reads this
    {
      buffer.Length - writePos
    }

    /** Moves the unread bytes to the front when room gets short. memcpy demands that the two
        ranges do not overlap. */
    method Clean()
      requires Valid() && (FreeSize() < bufferSize ==> DataSize() <= readPos)
      modifies this, buffer
      ensures Valid() && Contents() == old(Contents())
      ensures |Contents()| <= 9 * bufferSize ==> FreeSize() >= bufferSize
    {
      var dataSize := DataSize();
      if dataSize == 0 {
        readPos, writePos := 0, 0;
      } else if FreeSize() < bufferSize {
        for k := 0 to dataSize
          invariant readPos == old(readPos) && writePos == old(writePos)
          invariant buffer[..k] == old(buffer[readPos..readPos + k])
          invariant buffer[readPos..writePos] == old(buffer[readPos..writePos])
        {
          assert buffer[readPos + k] == buffer[readPos..writePos][k];
          assert old(buffer[readPos + k]) == old(buffer[readPos..writePos])[k];
          buffer[k] := buffer[readPos + k];
        }
        readPos := 0;
        writePos := dataSize;
      }
    }

    method OnRead(n: nat) returns (ok: bool)
      requires Valid()
      modifies `readPos
      ensures Valid()
      ensures ok == (n <= |old(Contents())|)
      ensures Contents() == if ok then old(Contents())[n..] else old(Contents())
    {
      if n > DataSize() {
        return false;
      }
      readPos := readPos + n;
      return true;
    }

    /** n bytes have been placed behind the unread ones. */
    method OnWrite(n: nat) returns (ok: bool)
      requires Valid()
      modifies `writePos
      ensures Valid()
      ensures ok == (n <= old(FreeSize()))
      ensures ok ==> writePos == old(writePos) + n
      ensures ok ==> Contents() == old(Contents()) + buffer[old(writePos)..old(writePos) + n]
      ensures !ok ==> Contents() == old(Contents())
    {
      if n > FreeSize() {
        return false;
      }
      writePos := writePos + n;
      return true;
    }
  }

  // ----- a session -----

  /** Cuts the complete frames off the front of the received bytes and hands each on. */
  method OnRecv(b: seq<Byte>) returns (processed: nat, frames: seq<seq<Byte>>, stuck: bool)
    ensures processed <= |b|
    ensures CutFrames(b) == Cut(frames, b[processed..], stuck)
  {
    hide Word;
    processed, frames, stuck := 0, [], false;
    assert b[0..] == b;
    while |b| - processed >= HEADER_SIZE
      invariant processed <= |b|
      invariant var more := CutFrames(b[processed..]); CutFrames(b) == more.(frames := frames + more.frames)
      decreases |b| - processed
    {
      var size := SizeOf(b[processed..]);
      if |b| - processed < size {
        break;
      }
      if size == 0 {
        stuck := true;
        break;
      }
      ghost var more := CutFrames(b[processed..][size..]);
      assert b[processed..][size..] == b[processed + size..];
      assert frames + ([b[processed..][..size]] + more.frames) == frames + [b[processed..][..size]] + more.frames;
      frames := frames + [b[processed..][..size]];
      processed := processed + size;
    }
    assert frames + [] == frames;
  }

  const BUFFER_SIZE: nat := 0x10000

  class PacketSession {
    const recv: RecvBuffer
    var connected: bool
    var handed: seq<seq<Byte>>      // the frames OnRecvPacket was called with, in order
    ghost var stream: seq<Byte>     // all bytes received so far

    ghost predicate Valid()
      reads this, recv, recv.buffer
    {
      && recv.Valid() && recv.bufferSize == BUFFER_SIZE
      && (connected ==> Receives())
    }

    /** Between receives: the frames of the stream have been handed on, the rest is kept, and
        there is room for at least one more full buffer. */
    ghost predicate Receives()
      requires recv.Valid()
      reads this, recv, recv.buffer
    {
      && CutFrames(stream) == Cut(handed, recv.Contents(), false)
      && recv.FreeSize() >= BUFFER_SIZE
    }

    constructor ()
      ensures Valid() && connected && stream == [] && handed == [] && fresh(recv) && fresh(recv.buffer)
      ensures recv.FreeSize() == 655_360
    {
      recv := new RecvBuffer(BUFFER_SIZE);
      connected := true;
      handed := [];
      stream := [];
      new;
      assert recv.Contents() == [];
    }

    /** The network delivers `data`: RegisterRecv offered all free space of the buffer. A session
        is only ever disconnected by an empty receive, never by an overflow; it gets stuck when
        the stream reaches a header of size 0, and otherwise has handed on exactly the complete
        frames received so far. */
    method ProcessRecv(data: seq<Byte>) returns (stuck: bool)
      requires Valid() && connected && |data| <= recv.FreeSize()
      modifies this, recv, recv.buffer
      ensures stream == old(stream) + data
      ensures stuck == CutFrames(stream).stuck
      ensures handed == CutFrames(stream).frames
      ensures !stuck ==> Valid() && (connected <==> data != [])
    {
      hide CutFrames, SizeOf;
      stream := stream + data;
      stuck := false;
      CutGoesOn(old(stream), data);
      if |data| == 0 {
        assert stream == old(stream);
        connected := false;
        return;
      }
      Deliver(data);
      var ok := recv.OnWrite(|data|);
      assert recv.Contents() == old(recv.Contents()) + data;
      ghost var unread := recv.Contents();
      RestIsShort(stream);
      var processed, frames;
      processed, frames, stuck := OnRecv(recv.buffer[recv.readPos..recv.writePos]);
      handed := handed + frames;
      if stuck {
        return;
      }
      ok := recv.OnRead(processed);
      NoOverlap(recv.readPos, recv.writePos, |recv.Contents()|);
      recv.Clean();
    }

    /** The receive itself: the bytes arrive behind the write position. */
    method Deliver(data: seq<Byte>)
      requires recv.Valid() && |data| <= recv.FreeSize()
      modifies recv.buffer
      ensures recv.buffer[..recv.writePos] == old(recv.buffer[..recv.writePos])
      ensures recv.buffer[recv.writePos..recv.writePos + |data|] == data
    {
      var w := recv.writePos;
      for k := 0 to |data|
        invariant recv.buffer[..w] == old(recv.buffer[..w])
        invariant recv.buffer[w..w + k] == data[..k]
        modifies recv.buffer
      {
        recv.buffer[w + k] := data[k];
      }
    }
  }

  /** With less than 64 KiB unread, moving them out of the last tenth of the buffer is safe. */
  lemma NoOverlap(readPos: nat, writePos: nat, unread: nat)
    requires readPos + unread == writePos && unread < UINT16_MAX
    ensures 10 * BUFFER_SIZE - writePos < BUFFER_SIZE ==> unread <= readPos
  {
  }

  // ----- from the sender's packets to the receiver's handlers -----

  /** A packet of some type, with its id and the handler registered for it. */
  datatype Packet = Packet(t: PacketType, id: nat, request: Request, message: Message)

  ghost predicate Sent(valid: seq<Byte> -> bool, p: Packet) {
    Handles(p.t, p.id, p.request) && Sendable(valid, p.t, p.message)
  }

  ghost predicate AllSendable(valid: seq<Byte> -> bool, packets: seq<Packet>) {
    forall k :: 0 <= k < |packets| ==> Sent(valid, packets[k])
  }

  ghost function FrameFor(valid: seq<Byte> -> bool, p: Packet): seq<Byte>
    requires Sent(valid, p)
  {
    FrameOf(p.id, p.t, p.message)
  }

  lemma FrameIsHandled(valid: seq<Byte> -> bool, p: Packet)
    requires Sent(valid, p)
    ensures var frame := FrameFor(valid, p);
            && |frame| >= HEADER_SIZE && SizeOf(frame) == |frame| && IdOf(frame) < 65535
            && Dispatch(valid, frame) == Called(p.request, p.message)
  {
    hide Dispatch, Sendable, PacketWire, SizeOf, IdOf;
    FramedRoundTrip(valid, p.t, p.id, p.request, p.message);
  }

  ghost function FramesOf(valid: seq<Byte> -> bool, packets: seq<Packet>): (frames: seq<seq<Byte>>)
    requires AllSendable(valid, packets)
    ensures |frames| == |packets|
  {
    if packets == [] then []
    else [FrameFor(valid, packets[0])] + FramesOf(valid, packets[1..])
  }

  /** What the sender writes to the connection. */
  ghost function StreamOf(frames: seq<seq<Byte>>): seq<Byte> {
    if frames == [] then [] else frames[0] + StreamOf(frames[1..])
  }

  lemma CutOne(frame: seq<Byte>, more: seq<Byte>)
    requires |frame| >= HEADER_SIZE && SizeOf(frame) == |frame|
    ensures var rest := CutFrames(more); CutFrames(frame + more) == rest.(frames := [frame] + rest.frames)
  {
    hide Word;
    SameSize(frame, more);
    assert (frame + more)[..|frame|] == frame && (frame + more)[|frame|..] == more;
  }

  lemma {:induction false} CutOfStream(valid: seq<Byte> -> bool, packets: seq<Packet>)
    requires AllSendable(valid, packets)
    ensures CutFrames(StreamOf(FramesOf(valid, packets))) == Cut(FramesOf(valid, packets), [], false)
    decreases packets
  {
    hide FrameFor, CutFrames, Sent;
    if packets == [] {
      assert CutFrames([]) == Cut([], [], false) by { CutOfNothing(); }
    } else {
      FrameIsHandled(valid, packets[0]);
      CutOfStream(valid, packets[1..]);
      var frames := FramesOf(valid, packets);
      assert frames[1..] == FramesOf(valid, packets[1..]);
      CutOne(frames[0], StreamOf(frames[1..]));
    }
  }

  lemma CutOfNothing()
    ensures CutFrames([]) == Cut([], [], false)
  {
  }

  lemma {:induction false} StuckStays(a: seq<Byte>, b: seq<Byte>)
    requires CutFrames(a).stuck
    ensures CutFrames(a + b).stuck
    decreases |a|
  {
    hide Word;
    SameSize(a, b);
    var size := SizeOf(a);
    if size > 0 {
      assert (a + b)[size..] == a[size..] + b;
      StuckStays(a[size..], b);
    }
  }

  lemma {:induction false} FrameAt(valid: seq<Byte> -> bool, packets: seq<Packet>, k: nat)
    requires AllSendable(valid, packets) && k < |packets|
    ensures FramesOf(valid, packets)[k] == FrameFor(valid, packets[k])
  {
    hide FrameFor, Sent;
    if k > 0 {
      FrameAt(valid, packets[1..], k - 1);
    }
  }

  /** However the network splits what was sent, at every moment the frames handed on are the
      first ones sent, in order and complete; when everything has arrived, they are all of them. */
  lemma FirstFramesArrive(valid: seq<Byte> -> bool, packets: seq<Packet>, arrived: seq<Byte>, missing: seq<Byte>)
    requires AllSendable(valid, packets) && arrived + missing == StreamOf(FramesOf(valid, packets))
    ensures !CutFrames(arrived).stuck
    ensures CutFrames(arrived).frames <= FramesOf(valid, packets)
    ensures missing == [] ==> CutFrames(arrived).frames == FramesOf(valid, packets)
  {
    hide Sent, FramesOf, StreamOf;
    CutOfStream(valid, packets);
    if CutFrames(arrived).stuck {
      StuckStays(arrived, missing);
    }
    CutGoesOn(arrived, missing);
    if missing == [] {
      assert arrived + missing == arrived;
    }
  }

  /** ... and handling the k-th of them calls the handler of the k-th packet with that packet. */
  lemma EachIsHandled(valid: seq<Byte> -> bool, packets: seq<Packet>, k: nat)
    requires AllSendable(valid, packets) && k < |packets|
    ensures var frame := FramesOf(valid, packets)[k];
            |frame| >= HEADER_SIZE && IdOf(frame) < 65535
            && Dispatch(valid, frame) == Called(packets[k].request, packets[k].message)
  {
    hide FrameFor, Sent, Dispatch;
    FrameAt(valid, packets, k);
    FrameIsHandled(valid, packets[k]);
  }
}
