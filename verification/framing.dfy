/** Packet frames: a header of two 16-bit words - size and id - in front of a serialized
    message, and the table that dispatches a frame to the handler of its id. */
module Framing {
  import opened Wire
  import opened Messages
  import opened Parsing
  import opened Nesting
  import opened Packets
  import opened PacketBytes
  import Parser
  import Serializer

  const HEADER_SIZE: nat := 4
  const UINT16_MAX: nat := 65535

  function Header(size: nat, id: nat): (b: seq<Byte>)
    ensures |b| == HEADER_SIZE
  {
    Fixed(size, 2) + Fixed(id, 2)
  }

  function Frame(id: nat, payload: seq<Byte>): seq<Byte> {
    Header(|payload| + HEADER_SIZE, id) + payload
  }

  /** The two words, lowest byte first. */
  lemma FrameLayout(id: nat, payload: seq<Byte>)
    requires id < 65536 && |payload| + 4 < 65536
    ensures var size := |payload| + 4;
            Frame(id, payload) == [size % 256, size / 256, id % 256, id / 256] + payload
  {
    hide Fixed;
    TwoBytes(|payload| + 4);
    TwoBytes(id);
  }

  lemma TwoBytes(n: nat)
    requires n < 65536
    ensures Fixed(n, 2) == [n % 256, n / 256]
  {
    hide Fixed;
    FixedDigits(n, 2, 0);
    FixedDigits(n, 2, 1);
    assert Pow256(0) == 1 && Pow256(1) == 256;
  }

  function SizeOf(frame: seq<Byte>): (size: nat)
    requires |frame| >= HEADER_SIZE
  {
    Word(frame[..2])
  }

  function IdOf(frame: seq<Byte>): (id: nat)
    requires |frame| >= HEADER_SIZE
  {
    Word(frame[2..4])
  }

  lemma HeaderReads(size: nat, id: nat, rest: seq<Byte>)
    requires size < 0x1_0000 && id < 0x1_0000
    ensures SizeOf(Header(size, id) + rest) == size && IdOf(Header(size, id) + rest) == id
  {
    assert Pow256(2) == 0x1_0000;
    WordOfFixed(size, 2);
    WordOfFixed(id, 2);
    assert (Header(size, id) + rest)[..2] == Fixed(size, 2);
    assert (Header(size, id) + rest)[2..4] == Fixed(id, 2);
  }

  lemma SizeFits(frame: seq<Byte>)
    requires |frame| >= HEADER_SIZE
    ensures SizeOf(frame) < 0x1_0000 && IdOf(frame) < 0x1_0000
  {
    assert Pow256(2) == 0x1_0000;
    WordBound(frame[..2]);
    WordBound(frame[2..4]);
  }

  // ----- sending -----

  /** Serializes behind a header, in 16-bit sizes. The buffer is the message's frame exactly when
      message and header fit in 16 bits. When only the sum wraps around there is no room for the
      header (ok is false); when the message's own size does, the header is consistent with the
      truncated buffer but the payload is not the message. */
  method MakeSendBuffer(schema: Schema, m: Message, id: nat) returns (ok: bool, buffer: array<Byte>)
    requires WfSchema(schema) && IsMessage(schema, m) && id < 0x1_0000
    ensures fresh(buffer)
    ensures ok && buffer[..] == Frame(id, Bytes(schema, m)) <==> |Bytes(schema, m)| + HEADER_SIZE <= UINT16_MAX
    ensures ok <==> buffer.Length >= HEADER_SIZE
    ensures ok ==> SizeOf(buffer[..]) == buffer.Length && IdOf(buffer[..]) == id
    ensures |Bytes(schema, m)| <= Serializer.INT_MAX ==>
              buffer.Length == (|Bytes(schema, m)| + HEADER_SIZE) % 0x1_0000
  {
    hide WfSchema, IsMessage, Bytes, Serializer.Caches, Fixed, Word;
    var total, _ := Serializer.ByteSizeLong(schema, m);
    var dataSize := total % 0x1_0000;
    var packetSize := (dataSize + HEADER_SIZE) % 0x1_0000;
    buffer := new Byte[packetSize](_ => 0);
    PacketSizes(total, dataSize, packetSize);
    if packetSize < HEADER_SIZE {
      FrameLength(id, Bytes(schema, m));
      return false, buffer;
    }
    WriteHeader(buffer, packetSize, id);
    ghost var headed := buffer[..];
    var written := Serializer.SerializeToArray(buffer, HEADER_SIZE, dataSize, schema, m);
    FrameLength(id, Bytes(schema, m));
    SameHeader(headed, buffer[..], packetSize, id, if written then Bytes(schema, m) else []);
    return true, buffer;
  }

  lemma PacketSizes(total: nat, dataSize: nat, packetSize: nat)
    requires dataSize == total % 0x1_0000 && packetSize == (dataSize + 4) % 0x1_0000
    ensures packetSize == (total + 4) % 0x1_0000
    ensures packetSize >= 4 ==> packetSize == dataSize + 4
    ensures total <= 65531 <==> (dataSize == total && packetSize == total + 4)
  {
    if dataSize + 4 >= 0x1_0000 {
      assert packetSize == dataSize + 4 - 0x1_0000;
    }
  }

  lemma FrameLength(id: nat, payload: seq<Byte>)
    ensures |Frame(id, payload)| == |payload| + 4
  {
  }

  method WriteHeader(buffer: array<Byte>, size: nat, id: nat)
    requires buffer.Length >= HEADER_SIZE && size < 0x1_0000 && id < 0x1_0000
    modifies buffer
    ensures buffer[..] == Header(size, id) + old(buffer[4..])
  {
    hide Fixed, Serializer.Wrote;
    ghost var start := buffer[..];
    var q := Serializer.WriteFixed(buffer, 0, size, 2);
    ghost var middle := buffer[..];
    q := Serializer.WriteFixed(buffer, q, id, 2);
    Serializer.WroteMore(start, 0, Fixed(size, 2), middle, Fixed(id, 2), buffer[..]);
    WroteFront(start, Header(size, id), buffer[..]);
  }

  lemma WroteFront(before: seq<Byte>, bytes: seq<Byte>, after: seq<Byte>)
    requires Serializer.Wrote(before, 0, bytes, after)
    ensures after == bytes + before[|bytes|..]
  {
  }

  lemma SameHeader(headed: seq<Byte>, after: seq<Byte>, size: nat, id: nat, payload: seq<Byte>)
    requires size < 0x1_0000 && id < 0x1_0000 && 4 <= size == |headed| && |payload| <= size - 4
    requires headed[..4] == Header(size, id)
    requires after == headed || Serializer.Wrote(headed, 4, payload, after)
    ensures |after| == size && SizeOf(after) == size && IdOf(after) == id
    ensures Serializer.Wrote(headed, 4, payload, after) && |payload| == size - 4 ==> after == Frame(id, payload)
  {
    hide Fixed, Word;
    assert after[..4] == Header(size, id);
    assert after == Header(size, id) + after[4..];
    HeaderReads(size, id, after[4..]);
  }

  // ----- dispatching -----

  /** The functions the application registers for the packets of a client. */
  datatype Request =
    | HandleJoin | HandleLogin | HandleEnterGame | HandleLeaveGame | HandleMove | HandleAttack | HandleChat

  datatype Handler = Invalid | Typed(schema: Schema, request: Request)

  const PKT_C_JOIN: nat := 1000
  const PKT_C_LOGIN: nat := 1002
  const PKT_C_ENTER_GAME: nat := 1004
  const PKT_C_LEAVE_GAME: nat := 1006
  const PKT_C_MOVE: nat := 1010
  const PKT_C_ATTACK: nat := 1012
  const PKT_C_CHAT: nat := 1014

  /** What is called for each id. */
  function Registered(id: nat): Handler {
    if id == PKT_C_JOIN then Typed(C_JOIN, HandleJoin)
    else if id == PKT_C_LOGIN then Typed(C_LOGIN, HandleLogin)
    else if id == PKT_C_ENTER_GAME then Typed(C_ENTER_GAME, HandleEnterGame)
    else if id == PKT_C_LEAVE_GAME then Typed(C_LEAVE_GAME, HandleLeaveGame)
    else if id == PKT_C_MOVE then Typed(C_MOVE, HandleMove)
    else if id == PKT_C_ATTACK then Typed(C_ATTACK, HandleAttack)
    else if id == PKT_C_CHAT then Typed(C_CHAT, HandleChat)
    else Invalid
  }

  datatype Outcome = CalledInvalid | Refused | Called(request: Request, packet: Message)

  /** What handling a frame comes to. */
  function Dispatch(valid: seq<Byte> -> bool, frame: seq<Byte>): Outcome
    requires |frame| >= HEADER_SIZE
  {
    match Registered(IdOf(frame))
    case Invalid => CalledInvalid
    case Typed(schema, request) =>
      match Parse(valid, schema, frame[HEADER_SIZE..])
      case None => Refused
      case Some(m) => Called(request, m)
  }

  lemma RegisteredIsPacket(id: nat)
    requires Registered(id).Typed?
    ensures Registered(id).schema in PACKETS && WfSchema(Registered(id).schema)
  {
    hide WfSchema;
    PacketsAreWf(Registered(id).schema);
  }

  /** GPacketHandler. */
  class PacketHandlers {
    const table: array<Handler>

    ghost predicate Initialised()
      reads this, table
    {
      table.Length == UINT16_MAX && forall id :: 0 <= id < UINT16_MAX ==> table[id] == Registered(id)
    }

    constructor ()
      ensures fresh(table) && table.Length == UINT16_MAX
    {
      table := new Handler[UINT16_MAX](_ => Invalid);
    }

    /** Fills the table with Handle_INVALID, then enters the typed handlers. */
    method Init()
      requires table.Length == UINT16_MAX
      modifies table
      ensures Initialised()
    {
      for i := 0 to UINT16_MAX
        invariant forall k :: 0 <= k < i ==> table[k] == Invalid
      {
        table[i] := Invalid;
      }
      table[PKT_C_JOIN] := Typed(C_JOIN, HandleJoin);
      table[PKT_C_LOGIN] := Typed(C_LOGIN, HandleLogin);
      table[PKT_C_ENTER_GAME] := Typed(C_ENTER_GAME, HandleEnterGame);
      table[PKT_C_LEAVE_GAME] := Typed(C_LEAVE_GAME, HandleLeaveGame);
      table[PKT_C_MOVE] := Typed(C_MOVE, HandleMove);
      table[PKT_C_ATTACK] := Typed(C_ATTACK, HandleAttack);
      table[PKT_C_CHAT] := Typed(C_CHAT, HandleChat);
    }

    /** Looks the id up and, for a typed handler, parses what follows the header. */
    method HandlePacket(valid: seq<Byte> -> bool, frame: seq<Byte>) returns (outcome: Outcome)
      requires Initialised() && |frame| >= HEADER_SIZE && IdOf(frame) < UINT16_MAX
      ensures outcome == Dispatch(valid, frame)
    {
      hide Registered, Word, Parse, WfSchema;
      var id := frame[2] as int + 256 * frame[3] as int;
      WordOfTwo(frame[2..4]);
      var handler := table[id];
      match handler {
        case Invalid => return CalledInvalid;
        case Typed(schema, request) =>
          RegisteredIsPacket(id);
          var ok, m := Parser.ParseFromArray(valid, schema, frame[HEADER_SIZE..]);
          return if ok then Called(request, m) else Refused;
      }
    }
  }

  lemma WordOfTwo(b: seq<Byte>)
    requires |b| == 2
    ensures Word(b) == b[0] as int + 256 * b[1] as int
  {
    assert Word(b[1..]) == b[1];
  }

  /** The handler an application registers for each type of packet, and its id. */
  ghost predicate Handles(t: PacketType, id: nat, request: Request) {
    || (t == CJoin && id == 1000 && request == HandleJoin)
    || (t == CLogin && id == 1002 && request == HandleLogin)
    || (t == CEnterGame && id == 1004 && request == HandleEnterGame)
    || (t == CLeaveGame && id == 1006 && request == HandleLeaveGame)
    || (t == CMove && id == 1010 && request == HandleMove)
    || (t == CAttack && id == 1012 && request == HandleAttack)
    || (t == CChat && id == 1014 && request == HandleChat)
  }

  /** After Init seven ids have typed handlers, each that of its packet, and no other id has. */
  lemma SevenHandlers(h: PacketHandlers)
    requires h.Initialised()
    ensures h.table.Length == 65535
    ensures h.table[1000] == Typed(C_JOIN, HandleJoin) && h.table[1002] == Typed(C_LOGIN, HandleLogin)
    ensures h.table[1004] == Typed(C_ENTER_GAME, HandleEnterGame)
    ensures h.table[1006] == Typed(C_LEAVE_GAME, HandleLeaveGame)
    ensures h.table[1010] == Typed(C_MOVE, HandleMove) && h.table[1012] == Typed(C_ATTACK, HandleAttack)
    ensures h.table[1014] == Typed(C_CHAT, HandleChat)
    ensures forall id :: 0 <= id < 65535 && id !in {1000, 1002, 1004, 1006, 1010, 1012, 1014} ==> h.table[id] == Invalid
  {
    forall id | 0 <= id < 65535 ensures h.table[id] == Registered(id) {
    }
  }

  lemma RegisteredFor(t: PacketType, id: nat, request: Request)
    requires Handles(t, id, request)
    ensures Registered(id) == Typed(SchemaOf(t), request) && id < 65535
  {
  }

  /** A packet the sender could frame: its texts valid, not nested deeper than 100, and short
      enough for a 16-bit size. */
  ghost predicate Sendable(valid: seq<Byte> -> bool, t: PacketType, m: Message) {
    && IsMessage(SchemaOf(t), m)
    && MessageTexts(valid, m) && MessageNesting(m) <= 100
    && |PacketWire(t, m)| + 4 <= 65535
  }

  /** The frame of a packet, byte by byte. */
  function FrameOf(id: nat, t: PacketType, m: Message): (frame: seq<Byte>)
    requires id < 65536 && |PacketWire(t, m)| + 4 <= 65535
  {
    var size := |PacketWire(t, m)| + 4;
    [size % 256, size / 256, id % 256, id / 256] + PacketWire(t, m)
  }

  /** Framing round trip: the handler of the packet's own type is called with an equal packet. */
  lemma FramedRoundTrip(valid: seq<Byte> -> bool, t: PacketType, id: nat, request: Request, m: Message)
    requires Handles(t, id, request) && Sendable(valid, t, m)
    ensures var frame := FrameOf(id, t, m);
            && frame == Frame(id, Bytes(SchemaOf(t), m))
            && IdOf(frame) == id < 65535 && SizeOf(frame) == |frame| <= 65535
            && Dispatch(valid, frame) == Called(request, m)
  {
    hide Parse, Bytes, WfSchema, Fixed, Word, IsMessage, SchemaOf, PacketWire, MessageTexts, MessageNesting, Registered;
    RegisteredFor(t, id, request);
    RegisteredIsPacket(id);
    var schema, payload := SchemaOf(t), PacketWire(t, m);
    PacketLayout(t, m);
    FrameLayout(id, payload);
    HeaderReads(|payload| + HEADER_SIZE, id, payload);
    assert Frame(id, payload)[HEADER_SIZE..] == payload;
    AcceptedExactly(valid, schema, m);
  }

  /** A C_MOVE with a PosInfo of object 1, as eight bytes. */
  lemma MoveIsHandled(valid: seq<Byte> -> bool)
    ensures var pos := Message([Num(1), Num(0), Num(0), Num(0), Num(0), Num(0)], []);
            Dispatch(valid, [8, 0, 242, 3, 10, 2, 8, 1]) == Called(HandleMove, Message([One(Some(pos))], []))
  {
    hide Dispatch, Sendable, PacketWire, PosInfoWire, Bytes, SizeOf, IdOf;
    var pos := Message([Num(1), Num(0), Num(0), Num(0), Num(0), Num(0)], []);
    var m := Message([One(Some(pos))], []);
    PosWireOfOne(pos);
    MoveWire(m, pos);
    MoveFits(valid, m, pos);
    FramedRoundTrip(valid, CMove, 1010, HandleMove, m);
    assert FrameOf(1010, CMove, m) == [8, 0, 242, 3, 10, 2, 8, 1];
  }

  lemma PosWireOfOne(pos: Message)
    requires pos == Message([Num(1), Num(0), Num(0), Num(0), Num(0), Num(0)], [])
    ensures PosInfoWire(pos) == [8, 1]
  {
    hide Joined;
    SmallTag(1);
    assert IntField(8, Num(1)) == [8, 1];
    JoinedFront([[8, 1], [], [], [], [], [], []]);
  }

  lemma MoveWire(m: Message, pos: Message)
    requires m == Message([One(Some(pos))], []) && PosInfoWire(pos) == [8, 1]
    ensures PacketWire(CMove, m) == [10, 2, 8, 1]
  {
    hide Joined, PosInfoWire;
    SmallTag(2);
    assert SubField(10, PosInfoWire, m.vals[0]) == [10, 2, 8, 1];
    JoinedFront([[10, 2, 8, 1], []]);
    assert PacketParts(CMove, m) + [UnknownsBytes([])] == [[10, 2, 8, 1], []];
  }

  lemma {:induction false} NumbersAreFlat(valid: seq<Byte> -> bool, vs: seq<Value>)
    requires forall i :: 0 <= i < |vs| ==> vs[i].Num?
    ensures ValuesTexts(valid, vs) && ValuesNesting(vs) == 0
  {
    if vs != [] {
      NumbersAreFlat(valid, vs[1..]);
    }
  }

  lemma MoveFits(valid: seq<Byte> -> bool, m: Message, pos: Message)
    requires pos == Message([Num(1), Num(0), Num(0), Num(0), Num(0), Num(0)], [])
    requires m == Message([One(Some(pos))], []) && PacketWire(CMove, m) == [10, 2, 8, 1]
    ensures Sendable(valid, CMove, m)
  {
    hide PacketWire, ValuesTexts, ValuesNesting, IsMessage;
    NumbersAreFlat(valid, pos.vals);
    OneSub(valid, pos);
    PosIsMessage(pos);
    MoveIsMessage(m, pos);
  }

  lemma OneSub(valid: seq<Byte> -> bool, pos: Message)
    requires MessageTexts(valid, pos) && MessageNesting(pos) == 0
    ensures ValuesTexts(valid, [One(Some(pos))]) && ValuesNesting([One(Some(pos))]) == 1
  {
    hide MessageTexts, MessageNesting;
    var v := One(Some(pos));
    assert ValueTexts(valid, v) && ValueNesting(v) == 1;
    assert [v][1..] == [];
  }

  lemma PosIsMessage(pos: Message)
    requires pos == Message([Num(1), Num(0), Num(0), Num(0), Num(0), Num(0)], [])
    ensures IsMessage(POS_INFO, pos)
  {
  }

  lemma MoveIsMessage(m: Message, pos: Message)
    requires m == Message([One(Some(pos))], []) && IsMessage(POS_INFO, pos)
    ensures IsMessage(C_MOVE, m)
  {
    assert IsValue(Sub(POS_INFO), m.vals[0]);
  }

  // ----- the server's packets -----

  /** The ids of the overloads of MakeSendBuffer. */
  function ServerId(t: PacketType): Option<nat> {
    match t
    case SJoin => Some(1001)
    case SLogin => Some(1003)
    case SEnterGame => Some(1005)
    case SLeaveGame => Some(1007)
    case SSpawn => Some(1008)
    case SDespawn => Some(1009)
    case SMove => Some(1011)
    case SAttack => Some(1013)
    case SChat => Some(1015)
    case CJoin | CLogin | CEnterGame | CLeaveGame | CMove | CAttack | CChat => None
  }

  /** The overload for one type of packet: the frame, byte by byte, if it fits. */
  method MakeServerBuffer(t: PacketType, m: Message) returns (ok: bool, buffer: array<Byte>)
    requires IsMessage(SchemaOf(t), m) && ServerId(t).Some?
    ensures fresh(buffer)
    ensures |PacketWire(t, m)| + 4 <= 65535 ==> ok && buffer[..] == FrameOf(ServerId(t).value, t, m)
  {
    hide SchemaOf, PacketWire, IsMessage, WfSchema, Bytes, Fixed;
    SchemaHeights(t);
    PacketsAreWf(SchemaOf(t));
    PacketLayout(t, m);
    ok, buffer := MakeSendBuffer(SchemaOf(t), m, ServerId(t).value);
    if |PacketWire(t, m)| + 4 <= 65535 {
      FrameLayout(ServerId(t).value, PacketWire(t, m));
    }
  }
}
