/** The bytes of every packet, spelled out: which tag byte stands before which field, how each value
    is written, and that these bytes are read back. */
module PacketBytes {
  import opened Bits
  import opened Wire
  import opened Messages
  import opened Parsing
  import opened CodecLaws
  import opened Nesting
  import opened Packets

  // ----- one field -----

  /** Nothing for a default value. */
  function IntField(tag: Byte, v: Value): seq<Byte> {
    if v.Num? && v.n != 0 then [tag] + Varint(v.n) else []
  }

  function BoolField(tag: Byte, v: Value): seq<Byte> {
    if v.Num? && v.n != 0 then [tag, 1] else []
  }

  /** A negative enum is written as the 64-bit integer. */
  function EnumField(tag: Byte, v: Value): seq<Byte> {
    if v.Num? && v.n != 0
    then [tag] + Varint(if v.n < 0x8000_0000 then v.n else v.n + 0xFFFF_FFFF_0000_0000)
    else []
  }

  /** The four bytes of a float, the lowest first. */
  function FloatField(tag: Byte, v: Value): seq<Byte> {
    if v.Num? && v.n != 0
    then [tag, v.n % 256, v.n / 256 % 256, v.n / 65536 % 256, v.n / 16777216 % 256]
    else []
  }

  function TextField(tag: Byte, v: Value): seq<Byte> {
    if v.Str? && v.s != [] then [tag] + Varint(|v.s|) + v.s else []
  }

  /** The submessage's bytes are what `wire` says. */
  function SubField(tag: Byte, wire: Message -> seq<Byte>, v: Value): seq<Byte> {
    if v.One? && v.m.Some? then [tag] + Varint(|wire(v.m.value)|) + wire(v.m.value) else []
  }

  function ManyField(tag: Byte, wire: Message -> seq<Byte>, ms: seq<Message>): seq<Byte> {
    if ms == [] then [] else [tag] + Varint(|wire(ms[0])|) + wire(ms[0]) + ManyField(tag, wire, ms[1..])
  }

  function Run(ns: seq<nat>): seq<Byte> {
    if ns == [] then [] else Varint(ns[0]) + Run(ns[1..])
  }

  function PackedField(tag: Byte, v: Value): seq<Byte> {
    if v.Nums? && v.ns != [] then [tag] + Varint(|Run(v.ns)|) + Run(v.ns) else []
  }

  // ----- the messages -----

  function Joined(parts: seq<seq<Byte>>): seq<Byte> {
    if parts == [] then [] else parts[0] + Joined(parts[1..])
  }

  function At(m: Message, i: nat): Value { if i < |m.vals| then m.vals[i] else Num(0) }

  function NamesWire(m: Message): seq<Byte> {
    Joined([TextField(10, At(m, 0)), TextField(18, At(m, 1)), UnknownsBytes(m.unknown)])
  }

  function PosInfoWire(m: Message): seq<Byte> {
    Joined([IntField(8, At(m, 0)), FloatField(21, At(m, 1)), FloatField(29, At(m, 2)), FloatField(37, At(m, 3)),
            FloatField(45, At(m, 4)), EnumField(48, At(m, 5)), UnknownsBytes(m.unknown)])
  }

  function MonsterInfoWire(m: Message): seq<Byte> {
    Joined([IntField(8, At(m, 0)), UnknownsBytes(m.unknown)])
  }

  function CreatureInfoWire(m: Message): seq<Byte> {
    Joined([IntField(8, At(m, 0)), IntField(16, At(m, 1)), IntField(24, At(m, 2)), IntField(32, At(m, 3)),
            UnknownsBytes(m.unknown)])
  }

  function ObjectInfoWire(m: Message): seq<Byte> {
    Joined([IntField(8, At(m, 0)), TextField(18, At(m, 1)), EnumField(24, At(m, 2)), EnumField(32, At(m, 3)),
            SubField(42, PosInfoWire, At(m, 4)), SubField(50, CreatureInfoWire, At(m, 5)),
            SubField(58, MonsterInfoWire, At(m, 6)), UnknownsBytes(m.unknown)])
  }

  /** The types of packets. */
  datatype PacketType =
    | CJoin | SJoin | CLogin | SLogin | CEnterGame | SEnterGame | CLeaveGame | SLeaveGame
    | SSpawn | SDespawn | CMove | SMove | CAttack | SAttack | CChat | SChat

  function SchemaOf(t: PacketType): Schema {
    match t
    case CJoin => C_JOIN
    case SJoin => S_JOIN
    case CLogin => C_LOGIN
    case SLogin => S_LOGIN
    case CEnterGame => C_ENTER_GAME
    case SEnterGame => S_ENTER_GAME
    case CLeaveGame => C_LEAVE_GAME
    case SLeaveGame => S_LEAVE_GAME
    case SSpawn => S_SPAWN
    case SDespawn => S_DESPAWN
    case CMove => C_MOVE
    case SMove => S_MOVE
    case CAttack => C_ATTACK
    case SAttack => S_ATTACK
    case CChat => C_CHAT
    case SChat => S_CHAT
  }

  /** The bytes of a packet: its fields, then what it carries of unknown fields. */
  function PacketWire(t: PacketType, m: Message): seq<Byte> {
    Joined(PacketParts(t, m) + [UnknownsBytes(m.unknown)])
  }

  function PacketParts(t: PacketType, m: Message): seq<seq<Byte>> {
    match t
    case CJoin => [SubField(10, NamesWire, At(m, 0))]
    case SJoin => [BoolField(8, At(m, 0))]
    case CLogin => [SubField(10, NamesWire, At(m, 0))]
    case SLogin => [BoolField(8, At(m, 0)), TextField(18, At(m, 1))]
    case CEnterGame => [TextField(18, At(m, 0))]
    case SEnterGame => [BoolField(8, At(m, 0)), SubField(18, ObjectInfoWire, At(m, 1))]
    case CLeaveGame => []
    case SLeaveGame => []
    case SSpawn => [if At(m, 0).Many? then ManyField(10, ObjectInfoWire, At(m, 0).ms) else []]
    case SDespawn => [PackedField(10, At(m, 0))]
    case CMove => [SubField(10, PosInfoWire, At(m, 0))]
    case SMove => [SubField(10, PosInfoWire, At(m, 0))]
    case CAttack => [IntField(8, At(m, 0)), IntField(16, At(m, 1))]
    case SAttack => [SubField(10, CreatureInfoWire, At(m, 0))]
    case CChat => [TextField(10, At(m, 0))]
    case SChat => [IntField(8, At(m, 0)), TextField(18, At(m, 1))]
  }

  // ----- that these are the bytes written -----

  lemma SmallTag(tag: Byte)
    requires tag < 128
    ensures Varint(tag) == [tag]
  {
  }

  lemma IntLayout(num: nat, v: Value)
    requires num < 16
    ensures ValueBytes(num, UInt64, v) == IntField(8 * num, v)
  {
    SmallTag(8 * num);
  }

  lemma BoolLayout(num: nat, v: Value)
    requires num < 16 && IsValue(Bool, v)
    ensures ValueBytes(num, Bool, v) == BoolField(8 * num, v)
  {
    SmallTag(8 * num);
    if v.n != 0 {
      SmallTag(1);
      assert [8 * num as Byte] + [1] == [8 * num, 1];
    }
  }

  lemma EnumLayout(num: nat, v: Value)
    requires num < 16
    ensures ValueBytes(num, Enum, v) == EnumField(8 * num, v)
  {
    SmallTag(8 * num);
  }

  lemma FloatLayout(num: nat, v: Value)
    requires num < 16
    ensures ValueBytes(num, Float, v) == FloatField(8 * num + 5, v)
  {
    hide Varint, Fixed;
    SmallTag(8 * num + 5);
    if v.Num? {
      FourBytes(v.n);
    }
  }

  lemma FourBytes(n: nat)
    ensures Fixed(n, 4) == [n % 256, n / 256 % 256, n / 65536 % 256, n / 16777216 % 256]
  {
    hide Fixed;
    FixedDigits(n, 4, 0);
    FixedDigits(n, 4, 1);
    FixedDigits(n, 4, 2);
    FixedDigits(n, 4, 3);
    assert Pow256(0) == 1 && Pow256(1) == 256 && Pow256(2) == 65536 && Pow256(3) == 16777216;
  }

  lemma TextLayout(num: nat, v: Value)
    requires num < 16
    ensures ValueBytes(num, Text, v) == TextField(8 * num + 2, v)
  {
    hide Varint;
    SmallTag(8 * num + 2);
  }

  lemma SubLayout(num: nat, schema: Schema, wire: Message -> seq<Byte>, v: Value)
    requires num < 16 && IsValue(Sub(schema), v)
    requires v.m.Some? ==> Bytes(schema, v.m.value) == wire(v.m.value)
    ensures ValueBytes(num, Sub(schema), v) == SubField(8 * num + 2, wire, v)
  {
    hide Varint, Bytes;
    SmallTag(8 * num + 2);
  }

  lemma {:induction false} ManyLayout(num: nat, schema: Schema, wire: Message -> seq<Byte>, ms: seq<Message>)
    requires num < 16 && forall k :: 0 <= k < |ms| ==> Bytes(schema, ms[k]) == wire(ms[k])
    ensures ManyBytes(num, schema, ms) == ManyField(8 * num + 2, wire, ms)
    decreases |ms|
  {
    hide Varint, Bytes;
    SmallTag(8 * num + 2);
    if ms != [] {
      ManyLayout(num, schema, wire, ms[1..]);
    }
  }

  lemma {:induction false} RunIs(ns: seq<nat>)
    ensures PackedBytes(ns) == Run(ns)
  {
    hide Varint;
    if ns != [] {
      RunIs(ns[1..]);
    }
  }

  lemma PackedLayout(num: nat, v: Value)
    requires num < 16
    ensures ValueBytes(num, RepeatedUInt64, v) == PackedField(8 * num + 2, v)
  {
    hide Varint, PackedBytes;
    SmallTag(8 * num + 2);
    if v.Nums? {
      RunIs(v.ns);
    }
  }

  /** A message's bytes are those of its fields in order, then of its unknown fields. */
  ghost predicate Laid(schema: Schema, m: Message, parts: seq<seq<Byte>>) {
    && |m.vals| == |schema.fields| && |parts| == |schema.fields| + 1
    && (forall i :: 0 <= i < |m.vals| ==>
          parts[i] == ValueBytes(schema.fields[i].num, schema.fields[i].kind, m.vals[i]))
    && parts[|schema.fields|] == UnknownsBytes(m.unknown)
  }

  lemma {:induction false} LaidFrom(schema: Schema, m: Message, parts: seq<seq<Byte>>, i: nat)
    requires Laid(schema, m, parts) && i <= |schema.fields|
    ensures BytesFrom(schema, m, i) == Joined(parts[i..])
    decreases |schema.fields| - i
  {
    hide ValueBytes, UnknownsBytes;
    if i == |schema.fields| {
      assert parts[i..] == [parts[i]];
      JoinedOne(parts[i]);
    } else {
      LaidFrom(schema, m, parts, i + 1);
      assert parts[i..][1..] == parts[i + 1..];
    }
  }

  lemma JoinedOne(part: seq<Byte>)
    ensures Joined([part]) == part
  {
    assert part + Joined([]) == part;
  }

  /** Only the first part has bytes. */
  lemma {:induction false} JoinedFront(parts: seq<seq<Byte>>)
    requires parts != [] && forall i :: 0 < i < |parts| ==> parts[i] == []
    ensures Joined(parts) == parts[0]
  {
    if |parts| > 1 {
      JoinedFront(parts[1..]);
      assert parts[0] + [] == parts[0];
    } else {
      assert parts == [parts[0]];
      JoinedOne(parts[0]);
    }
  }

  lemma LaidOut(schema: Schema, m: Message, parts: seq<seq<Byte>>)
    requires Laid(schema, m, parts)
    ensures Bytes(schema, m) == Joined(parts)
  {
    hide BytesFrom, Joined;
    LaidFrom(schema, m, parts, 0);
    assert parts[0..] == parts;
  }

  lemma NamesLayout(m: Message)
    requires IsMessage(JOIN_INFO, m)
    ensures Bytes(JOIN_INFO, m) == NamesWire(m) == Bytes(LOGIN_INFO, m)
  {
    hide ValueBytes, UnknownsBytes, Joined, TextField, Bytes;
    TextLayout(1, m.vals[0]);
    TextLayout(2, m.vals[1]);
    LaidOut(JOIN_INFO, m, [TextField(10, m.vals[0]), TextField(18, m.vals[1]), UnknownsBytes(m.unknown)]);
  }

  lemma PosInfoLayout(m: Message)
    requires IsMessage(POS_INFO, m)
    ensures Bytes(POS_INFO, m) == PosInfoWire(m)
  {
    hide ValueBytes, UnknownsBytes, Joined, IntField, FloatField, EnumField, Bytes, WfUnknown, Foreign;
    var vs := m.vals;
    IntLayout(1, vs[0]);
    FloatLayout(2, vs[1]);
    FloatLayout(3, vs[2]);
    FloatLayout(4, vs[3]);
    FloatLayout(5, vs[4]);
    EnumLayout(6, vs[5]);
    LaidOut(POS_INFO, m, [IntField(8, vs[0]), FloatField(21, vs[1]), FloatField(29, vs[2]), FloatField(37, vs[3]),
                          FloatField(45, vs[4]), EnumField(48, vs[5]), UnknownsBytes(m.unknown)]);
  }

  lemma MonsterInfoLayout(m: Message)
    requires IsMessage(MONSTER_INFO, m)
    ensures Bytes(MONSTER_INFO, m) == MonsterInfoWire(m)
  {
    hide ValueBytes, UnknownsBytes, Joined, IntField, Bytes;
    IntLayout(1, m.vals[0]);
    LaidOut(MONSTER_INFO, m, [IntField(8, m.vals[0]), UnknownsBytes(m.unknown)]);
  }

  lemma CreatureInfoLayout(m: Message)
    requires IsMessage(CREATURE_INFO, m)
    ensures Bytes(CREATURE_INFO, m) == CreatureInfoWire(m)
  {
    hide ValueBytes, UnknownsBytes, Joined, IntField, Bytes, WfUnknown, Foreign;
    var vs := m.vals;
    IntLayout(1, vs[0]);
    IntLayout(2, vs[1]);
    IntLayout(3, vs[2]);
    IntLayout(4, vs[3]);
    LaidOut(CREATURE_INFO, m, [IntField(8, vs[0]), IntField(16, vs[1]), IntField(24, vs[2]), IntField(32, vs[3]),
                               UnknownsBytes(m.unknown)]);
  }

  lemma ObjectInfoLayout(m: Message)
    requires IsMessage(OBJECT_INFO, m)
    ensures Bytes(OBJECT_INFO, m) == ObjectInfoWire(m)
  {
    hide ValueBytes, UnknownsBytes, Joined, IntField, TextField, EnumField, SubField, Bytes, PosInfoWire,
         CreatureInfoWire, MonsterInfoWire, WfUnknown, Foreign;
    var vs := m.vals;
    ObjectSubs(m);
    IntLayout(1, vs[0]);
    TextLayout(2, vs[1]);
    EnumLayout(3, vs[2]);
    EnumLayout(4, vs[3]);
    LaidOut(OBJECT_INFO, m, [IntField(8, vs[0]), TextField(18, vs[1]), EnumField(24, vs[2]), EnumField(32, vs[3]),
                             SubField(42, PosInfoWire, vs[4]), SubField(50, CreatureInfoWire, vs[5]),
                             SubField(58, MonsterInfoWire, vs[6]), UnknownsBytes(m.unknown)]);
  }

  lemma ObjectSubs(m: Message)
    requires IsMessage(OBJECT_INFO, m)
    ensures |m.vals| == 7
    ensures ValueBytes(5, Sub(POS_INFO), m.vals[4]) == SubField(42, PosInfoWire, m.vals[4])
    ensures ValueBytes(6, Sub(CREATURE_INFO), m.vals[5]) == SubField(50, CreatureInfoWire, m.vals[5])
    ensures ValueBytes(7, Sub(MONSTER_INFO), m.vals[6]) == SubField(58, MonsterInfoWire, m.vals[6])
  {
    hide ValueBytes, SubField, PosInfoWire, CreatureInfoWire, MonsterInfoWire, WfUnknown, Foreign;
    PosSub(5, m.vals[4]);
    CreatureSub(6, m.vals[5]);
    MonsterSub(7, m.vals[6]);
  }

  lemma PosSub(num: nat, v: Value)
    requires num < 16 && IsValue(Sub(POS_INFO), v)
    ensures ValueBytes(num, Sub(POS_INFO), v) == SubField(8 * num + 2, PosInfoWire, v)
  {
    hide ValueBytes, SubField, PosInfoWire, IsMessage, Bytes;
    if v.m.Some? {
      PosInfoLayout(v.m.value);
    }
    SubLayout(num, POS_INFO, PosInfoWire, v);
  }

  lemma CreatureSub(num: nat, v: Value)
    requires num < 16 && IsValue(Sub(CREATURE_INFO), v)
    ensures ValueBytes(num, Sub(CREATURE_INFO), v) == SubField(8 * num + 2, CreatureInfoWire, v)
  {
    hide ValueBytes, SubField, CreatureInfoWire, IsMessage, Bytes;
    if v.m.Some? {
      CreatureInfoLayout(v.m.value);
    }
    SubLayout(num, CREATURE_INFO, CreatureInfoWire, v);
  }

  lemma MonsterSub(num: nat, v: Value)
    requires num < 16 && IsValue(Sub(MONSTER_INFO), v)
    ensures ValueBytes(num, Sub(MONSTER_INFO), v) == SubField(8 * num + 2, MonsterInfoWire, v)
  {
    hide ValueBytes, SubField, MonsterInfoWire, IsMessage, Bytes;
    if v.m.Some? {
      MonsterInfoLayout(v.m.value);
    }
    SubLayout(num, MONSTER_INFO, MonsterInfoWire, v);
  }

  lemma ObjectSub(num: nat, v: Value)
    requires num < 16 && IsValue(Sub(OBJECT_INFO), v)
    ensures ValueBytes(num, Sub(OBJECT_INFO), v) == SubField(8 * num + 2, ObjectInfoWire, v)
  {
    hide ValueBytes, SubField, ObjectInfoWire, IsMessage, Bytes;
    if v.m.Some? {
      ObjectInfoLayout(v.m.value);
    }
    SubLayout(num, OBJECT_INFO, ObjectInfoWire, v);
  }

  lemma NamesSub(num: nat, v: Value)
    requires num < 16 && IsValue(Sub(JOIN_INFO), v)
    ensures ValueBytes(num, Sub(JOIN_INFO), v) == SubField(8 * num + 2, NamesWire, v)
  {
    hide ValueBytes, SubField, NamesWire, IsMessage, Bytes;
    if v.m.Some? {
      NamesLayout(v.m.value);
    }
    SubLayout(num, JOIN_INFO, NamesWire, v);
  }

  lemma ObjectMany(num: nat, v: Value)
    requires num < 16 && IsValue(RepeatedSub(OBJECT_INFO), v)
    ensures ValueBytes(num, RepeatedSub(OBJECT_INFO), v) == ManyField(8 * num + 2, ObjectInfoWire, v.ms)
  {
    hide ManyField, ObjectInfoWire, IsMessage, Bytes, ManyBytes;
    forall k | 0 <= k < |v.ms| ensures Bytes(OBJECT_INFO, v.ms[k]) == ObjectInfoWire(v.ms[k]) {
      ObjectInfoLayout(v.ms[k]);
    }
    ManyLayout(num, OBJECT_INFO, ObjectInfoWire, v.ms);
  }

  lemma FieldLayouts(t: PacketType, m: Message)
    requires IsMessage(SchemaOf(t), m)
    ensures var schema := SchemaOf(t);
            |PacketParts(t, m)| == |schema.fields| == |m.vals|
            && forall i :: 0 <= i < |m.vals| ==>
                 PacketParts(t, m)[i] == ValueBytes(schema.fields[i].num, schema.fields[i].kind, m.vals[i])
  {
    hide ValueBytes, IntField, BoolField, TextField, SubField, ManyField, PackedField, IsMessage;
    FieldsOf(t, m);
    var vs := m.vals;
    match t
    case CJoin => NamesSub(1, vs[0]);
    case SJoin => BoolLayout(1, vs[0]);
    case CLogin => NamesSub(1, vs[0]);
    case SLogin =>
      BoolLayout(1, vs[0]);
      TextLayout(2, vs[1]);
    case CEnterGame => TextLayout(2, vs[0]);
    case SEnterGame =>
      BoolLayout(1, vs[0]);
      ObjectSub(2, vs[1]);
    case CLeaveGame =>
    case SLeaveGame =>
    case SSpawn => ObjectMany(1, vs[0]);
    case SDespawn => PackedLayout(1, vs[0]);
    case CMove => PosSub(1, vs[0]);
    case SMove => PosSub(1, vs[0]);
    case CAttack =>
      IntLayout(1, vs[0]);
      IntLayout(2, vs[1]);
    case SAttack => CreatureSub(1, vs[0]);
    case CChat => TextLayout(1, vs[0]);
    case SChat =>
      IntLayout(1, vs[0]);
      TextLayout(2, vs[1]);
  }

  lemma FieldsOf(t: PacketType, m: Message)
    requires IsMessage(SchemaOf(t), m)
    ensures |m.vals| == |SchemaOf(t).fields|
    ensures forall i :: 0 <= i < |m.vals| ==> IsValue(SchemaOf(t).fields[i].kind, m.vals[i])
  {
  }

  /** Every packet is written as the bytes above. */
  lemma PacketLayout(t: PacketType, m: Message)
    requires IsMessage(SchemaOf(t), m)
    ensures Bytes(SchemaOf(t), m) == PacketWire(t, m)
  {
    hide SchemaOf, PacketParts, ValueBytes, UnknownsBytes, Joined, IsMessage, Bytes;
    FieldLayouts(t, m);
    LaidOut(SchemaOf(t), m, PacketParts(t, m) + [UnknownsBytes(m.unknown)]);
  }

  // ----- that they are accepted -----

  lemma SchemaHeights(t: PacketType)
    ensures SchemaOf(t) in PACKETS && Height(SchemaOf(t)) <= 2
  {
    hide Height, KindHeight;
    SubHeights();
    FewFieldsHeight(SchemaOf(t), 2);
  }

  lemma SubHeights()
    ensures KindHeight(Sub(JOIN_INFO)) <= 1 && KindHeight(Sub(LOGIN_INFO)) <= 1 && KindHeight(Sub(POS_INFO)) <= 1
    ensures KindHeight(Sub(CREATURE_INFO)) <= 1 && KindHeight(Sub(MONSTER_INFO)) <= 1
    ensures KindHeight(Sub(OBJECT_INFO)) <= 2 && KindHeight(RepeatedSub(OBJECT_INFO)) <= 2
    ensures forall k: Kind :: !k.Sub? && !k.RepeatedSub? ==> KindHeight(k) == 0
  {
    hide Height;
    FewFieldsHeight(JOIN_INFO, 0);
    FewFieldsHeight(POS_INFO, 0);
    FewFieldsHeight(CREATURE_INFO, 0);
    FewFieldsHeight(MONSTER_INFO, 0);
    FewFieldsHeight(OBJECT_INFO, 1);
  }

  lemma FewFieldsHeight(schema: Schema, most: nat)
    requires forall i :: 0 <= i < |schema.fields| ==> KindHeight(schema.fields[i].kind) <= most
    ensures Height(schema) <= most
  {
    FieldsBelow(schema.fields, most);
  }

  lemma {:induction false} FieldsBelow(fields: seq<Field>, most: nat)
    requires forall i :: 0 <= i < |fields| ==> KindHeight(fields[i].kind) <= most
    ensures FieldsHeight(fields) <= most
  {
    hide KindHeight;
    if fields != [] {
      FieldsBelow(fields[1..], most);
    }
  }

  /** The bytes of every packet with valid texts are read back, unless it carries unknown groups
      more than 98 deep or is about 2 GiB long. */
  lemma PacketIsRead(valid: seq<Byte> -> bool, t: PacketType, m: Message)
    requires IsMessage(SchemaOf(t), m) && MessageTexts(valid, m)
    requires Groups(m) <= 98 && |PacketWire(t, m)| <= 0x7FFF_FFEF
    ensures Parse(valid, SchemaOf(t), PacketWire(t, m)) == Some(m)
  {
    hide SchemaOf, PacketWire, Parse, Bytes, IsMessage, MessageTexts, MessageNesting, Groups, Height, WfSchema;
    PacketLayout(t, m);
    SchemaHeights(t);
    PacketsAreWf(SchemaOf(t));
    MessageHeight(SchemaOf(t), m);
    AcceptedExactly(valid, SchemaOf(t), m);
  }

  /** Two packets written one after the other are read as their merge. */
  lemma PacketsMerge(valid: seq<Byte> -> bool, t: PacketType, a: Message, b: Message)
    requires IsMessage(SchemaOf(t), a) && MessageTexts(valid, a) && Groups(a) <= 98
    requires IsMessage(SchemaOf(t), b) && MessageTexts(valid, b) && Groups(b) <= 98
    requires |PacketWire(t, a)| <= 0x7FFF_FFEF && |PacketWire(t, b)| <= 0x7FFF_FFEF
    ensures Parse(valid, SchemaOf(t), PacketWire(t, a) + PacketWire(t, b)) == Some(Merged(SchemaOf(t), a, b))
  {
    hide SchemaOf, PacketWire, Parse, Bytes, IsMessage, MessageTexts, MessageNesting, Groups, Height, WfSchema, Merged,
         Readable;
    PacketLayout(t, a);
    PacketLayout(t, b);
    SchemaHeights(t);
    PacketsAreWf(SchemaOf(t));
    MessageHeight(SchemaOf(t), a);
    MessageHeight(SchemaOf(t), b);
    var ctx := Context(valid, DEFAULT_RECURSION_LIMIT);
    MessageReadable(ctx, SchemaOf(t), a);
    MessageReadable(ctx, SchemaOf(t), b);
    ConcatenationMerges(valid, SchemaOf(t), a, b);
  }

  // ----- what else the bytes of a packet can be -----

  /** Unknown fields are written back under their own number and wire type. */
  lemma UnknownLayout(u: Unknown)
    ensures UnknownFieldBytes(u)
            == match u
               case UnknownVarint(num, v) => Varint(8 * num) + Varint(v)
               case UnknownFixed64(num, v) => Varint(8 * num + 1) + Fixed(v, 8)
               case UnknownBytes(num, s) => Varint(8 * num + 2) + Varint(|s|) + s
               case UnknownGroup(num, fields) => Varint(8 * num + 3) + UnknownsBytes(fields) + Varint(8 * num + 4)
               case UnknownFixed32(num, v) => Varint(8 * num + 5) + Fixed(v, 4)
  {
    hide Varint, Fixed, UnknownsBytes;
    match u
    case UnknownBytes(num, s) =>
      var head, size := Varint(8 * num + 2), Varint(|s|);
      assert head + (size + s) == head + size + s;
    case UnknownGroup(num, fields) =>
      var head, body, end := Varint(8 * num + 3), UnknownsBytes(fields), Varint(8 * num + 4);
      assert head + (body + end) == head + body + end;
    case UnknownVarint(_, _) | UnknownFixed64(_, _) | UnknownFixed32(_, _) =>
  }

  /** A number that arrives twice: the second one counts, be it 0. */
  lemma SecondNumberCounts(valid: seq<Byte> -> bool, a: nat, b: nat)
    requires a < TWO64 && b < TWO64
    ensures Parse(valid, C_ATTACK, [8] + Varint(a) + ([8] + Varint(b))) == Some(Message([Num(b), Num(0)], []))
  {
    hide Varint, ParseBody, ReadUInt64, WfSchema;
    PacketsAreWf(C_ATTACK);
    SmallTag(8);
    var ctx := Context(valid, DEFAULT_RECURSION_LIMIT);
    var m := Message([Num(0), Num(0)], []);
    assert Empty(C_ATTACK) == m;
    assert [8] + Varint(a) + ([8] + Varint(b)) == Varint(Tag(1, 0)) + (Varint(a) + ([8] + Varint(b)));
    KnownStep(ctx, C_ATTACK, m, 0, 0, Varint(a) + ([8] + Varint(b)));
    UInt64RoundTrip(a, [8] + Varint(b));
    var m1 := Message([Num(a), Num(0)], []);
    assert With(m, 0, Num(a)) == m1;
    KnownStep(ctx, C_ATTACK, m1, 0, 0, Varint(b) + []);
    UInt64RoundTrip(b, []);
    assert Varint(b) + [] == Varint(b);
    assert With(m1, 0, Num(b)) == Message([Num(b), Num(0)], []);
    EndOfBody(ctx, C_ATTACK, Message([Num(b), Num(0)], []));
  }

  /** Any number but 0 is read as true. */
  lemma NonZeroIsTrue(valid: seq<Byte> -> bool, n: nat)
    requires n < TWO64
    ensures Parse(valid, S_JOIN, [8] + Varint(n)) == Some(Message([Num(if n == 0 then 0 else 1)], []))
  {
    hide Varint, ParseBody, ReadUInt64, WfSchema;
    PacketsAreWf(S_JOIN);
    SmallTag(8);
    var ctx := Context(valid, DEFAULT_RECURSION_LIMIT);
    var m, m1 := Message([Num(0)], []), Message([Num(if n == 0 then 0 else 1)], []);
    assert Empty(S_JOIN) == m;
    assert [8] + Varint(n) == Varint(Tag(1, 0)) + (Varint(n) + []);
    KnownStep(ctx, S_JOIN, m, 0, 0, Varint(n) + []);
    UInt64RoundTrip(n, []);
    assert With(m, 0, m1.vals[0]) == m1;
    EndOfBody(ctx, S_JOIN, m1);
  }

  /** An enum keeps the low 32 bits of the number read. */
  lemma EnumIsTruncated(valid: seq<Byte> -> bool, n: nat)
    requires n < TWO64
    ensures Parse(valid, POS_INFO, [48] + Varint(n))
            == Some(Message([Num(0), Num(0), Num(0), Num(0), Num(0), Num(n % 0x1_0000_0000)], []))
  {
    hide Varint, ParseBody, ReadUInt64, WfSchema;
    ObjectIsWf();
    SmallTag(48);
    var ctx := Context(valid, DEFAULT_RECURSION_LIMIT);
    var m := Message([Num(0), Num(0), Num(0), Num(0), Num(0), Num(0)], []);
    var m1 := Message([Num(0), Num(0), Num(0), Num(0), Num(0), Num(n % 0x1_0000_0000)], []);
    assert Empty(POS_INFO) == m;
    assert [48] + Varint(n) == Varint(Tag(6, 0)) + (Varint(n) + []);
    KnownStep(ctx, POS_INFO, m, 5, 0, Varint(n) + []);
    UInt64RoundTrip(n, []);
    assert With(m, 5, m1.vals[5]) == m1;
    EndOfBody(ctx, POS_INFO, m1);
  }

  /** A field of the right number under a wrong wire type is kept as unknown. */
  lemma WrongWireTypeIsUnknown(valid: seq<Byte> -> bool, s: seq<Byte>)
    requires |s| <= 0x7FFF_FFEF
    ensures Parse(valid, C_ATTACK, [10] + Varint(|s|) + s)
            == Some(Message([Num(0), Num(0)], [UnknownBytes(1, s)]))
  {
    hide Varint, ParseBody, ReadBytes, Prefixed, ParseField, Empty;
    SmallTag(10);
    var ctx := Context(valid, DEFAULT_RECURSION_LIMIT);
    var m, m1 := Message([Num(0), Num(0)], []), Message([Num(0), Num(0)], [UnknownBytes(1, s)]);
    EmptyAttack();
    PrefixedIs(s);
    assert [10] + Varint(|s|) + s == Varint(10) + (Prefixed(s) + []);
    StepLaw(ctx, C_ATTACK, m, 10, Prefixed(s) + []);
    BytesLaw(s, []);
    BytesInAttack(ctx, m, s, Prefixed(s) + []);
    EndOfBody(ctx, C_ATTACK, m1);
  }

  lemma EmptyAttack()
    ensures Empty(C_ATTACK) == Message([Num(0), Num(0)], [])
  {
  }

  lemma PrefixedIs(s: seq<Byte>)
    ensures Prefixed(s) == Varint(|s|) + s
  {
    hide Varint;
  }

  lemma BytesInAttack(ctx: Context, m: Message, s: seq<Byte>, b: seq<Byte>)
    requires m == Message([Num(0), Num(0)], []) && ReadBytes(b) == Good(s, [])
    ensures ParseField(ctx, C_ATTACK, m, 10, b) == Good(Message([Num(0), Num(0)], [UnknownBytes(1, s)]), [])
  {
    hide ReadBytes, ParseValue, KnownField;
    NotInAttack();
    assert ParseUnknown(ctx, 10, b) == Good(UnknownBytes(1, s), []);
    assert [] + [UnknownBytes(1, s)] == [UnknownBytes(1, s)];
  }

  lemma NotInAttack()
    ensures KnownField(C_ATTACK, 10) == 2
  {
  }

  /** A tag of 0, the end of a group that was not begun, and field number 0 are refused. */
  lemma StrayTagsAreRefused(valid: seq<Byte> -> bool, schema: Schema, rest: seq<Byte>)
    requires WfSchema(schema)
    ensures Parse(valid, schema, [0] + rest) == None && Parse(valid, schema, [12] + rest) == None
    ensures Parse(valid, schema, [2] + rest) == None
  {
    hide Varint, ParseBody, ParseValue;
    var ctx := Context(valid, DEFAULT_RECURSION_LIMIT);
    SmallTag(0);
    SmallTag(12);
    SmallTag(2);
    StepLaw(ctx, schema, Empty(schema), 0, rest);
    StepLaw(ctx, schema, Empty(schema), 12, rest);
    StepLaw(ctx, schema, Empty(schema), 2, rest);
  }

  /** Two parts of a submessage are merged field by field, the later part's fields first. */
  lemma MovesMerge(a: Message, b: Message, i: nat)
    requires IsMessage(POS_INFO, a) && IsMessage(POS_INFO, b) && i < 6
    ensures var m := Merged(C_MOVE, Message([One(Some(a))], []), Message([One(Some(b))], []));
            && |m.vals| == 1 && m.vals[0].One? && m.vals[0].m.Some?
            && var both := m.vals[0].m.value;
               && |both.vals| == 6 && both.vals[i] == (if b.vals[i] == Num(0) then a.vals[i] else b.vals[i])
               && both.unknown == a.unknown + b.unknown
  {
    hide IsMessage, Merged;
    var ma, mb := Message([One(Some(a))], []), Message([One(Some(b))], []);
    PosCount(a);
    PosCount(b);
    MergedAt(C_MOVE, ma, mb, 0);
    MergedAt(POS_INFO, a, b, i);
  }

  lemma PosCount(a: Message)
    requires IsMessage(POS_INFO, a)
    ensures |a.vals| == 6
  {
  }

  /** The chat message "hi" of player 7. */
  lemma ChatExample(valid: seq<Byte> -> bool)
    requires valid([104, 105])
    ensures var m := Message([Num(7), Str([104, 105])], []);
            && Bytes(S_CHAT, m) == [8, 7, 18, 2, 104, 105]
            && Parse(valid, S_CHAT, [8, 7, 18, 2, 104, 105]) == Some(m)
  {
    hide Parse, Bytes, IsMessage, MessageTexts, Groups, PacketWire;
    var m := Message([Num(7), Str([104, 105])], []);
    ChatIsMessage(valid, m);
    ChatWire(m);
    PacketLayout(SChat, m);
    PacketIsRead(valid, SChat, m);
  }

  lemma ChatIsMessage(valid: seq<Byte> -> bool, m: Message)
    requires m == Message([Num(7), Str([104, 105])], []) && valid([104, 105])
    ensures IsMessage(S_CHAT, m) && MessageTexts(valid, m) && Groups(m) == 0
  {
    assert m.vals[1..] == [Str([104, 105])] && m.vals[1..][1..] == [];
  }

  lemma ChatWire(m: Message)
    requires m == Message([Num(7), Str([104, 105])], [])
    ensures PacketWire(SChat, m) == [8, 7, 18, 2, 104, 105]
  {
    hide Joined, Varint;
    SmallTag(7);
    SmallTag(2);
    var first, second: seq<Byte> := [8, 7], [18, 2, 104, 105];
    assert IntField(8, Num(7)) == first && TextField(18, Str([104, 105])) == second;
    var parts := [first, second, []];
    assert PacketParts(SChat, m) + [UnknownsBytes([])] == parts;
    JoinedStep(parts);
    assert parts[1..] == [second, []];
    JoinedFront(parts[1..]);
    assert first + second == [8, 7, 18, 2, 104, 105];
  }

  lemma JoinedStep(parts: seq<seq<Byte>>)
    requires parts != []
    ensures Joined(parts) == parts[0] + Joined(parts[1..])
  {
  }
}
