/** The packets of this server: the schema of every message, and what the codec's laws say of
    the packets with repeated fields. */
module Packets {
  import opened Bits
  import opened Wire
  import opened Messages
  import opened Parsing
  import opened CodecLaws

  const JOIN_INFO := Schema([Field(1, Text), Field(2, Text)])
  const LOGIN_INFO := Schema([Field(1, Text), Field(2, Text)])
  const POS_INFO := Schema([Field(1, UInt64), Field(2, Float), Field(3, Float), Field(4, Float), Field(5, Float),
                            Field(6, Enum)])
  const MONSTER_INFO := Schema([Field(1, UInt64)])
  const CREATURE_INFO := Schema([Field(1, UInt64), Field(2, UInt64), Field(3, UInt64), Field(4, UInt64)])
  const OBJECT_INFO := Schema([Field(1, UInt64), Field(2, Text), Field(3, Enum), Field(4, Enum),
                               Field(5, Sub(POS_INFO)), Field(6, Sub(CREATURE_INFO)), Field(7, Sub(MONSTER_INFO))])

  const C_JOIN := Schema([Field(1, Sub(JOIN_INFO))])
  const S_JOIN := Schema([Field(1, Bool)])
  const C_LOGIN := Schema([Field(1, Sub(LOGIN_INFO))])
  const S_LOGIN := Schema([Field(1, Bool), Field(2, Text)])
  const C_ENTER_GAME := Schema([Field(2, Text)])
  const S_ENTER_GAME := Schema([Field(1, Bool), Field(2, Sub(OBJECT_INFO))])
  const C_LEAVE_GAME := Schema([])
  const S_LEAVE_GAME := Schema([])
  const S_SPAWN := Schema([Field(1, RepeatedSub(OBJECT_INFO))])
  const S_DESPAWN := Schema([Field(1, RepeatedUInt64)])
  const C_MOVE := Schema([Field(1, Sub(POS_INFO))])
  const S_MOVE := Schema([Field(1, Sub(POS_INFO))])
  const C_ATTACK := Schema([Field(1, UInt64), Field(2, UInt64)])
  const S_ATTACK := Schema([Field(1, Sub(CREATURE_INFO))])
  const C_CHAT := Schema([Field(1, Text)])
  const S_CHAT := Schema([Field(1, UInt64), Field(2, Text)])

  const PACKETS := {C_JOIN, S_JOIN, C_LOGIN, S_LOGIN, C_ENTER_GAME, S_ENTER_GAME, C_LEAVE_GAME, S_LEAVE_GAME, S_SPAWN,
                    S_DESPAWN, C_MOVE, S_MOVE, C_ATTACK, S_ATTACK, C_CHAT, S_CHAT}

  lemma OneFieldIsWf(f: Field)
    requires 1 <= f.num < 16 && WfKind(f.kind)
    ensures WfSchema(Schema([f]))
  {
  }

  lemma TwoFieldsAreWf(f: Field, g: Field)
    requires 1 <= f.num < g.num < 16 && WfKind(f.kind) && WfKind(g.kind)
    ensures WfSchema(Schema([f, g]))
  {
  }

  /** Fields numbered 1, 2, 3 and so on. */
  lemma NumberedFieldsAreWf(schema: Schema)
    requires |schema.fields| < 15
    requires forall i :: 0 <= i < |schema.fields| ==> schema.fields[i].num == i + 1 && WfKind(schema.fields[i].kind)
    ensures WfSchema(schema)
  {
    hide WfKind;
  }

  lemma ObjectIsWf()
    ensures WfSchema(POS_INFO) && WfSchema(CREATURE_INFO) && WfSchema(MONSTER_INFO) && WfSchema(OBJECT_INFO)
  {
    hide WfSchema;
    NumberedFieldsAreWf(POS_INFO);
    NumberedFieldsAreWf(CREATURE_INFO);
    NumberedFieldsAreWf(MONSTER_INFO);
    NumberedFieldsAreWf(OBJECT_INFO);
  }

  lemma PacketsAreWf(schema: Schema)
    requires schema in PACKETS
    ensures WfSchema(schema)
  {
    hide WfSchema;
    ObjectIsWf();
    TwoFieldsAreWf(Field(1, Text), Field(2, Text));
    if |schema.fields| == 0 {
      NoFieldsAreWf(schema);
    } else if |schema.fields| == 1 {
      OneFieldIsWf(schema.fields[0]);
      assert schema == Schema([schema.fields[0]]);
    } else {
      TwoFieldsAreWf(schema.fields[0], schema.fields[1]);
      assert schema == Schema([schema.fields[0], schema.fields[1]]);
    }
  }

  lemma NoFieldsAreWf(schema: Schema)
    requires schema.fields == []
    ensures WfSchema(schema)
  {
  }

  // ----- S_DESPAWN: packed runs and single numbers in any mix -----

  datatype Chunk = Run(ns: seq<nat>) | Single(n: nat)

  function ChunkBytes(c: Chunk): seq<Byte> {
    match c
    case Run(ns) => Varint(10) + Prefixed(PackedBytes(ns))
    case Single(n) => Varint(8) + Varint(n)
  }

  function ChunksBytes(cs: seq<Chunk>): seq<Byte> {
    if cs == [] then [] else ChunkBytes(cs[0]) + ChunksBytes(cs[1..])
  }

  function ChunkIds(c: Chunk): seq<nat> {
    match c
    case Run(ns) => ns
    case Single(n) => [n]
  }

  function AllIds(cs: seq<Chunk>): seq<nat> {
    if cs == [] then [] else ChunkIds(cs[0]) + AllIds(cs[1..])
  }

  ghost predicate WfChunk(c: Chunk) {
    match c
    case Run(ns) => |PackedBytes(ns)| <= MAX_SIZE && forall k :: 0 <= k < |ns| ==> ns[k] < TWO64
    case Single(n) => n < TWO64
  }

  lemma ChunkLaw(ctx: Context, ids: seq<nat>, c: Chunk, rest: seq<Byte>)
    requires WfChunk(c)
    ensures ParseBody(ctx, S_DESPAWN, Message([Nums(ids)], []), ChunkBytes(c) + rest)
            == ParseBody(ctx, S_DESPAWN, Message([Nums(ids + ChunkIds(c))], []), rest)
  {
    hide ParseBody, Varint, Prefixed, PackedBytes, ReadBytes, ReadUInt64, ParsePacked, WfSchema;
    PacketsAreWf(S_DESPAWN);
    var m := Message([Nums(ids)], []);
    assert With(m, 0, Nums(ids + ChunkIds(c))) == Message([Nums(ids + ChunkIds(c))], []);
    match c
    case Run(ns) =>
      assert ChunkBytes(c) + rest == Varint(Tag(1, 2)) + (Prefixed(PackedBytes(ns)) + rest);
      KnownStep(ctx, S_DESPAWN, m, 0, 2, Prefixed(PackedBytes(ns)) + rest);
      BytesLaw(PackedBytes(ns), rest);
      PackedLaw(ns);
      assert ReadNumbers(2, Prefixed(PackedBytes(ns)) + rest) == Good(ns, rest);
    case Single(n) =>
      assert ChunkBytes(c) + rest == Varint(Tag(1, 0)) + (Varint(n) + rest);
      KnownStep(ctx, S_DESPAWN, m, 0, 0, Varint(n) + rest);
      UInt64RoundTrip(n, rest);
  }

  lemma {:induction false} ChunksLaw(ctx: Context, ids: seq<nat>, cs: seq<Chunk>)
    requires forall k :: 0 <= k < |cs| ==> WfChunk(cs[k])
    ensures ParseBody(ctx, S_DESPAWN, Message([Nums(ids)], []), ChunksBytes(cs))
            == Some(Message([Nums(ids + AllIds(cs))], []))
    decreases cs
  {
    hide ParseBody, ChunkBytes, WfChunk;
    if cs == [] {
      EndOfBody(ctx, S_DESPAWN, Message([Nums(ids)], []));
      assert ids + [] == ids;
    } else {
      ChunkLaw(ctx, ids, cs[0], ChunksBytes(cs[1..]));
      ChunksLaw(ctx, ids + ChunkIds(cs[0]), cs[1..]);
      assert ids + AllIds(cs) == ids + ChunkIds(cs[0]) + AllIds(cs[1..]);
    }
  }

  lemma EmptyDespawn()
    ensures Empty(S_DESPAWN) == Message([Nums([])], [])
  {
  }

  /** The ids arrive in order however the sender split them into packed runs and single fields. */
  lemma IdsFromAnyMix(valid: seq<Byte> -> bool, cs: seq<Chunk>)
    requires forall k :: 0 <= k < |cs| ==> WfChunk(cs[k])
    ensures Parse(valid, S_DESPAWN, ChunksBytes(cs)) == Some(Message([Nums(AllIds(cs))], []))
  {
    hide ParseBody, WfChunk, Empty, ChunksBytes;
    ChunksLaw(Context(valid, DEFAULT_RECURSION_LIMIT), [], cs);
    EmptyDespawn();
    assert [] + AllIds(cs) == AllIds(cs);
  }

  // ----- where writer and reader disagree -----

  /** Texts of the last 16 lengths below 2 GiB: within the writer's limit of INT_MAX bytes, and
      refused by the reader, whatever the text. */
  lemma LongTextIsRefused(valid: seq<Byte> -> bool, text: seq<Byte>)
    requires 0x7FFF_FFEF < |text| <= 0x7FFF_FFF9
    ensures var m := Message([Str(text)], []);
            && IsMessage(C_CHAT, m) && |Bytes(C_CHAT, m)| <= 0x7FFF_FFFF
            && Parse(valid, C_CHAT, Bytes(C_CHAT, m)) == None
  {
    hide Varint, ParseBody;
    var m := Message([Str(text)], []);
    PacketsAreWf(C_CHAT);
    RoundTrip(valid, C_CHAT, m);
    VarintSizeIsLength(|text|);
    assert |Varint(Tag(1, 2))| == 1 by { VarintStep10(); }
    assert BytesFrom(C_CHAT, m, 1) == [];
  }

  lemma VarintStep10()
    ensures |Varint(10)| == 1
  {
  }
}
