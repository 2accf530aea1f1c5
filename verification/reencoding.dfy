/** Whatever was received can be sent on: a parsed packet is well formed, and serializing and
    parsing it again gives the same packet. */
module Reencoding {
  import opened Bits
  import opened Wire
  import opened Messages
  import opened Parsing
  import opened CodecLaws

  // ----- what the parser lets through -----

  ghost predicate Shallow(depth: nat, u: Unknown)
    decreases u
  {
    u.UnknownGroup? ==> depth > 0 && AllShallow(depth - 1, u.fields)
  }

  ghost predicate AllShallow(depth: nat, us: seq<Unknown>)
    decreases us
  {
    us != [] ==> Shallow(depth, us[0]) && AllShallow(depth, us[1..])
  }

  /** The value could have been read: valid strings, nesting within the limit. */
  ghost predicate Accepted(ctx: Context, kind: Kind, v: Value)
    decreases kind, 0
  {
    match kind
    case Text => v.Str? ==> v.s == [] || ctx.valid(v.s)
    case Sub(schema) => v.One? && v.m.Some? ==> AcceptedSub(ctx, schema, v.m.value)
    case RepeatedSub(schema) => v.Many? ==> forall k :: 0 <= k < |v.ms| ==> AcceptedSub(ctx, schema, v.ms[k])
    case _ => true
  }

  ghost predicate AcceptedSub(ctx: Context, schema: Schema, m: Message)
    decreases schema, 1
  {
    ctx.depth > 0 && AcceptedMessage(ctx.Deeper(), schema, m)
  }

  ghost predicate AcceptedMessage(ctx: Context, schema: Schema, m: Message)
    decreases schema, 0
  {
    && |m.vals| == |schema.fields|
    && (forall i :: 0 <= i < |m.vals| ==> Accepted(ctx, schema.fields[i].kind, m.vals[i]))
    && AllShallow(ctx.depth, m.unknown)
  }

  ghost predicate Received(ctx: Context, schema: Schema, m: Message) {
    IsMessage(schema, m) && AcceptedMessage(ctx, schema, m)
  }

  ghost predicate ReceivedValue(ctx: Context, kind: Kind, v: Value) {
    IsValue(kind, v) && Accepted(ctx, kind, v)
  }

  lemma {:induction false} ShallowAppend(depth: nat, us: seq<Unknown>, u: Unknown)
    requires AllShallow(depth, us) && Shallow(depth, u)
    ensures AllShallow(depth, us + [u])
    decreases us
  {
    if us == [] {
      assert us + [u] == [u];
    } else {
      ShallowAppend(depth, us[1..], u);
      assert (us + [u])[1..] == us[1..] + [u];
    }
  }

  // ----- parsing keeps it -----

  lemma PlainKeeps(tag: nat, b: seq<Byte>)
    requires tag < TWO32 && tag / 8 != 0 && ParsePlain(tag, b).Good?
    ensures var u := ParsePlain(tag, b).value;
            WfUnknown(u) && !u.UnknownGroup? && Tag(u.num, WireType(u)) == tag
  {
    hide Pow256, ReadBytes, ReadUInt64;
    WordWidths();
    if tag % 8 == 1 && |b| >= 8 {
      WordBound(b[..8]);
    } else if tag % 8 == 5 && |b| >= 4 {
      WordBound(b[..4]);
    }
  }

  lemma {:induction false} UnknownKeeps(ctx: Context, tag: nat, b: seq<Byte>)
    requires tag < TWO32 && ParseUnknown(ctx, tag, b).Good?
    ensures var u := ParseUnknown(ctx, tag, b).value;
            WfUnknown(u) && Shallow(ctx.depth, u) && Tag(u.num, WireType(u)) == tag
    decreases |b|, 2
  {
    hide ParsePlain, ParseGroup, Tail;
    if tag % 8 == 3 {
      GroupKeeps(ctx.Deeper(), b);
    } else {
      PlainKeeps(tag, b);
    }
  }

  lemma {:induction false} GroupKeeps(ctx: Context, b: seq<Byte>)
    requires ParseGroup(ctx, b).Good?
    ensures var g := ParseGroup(ctx, b).value; WfUnknowns(g.fields) && AllShallow(ctx.depth, g.fields)
    decreases |b|, 1
  {
    hide ReadTag, ParseUnknown, WfUnknown, Shallow;
    var Good(tag, b1) := ReadTag(b);
    Shorter(b1, b);
    if !EndsMessage(tag) {
      var Good(u, b2) := ParseUnknown(ctx, tag, b1);
      Shorter(b2, b1);
      UnknownKeeps(ctx, tag, b1);
      GroupKeeps(ctx, b2);
      var fields := ParseGroup(ctx, b2).value.fields;
      assert ParseGroup(ctx, b).value.fields[1..] == fields;
    }
  }

  lemma Shorter(rest: seq<Byte>, b: seq<Byte>)
    requires Tail(rest, b)
    ensures |rest| < |b|
  {
  }

  lemma {:induction false} PackedKeeps(b: seq<Byte>)
    requires ParsePacked(b).Some?
    ensures forall k :: 0 <= k < |ParsePacked(b).value| ==> ParsePacked(b).value[k] < TWO64
    decreases |b|
  {
    hide ReadVarint;
    if b != [] {
      Shorter(ReadUInt64(b).rest, b);
      PackedKeeps(ReadUInt64(b).rest);
    }
  }

  lemma NumberKeeps(kind: Kind, b: seq<Byte>)
    requires kind.UInt64? || kind.Bool? || kind.Enum? || kind.Float?
    requires ReadNumber(kind, b).Good?
    ensures IsValue(kind, Num(ReadNumber(kind, b).value))
  {
    hide Pow256, ReadVarint, Tail;
    if kind.Float? {
      WordWidths();
      WordBound(b[..4]);
    }
  }

  lemma NumbersKeep(wireType: nat, b: seq<Byte>)
    requires ReadNumbers(wireType, b).Good?
    ensures forall k :: 0 <= k < |ReadNumbers(wireType, b).value| ==> ReadNumbers(wireType, b).value[k] < TWO64
  {
    hide ReadVarint, Tail, ParsePacked;
    if wireType == 2 {
      PackedKeeps(ReadBytes(b).value);
    }
  }

  lemma {:induction false} ValueKeeps(ctx: Context, kind: Kind, v: Value, wireType: nat, b: seq<Byte>)
    requires ReceivedValue(ctx, kind, v) && ParseValue(ctx, kind, v, wireType, b).Good?
    ensures ReceivedValue(ctx, kind, ParseValue(ctx, kind, v, wireType, b).value)
    decreases |b|, 2
  {
    hide ReadBytes, ReadMessage, ReadNumber, ReadNumbers, IsMessage, AcceptedMessage, Tail;
    match kind
    case Text =>
    case Sub(schema) =>
      HeldIsMessage(schema, v);
      if v.m.Some? {
        SubKeeps(ctx, schema, v.m.value, b);
      } else {
        EmptySubKeeps(ctx, schema, b);
      }
    case RepeatedSub(schema) => EmptySubKeeps(ctx, schema, b);
    case RepeatedUInt64 => NumbersKeep(wireType, b);
    case UInt64 | Bool | Enum | Float => NumberKeeps(kind, b);
  }

  lemma EmptyReceived(ctx: Context, schema: Schema)
    ensures Received(ctx, schema, Empty(schema))
  {
    EmptyIsMessage(schema);
  }

  lemma {:induction false} EmptySubKeeps(ctx: Context, schema: Schema, b: seq<Byte>)
    requires ReadMessage(ctx, schema, Empty(schema), b).Good?
    ensures var m := ReadMessage(ctx, schema, Empty(schema), b).value;
            IsMessage(schema, m) && AcceptedSub(ctx, schema, m)
    decreases |b|, 1
  {
    hide ReadBytes, ParseBody, IsMessage, AcceptedMessage;
    EmptyReceived(ctx.Deeper(), schema);
    BodyKeeps(ctx.Deeper(), schema, Empty(schema), ReadBytes(b).value);
  }

  lemma {:induction false} SubKeeps(ctx: Context, schema: Schema, m0: Message, b: seq<Byte>)
    requires IsMessage(schema, m0) && AcceptedSub(ctx, schema, m0) && ReadMessage(ctx, schema, m0, b).Good?
    ensures var m := ReadMessage(ctx, schema, m0, b).value;
            IsMessage(schema, m) && AcceptedSub(ctx, schema, m)
    decreases |b|, 1
  {
    hide ReadBytes, ParseBody;
    BodyKeeps(ctx.Deeper(), schema, m0, ReadBytes(b).value);
  }

  lemma {:induction false} FieldKeeps(ctx: Context, schema: Schema, m: Message, tag: nat, b: seq<Byte>)
    requires Received(ctx, schema, m) && tag < TWO32 && ParseField(ctx, schema, m, tag, b).Good?
    ensures Received(ctx, schema, ParseField(ctx, schema, m, tag, b).value)
    decreases |b|, 3
  {
    hide ParseValue, ParseUnknown, KnownField, WfUnknown, AllShallow, Shallow, IsValue, Accepted;
    var i := KnownField(schema, tag);
    if i < |schema.fields| {
      ValueKeeps(ctx, schema.fields[i].kind, m.vals[i], tag % 8, b);
    } else {
      UnknownKeeps(ctx, tag, b);
      ShallowAppend(ctx.depth, m.unknown, ParseUnknown(ctx, tag, b).value);
    }
  }

  /** A parse keeps messages well formed: in particular, what it stores as unknown is unknown. */
  lemma {:induction false} BodyKeeps(ctx: Context, schema: Schema, m: Message, b: seq<Byte>)
    requires Received(ctx, schema, m) && ParseBody(ctx, schema, m, b).Some?
    ensures Received(ctx, schema, ParseBody(ctx, schema, m, b).value)
    decreases |b|, 4
  {
    hide ReadTag, ParseField, IsMessage, AcceptedMessage;
    if b != [] {
      var Good(tag, b1) := ReadTag(b);
      Shorter(b1, b);
      ReceivedCount(ctx, schema, m);
      FieldKeeps(ctx, schema, m, tag, b1);
      var Good(m1, b2) := ParseField(ctx, schema, m, tag, b1);
      Shorter(b2, b1);
      BodyKeeps(ctx, schema, m1, b2);
    }
  }

  lemma ReceivedCount(ctx: Context, schema: Schema, m: Message)
    requires Received(ctx, schema, m)
    ensures |m.vals| == |schema.fields|
  {
  }

  // ----- and it can be read back -----

  lemma {:induction false} ShortUnknownReadable(depth: nat, u: Unknown)
    requires Shallow(depth, u) && |UnknownPayload(u)| <= MAX_SIZE
    ensures ReadableUnknown(depth, u)
    decreases u, 0
  {
    hide Varint;
    if u.UnknownGroup? {
      ShortUnknownsReadable(depth - 1, u.fields);
    }
  }

  lemma {:induction false} ShortUnknownsReadable(depth: nat, us: seq<Unknown>)
    requires AllShallow(depth, us) && |UnknownsBytes(us)| <= MAX_SIZE
    ensures ReadableUnknowns(depth, us)
    decreases us, 1
  {
    hide UnknownPayload, Varint;
    if us != [] {
      ShortUnknownReadable(depth, us[0]);
      ShortUnknownsReadable(depth, us[1..]);
    }
  }

  lemma {:induction false} ShortValueReadable(ctx: Context, num: nat, kind: Kind, v: Value)
    requires ReceivedValue(ctx, kind, v) && |ValueBytes(num, kind, v)| <= MAX_SIZE
    ensures ReadableValue(ctx, kind, v)
    decreases kind
  {
    hide Varint, Bytes, IsMessage, AcceptedMessage, ReadableSub, PackedBytes;
    match kind
    case Sub(schema) =>
      if v.m.Some? {
        ShortSubReadable(ctx, schema, v.m.value);
      }
    case RepeatedSub(schema) => ShortManyReadable(ctx, num, schema, v.ms);
    case _ =>
  }

  lemma {:induction false} ShortSubReadable(ctx: Context, schema: Schema, m: Message)
    requires IsMessage(schema, m) && AcceptedSub(ctx, schema, m) && |Bytes(schema, m)| <= MAX_SIZE
    ensures ReadableSub(ctx, schema, m)
    decreases schema, |schema.fields| + 2, 0
  {
    hide Bytes, IsMessage, AcceptedMessage;
    ShortIsReadable(ctx.Deeper(), schema, m);
  }

  lemma {:induction false} ShortManyReadable(ctx: Context, num: nat, schema: Schema, ms: seq<Message>)
    requires forall k :: 0 <= k < |ms| ==> IsMessage(schema, ms[k]) && AcceptedSub(ctx, schema, ms[k])
    requires |ManyBytes(num, schema, ms)| <= MAX_SIZE
    ensures ReadableMany(ctx, schema, ms)
    decreases schema, |schema.fields| + 3, |ms|
  {
    hide Varint, Bytes, IsMessage, AcceptedSub, ReadableSub;
    if ms != [] {
      ShortSubReadable(ctx, schema, ms[0]);
      ShortManyReadable(ctx, num, schema, ms[1..]);
    }
  }

  lemma {:induction false} ShortFromReadable(ctx: Context, schema: Schema, m: Message, i: nat)
    requires Received(ctx, schema, m) && i <= |schema.fields| == |m.vals|
    requires |BytesFrom(schema, m, i)| <= MAX_SIZE
    ensures ReadableFrom(ctx, schema, m, i)
    decreases schema, |schema.fields| - i, 0
  {
    hide ValueBytes, UnknownsBytes, IsValue, Accepted, ReadableValue, ReadableUnknowns, AllShallow, WfUnknown;
    if i == |schema.fields| {
      ShortUnknownsReadable(ctx.depth, m.unknown);
    } else {
      ShortValueReadable(ctx, schema.fields[i].num, schema.fields[i].kind, m.vals[i]);
      ShortFromReadable(ctx, schema, m, i + 1);
    }
  }

  lemma {:induction false} ShortIsReadable(ctx: Context, schema: Schema, m: Message)
    requires Received(ctx, schema, m) && |Bytes(schema, m)| <= MAX_SIZE
    ensures Readable(ctx, schema, m)
    decreases schema, |schema.fields| + 1, 0
  {
    hide BytesFrom, ReadableFrom, Received;
    ReceivedCount(ctx, schema, m);
    ShortFromReadable(ctx, schema, m, 0);
  }

  /** Receiving a packet, sending it on and receiving it again loses nothing, whatever mix of
      encodings, repetitions and unknown fields it first arrived in. */
  lemma Reencode(valid: seq<Byte> -> bool, schema: Schema, b: seq<Byte>)
    requires WfSchema(schema) && Parse(valid, schema, b).Some?
    ensures var m := Parse(valid, schema, b).value;
            IsMessage(schema, m)
            && (|Bytes(schema, m)| <= MAX_SIZE ==> Parse(valid, schema, Bytes(schema, m)) == Some(m))
  {
    hide ParseBody, Bytes, Readable, IsMessage, AcceptedMessage, WfSchema;
    var ctx := Context(valid, DEFAULT_RECURSION_LIMIT);
    EmptyReceived(ctx, schema);
    BodyKeeps(ctx, schema, Empty(schema), b);
    var m := Parse(valid, schema, b).value;
    if |Bytes(schema, m)| <= MAX_SIZE {
      ShortIsReadable(ctx, schema, m);
      RoundTrip(valid, schema, m);
    }
  }
}
