/** Parsing undoes serializing, on top of any message: reading a serialized message merges it. */
module CodecLaws {
  import opened Bits
  import opened Wire
  import opened Messages
  import opened Parsing

  // ----- what the reader's limits admit -----

  ghost predicate ReadableUnknown(depth: nat, u: Unknown)
    decreases u
  {
    match u
    case UnknownBytes(_, s) => |s| <= MAX_SIZE
    case UnknownGroup(_, fields) => depth > 0 && ReadableUnknowns(depth - 1, fields)
    case _ => true
  }

  ghost predicate ReadableUnknowns(depth: nat, us: seq<Unknown>)
    decreases us
  {
    us != [] ==> ReadableUnknown(depth, us[0]) && ReadableUnknowns(depth, us[1..])
  }

  /** Strings are valid UTF-8, lengths are at most INT_MAX - 16, nesting is within the limit. */
  ghost predicate ReadableValue(ctx: Context, kind: Kind, v: Value)
    decreases kind
  {
    match kind
    case Text => v.Str? ==> v.s == [] || (|v.s| <= MAX_SIZE && ctx.valid(v.s))
    case Sub(schema) => v.One? && v.m.Some? ==> ReadableSub(ctx, schema, v.m.value)
    case RepeatedSub(schema) => v.Many? ==> ReadableMany(ctx, schema, v.ms)
    case RepeatedUInt64 => v.Nums? ==> |PackedBytes(v.ns)| <= MAX_SIZE
    case _ => true
  }

  ghost predicate ReadableMany(ctx: Context, schema: Schema, ms: seq<Message>)
    decreases schema, |schema.fields| + 3, |ms|
  {
    ms != [] ==> ReadableSub(ctx, schema, ms[0]) && ReadableMany(ctx, schema, ms[1..])
  }

  ghost predicate ReadableSub(ctx: Context, schema: Schema, m: Message)
    decreases schema, |schema.fields| + 2, 0
  {
    |Bytes(schema, m)| <= MAX_SIZE && ctx.depth > 0 && Readable(ctx.Deeper(), schema, m)
  }

  ghost predicate Readable(ctx: Context, schema: Schema, m: Message)
    decreases schema, |schema.fields| + 1, 0
  {
    |m.vals| == |schema.fields| ==> ReadableFrom(ctx, schema, m, 0)
  }

  ghost predicate ReadableFrom(ctx: Context, schema: Schema, m: Message, i: nat)
    requires i <= |schema.fields| == |m.vals|
    decreases schema, |schema.fields| - i, 0
  {
    if i == |schema.fields| then ReadableUnknowns(ctx.depth, m.unknown)
    else ReadableValue(ctx, schema.fields[i].kind, m.vals[i]) && ReadableFrom(ctx, schema, m, i + 1)
  }

  // ----- length-delimited bytes -----

  lemma BytesLaw(s: seq<Byte>, rest: seq<Byte>)
    ensures ReadBytes(Prefixed(s) + rest) == if |s| <= MAX_SIZE then Good(s, rest) else Bad
  {
    hide Varint, ReadSize;
    SizeRoundTrip(|s|, s + rest);
    assert Prefixed(s) + rest == Varint(|s|) + (s + rest);
    assert (s + rest)[..|s|] == s && (s + rest)[|s|..] == rest;
  }

  lemma {:induction false} PackedLaw(ns: seq<nat>)
    requires forall k :: 0 <= k < |ns| ==> ns[k] < TWO64
    ensures ParsePacked(PackedBytes(ns)) == Some(ns)
  {
    hide Varint, ReadUInt64;
    if ns != [] {
      UInt64RoundTrip(ns[0], PackedBytes(ns[1..]));
      PackedLaw(ns[1..]);
      assert ns == [ns[0]] + ns[1..];
    }
  }

  // ----- unknown fields -----

  lemma UnknownTag(u: Unknown)
    requires WfUnknown(u)
    ensures var tag := Tag(u.num, WireType(u));
            tag < TWO32 && tag / 8 == u.num && tag % 8 == WireType(u) && !EndsMessage(tag)
    ensures Tag(u.num, 4) < TWO32 && EndsMessage(Tag(u.num, 4)) && Tag(u.num, 4) / 8 == u.num
  {
  }

  lemma PlainLaw(u: Unknown, rest: seq<Byte>)
    requires WfUnknown(u) && !u.UnknownGroup?
    ensures ParsePlain(Tag(u.num, WireType(u)), UnknownPayload(u) + rest)
            == if ReadableUnknown(0, u) then Good(u, rest) else Bad
  {
    hide Varint, ReadUInt64, ReadBytes, Fixed, ReadFixed, Prefixed, Pow256;
    UnknownTag(u);
    WordWidths();
    match u
    case UnknownVarint(_, v) => UInt64RoundTrip(v, rest);
    case UnknownFixed64(_, v) => FixedRoundTrip(v, 8, rest);
    case UnknownBytes(_, s) => BytesLaw(s, rest);
    case UnknownFixed32(_, v) => FixedRoundTrip(v, 4, rest);
  }

  lemma {:induction false} UnknownLaw(ctx: Context, u: Unknown, rest: seq<Byte>)
    requires WfUnknown(u)
    ensures ParseUnknown(ctx, Tag(u.num, WireType(u)), UnknownPayload(u) + rest)
            == if ReadableUnknown(ctx.depth, u) then Good(u, rest) else Bad
    decreases u, 0
  {
    hide Varint, ReadUInt64, ReadBytes, Fixed, ReadFixed, Prefixed, ParseGroup, ParsePlain;
    UnknownTag(u);
    if u.UnknownGroup? {
      if ctx.depth > 0 {
        GroupLaw(ctx.Deeper(), u.fields, u.num, rest);
        assert UnknownPayload(u) + rest == UnknownsBytes(u.fields) + (Varint(Tag(u.num, 4)) + rest);
      }
    } else {
      PlainLaw(u, rest);
    }
  }

  lemma {:induction false} GroupLaw(ctx: Context, us: seq<Unknown>, num: nat, rest: seq<Byte>)
    requires WfUnknowns(us) && 1 <= num < 0x2000_0000
    ensures ParseGroup(ctx, UnknownsBytes(us) + (Varint(Tag(num, 4)) + rest))
            == if ReadableUnknowns(ctx.depth, us) then Good(Group(us, Tag(num, 4)), rest) else Bad
    decreases us, 1
  {
    hide Varint, ReadTag, ParseUnknown, UnknownPayload;
    var end := Varint(Tag(num, 4)) + rest;
    UnknownTag(UnknownVarint(num, 0));
    if us == [] {
      TagRoundTrip(Tag(num, 4), rest);
      assert UnknownsBytes(us) + end == end;
    } else {
      var u := us[0];
      UnknownTag(u);
      var more := UnknownsBytes(us[1..]) + end;
      assert UnknownsBytes(us) + end == Varint(Tag(u.num, WireType(u))) + (UnknownPayload(u) + more);
      TagRoundTrip(Tag(u.num, WireType(u)), UnknownPayload(u) + more);
      UnknownLaw(ctx, u, more);
      GroupLaw(ctx, us[1..], num, rest);
      assert us == [u] + us[1..];
    }
  }

  // ----- one field of a message -----

  /** Reading one field whose tag has been written, then the rest. */
  lemma StepLaw(ctx: Context, schema: Schema, m: Message, tag: nat, b: seq<Byte>)
    requires |m.vals| == |schema.fields| && tag < TWO32
    ensures ParseBody(ctx, schema, m, Varint(tag) + b)
            == (match ParseField(ctx, schema, m, tag, b)
                case Bad => None
                case Good(m1, rest) => ParseBody(ctx, schema, m1, rest))
  {
    hide Varint, ReadTag, ParseField;
    TagRoundTrip(tag, b);
  }

  lemma {:induction false} UnknownsLaw(ctx: Context, schema: Schema, m: Message, us: seq<Unknown>, rest: seq<Byte>)
    requires |m.vals| == |schema.fields| && WfUnknowns(us)
    requires forall k :: 0 <= k < |us| ==> Foreign(schema, us[k])
    ensures ParseBody(ctx, schema, m, UnknownsBytes(us) + rest)
            == if ReadableUnknowns(ctx.depth, us)
               then ParseBody(ctx, schema, m.(unknown := m.unknown + us), rest) else None
    decreases us
  {
    hide Varint, ParseBody, ParseUnknown, UnknownPayload, KnownField;
    if us == [] {
      assert UnknownsBytes(us) + rest == rest;
      assert m.(unknown := m.unknown + us) == m;
    } else {
      var u := us[0];
      var more := UnknownsBytes(us[1..]) + rest;
      assert UnknownsBytes(us) + rest == Varint(Tag(u.num, WireType(u))) + (UnknownPayload(u) + more);
      UnknownTag(u);
      StepLaw(ctx, schema, m, Tag(u.num, WireType(u)), UnknownPayload(u) + more);
      UnknownLaw(ctx, u, more);
      assert Foreign(schema, u);
      UnknownsLaw(ctx, schema, m.(unknown := m.unknown + [u]), us[1..], rest);
      assert m.unknown + us == m.unknown + [u] + us[1..];
    }
  }

  lemma FieldAtIs(schema: Schema, i: nat, j: nat)
    requires WfSchema(schema) && j <= i < |schema.fields|
    ensures FieldAt(schema, schema.fields[i].num, j) == i
    decreases i - j
  {
  }

  lemma KnownTag(schema: Schema, i: nat, wireType: nat)
    requires WfSchema(schema) && i < |schema.fields| && wireType < 8 && Accepts(schema.fields[i].kind, wireType)
    ensures var tag := Tag(schema.fields[i].num, wireType);
            KnownField(schema, tag) == i && tag % 8 == wireType && tag < TWO32
  {
    hide WfKind;
    FieldAtIs(schema, i, 0);
    assert Tag(schema.fields[i].num, wireType) / 8 == schema.fields[i].num;
  }

  ghost function With(m: Message, i: nat, v: Value): (r: Message)
    requires i < |m.vals|
    ensures |r.vals| == |m.vals|
  {
    m.(vals := m.vals[i := v])
  }

  /** Reading one known field replaces its value. */
  lemma KnownStep(ctx: Context, schema: Schema, m: Message, i: nat, wireType: nat, b: seq<Byte>)
    requires WfSchema(schema) && i < |schema.fields| == |m.vals|
    requires wireType < 8 && Accepts(schema.fields[i].kind, wireType)
    ensures ParseBody(ctx, schema, m, Varint(Tag(schema.fields[i].num, wireType)) + b)
            == (match ParseValue(ctx, schema.fields[i].kind, m.vals[i], wireType, b)
                case Bad => None
                case Good(v, rest) => ParseBody(ctx, schema, With(m, i, v), rest))
  {
    hide Varint, ParseBody, ParseValue, KnownField, WfSchema;
    KnownTag(schema, i, wireType);
    StepLaw(ctx, schema, m, Tag(schema.fields[i].num, wireType), b);
  }

  // ----- the value of a field -----

  lemma SignExtends(n: nat)
    requires n < TWO32
    ensures SignExtended(n) < TWO64 && SignExtended(n) % TWO32 == n
  {
    if n >= 0x8000_0000 {
      assert SignExtended(n) == n + 0xFFFF_FFFF * TWO32;
    }
  }

  /** The payload of a singular number, text or packed field. */
  ghost function FlatPayload(kind: Kind, v: Value): seq<Byte>
    requires IsValue(kind, v) && !kind.Sub? && !kind.RepeatedSub?
  {
    match kind
    case Enum => Varint(SignExtended(v.n))
    case Float => Fixed(v.n, 4)
    case Text => Prefixed(v.s)
    case RepeatedUInt64 => Prefixed(PackedBytes(v.ns))
    case UInt64 | Bool => Varint(v.n)
  }

  function FlatWireType(kind: Kind): (r: nat)
    requires !kind.Sub? && !kind.RepeatedSub?
    ensures r < 8 && Accepts(kind, r)
  {
    match kind
    case Float => 5
    case Text => 2
    case RepeatedUInt64 => 2
    case UInt64 | Bool | Enum => 0
  }

  lemma FlatBytes(num: nat, kind: Kind, v: Value)
    requires IsValue(kind, v) && !kind.Sub? && !kind.RepeatedSub?
    ensures ValueBytes(num, kind, v)
            == if v == Default(kind) then [] else Varint(Tag(num, FlatWireType(kind))) + FlatPayload(kind, v)
  {
    hide Varint, Fixed, PackedBytes;
  }

  /** What a non-default value is parsed back to, on top of the value `to`. */
  lemma FlatLaw(ctx: Context, kind: Kind, to: Value, v: Value, rest: seq<Byte>)
    requires IsValue(kind, v) && IsValue(kind, to) && !kind.Sub? && !kind.RepeatedSub? && v != Default(kind)
    ensures ParseValue(ctx, kind, to, FlatWireType(kind), FlatPayload(kind, v) + rest)
            == if ReadableValue(ctx, kind, v) then Good(MergedValue(kind, to, v), rest) else Bad
  {
    hide Varint, ReadUInt64, ReadFixed, Fixed, ReadBytes, Prefixed, PackedBytes, ParsePacked, Pow256;
    WordWidths();
    match kind
    case Text => BytesLaw(v.s, rest);
    case RepeatedUInt64 =>
      BytesLaw(PackedBytes(v.ns), rest);
      PackedLaw(v.ns);
    case Enum =>
      SignExtends(v.n);
      UInt64RoundTrip(SignExtended(v.n), rest);
    case Float => FixedRoundTrip(v.n, 4, rest);
    case UInt64 | Bool => UInt64RoundTrip(v.n, rest);
  }

  lemma FlatFieldLaw(ctx: Context, schema: Schema, m: Message, i: nat, v: Value, rest: seq<Byte>)
    requires WfSchema(schema) && i < |schema.fields| == |m.vals|
    requires var kind := schema.fields[i].kind;
             IsValue(kind, v) && IsValue(kind, m.vals[i]) && !kind.Sub? && !kind.RepeatedSub?
    ensures var f := schema.fields[i];
            ParseBody(ctx, schema, m, ValueBytes(f.num, f.kind, v) + rest)
            == if ReadableValue(ctx, f.kind, v)
               then ParseBody(ctx, schema, With(m, i, MergedValue(f.kind, m.vals[i], v)), rest) else None
  {
    hide Varint, ParseBody, ParseValue, ValueBytes, FlatPayload, WfSchema;
    var f := schema.fields[i];
    FlatBytes(f.num, f.kind, v);
    if v == Default(f.kind) {
      assert ValueBytes(f.num, f.kind, v) + rest == rest;
      DefaultMerges(ctx, f.kind, m.vals[i]);
      assert m.vals[i := m.vals[i]] == m.vals;
    } else {
      assert ValueBytes(f.num, f.kind, v) + rest
             == Varint(Tag(f.num, FlatWireType(f.kind))) + (FlatPayload(f.kind, v) + rest);
      KnownStep(ctx, schema, m, i, FlatWireType(f.kind), FlatPayload(f.kind, v) + rest);
      FlatLaw(ctx, f.kind, m.vals[i], v, rest);
    }
  }

  /** A default value is always readable and merges to nothing new. */
  lemma DefaultMerges(ctx: Context, kind: Kind, to: Value)
    requires IsValue(kind, to) && !kind.RepeatedSub?
    ensures MergedValue(kind, to, Default(kind)) == to && ReadableValue(ctx, kind, Default(kind))
  {
    if kind.RepeatedUInt64? {
      assert to.ns + [] == to.ns;
    }
  }

  // ----- merging keeps messages well formed -----

  ghost predicate Typed(schema: Schema, m: Message) {
    |m.vals| == |schema.fields| && forall i :: 0 <= i < |m.vals| ==> IsValue(schema.fields[i].kind, m.vals[i])
  }

  /** Merging works field by field. */
  lemma {:induction false} MergedFromAt(schema: Schema, to: Message, from: Message, i: nat, j: nat)
    requires i <= |schema.fields| == |to.vals| == |from.vals| && j < |schema.fields|
    ensures MergedFrom(schema, to, from, i).vals[j]
            == if j < i then to.vals[j] else MergedValue(schema.fields[j].kind, to.vals[j], from.vals[j])
    ensures MergedFrom(schema, to, from, i).unknown == to.unknown + from.unknown
    decreases |schema.fields| - i
  {
    hide MergedValue;
    if i < |schema.fields| {
      var v := MergedValue(schema.fields[i].kind, to.vals[i], from.vals[i]);
      MergedFromAt(schema, to.(vals := to.vals[i := v]), from, i + 1, j);
    }
  }

  lemma MergedAt(schema: Schema, to: Message, from: Message, j: nat)
    requires |schema.fields| == |to.vals| == |from.vals| && j < |schema.fields|
    ensures |Merged(schema, to, from).vals| == |schema.fields|
    ensures Merged(schema, to, from).vals[j] == MergedValue(schema.fields[j].kind, to.vals[j], from.vals[j])
    ensures Merged(schema, to, from).unknown == to.unknown + from.unknown
  {
    hide MergedValue, MergedFrom;
    MergedFromAt(schema, to, from, 0, j);
  }

  lemma MergedUnknown(schema: Schema, to: Message, from: Message)
    requires |schema.fields| == |to.vals| == |from.vals|
    ensures Merged(schema, to, from).unknown == to.unknown + from.unknown
    ensures |Merged(schema, to, from).vals| == |schema.fields|
  {
    hide MergedValue;
    if |schema.fields| > 0 {
      MergedAt(schema, to, from, 0);
    }
  }

  lemma EmptyIsMessage(schema: Schema)
    ensures IsMessage(schema, Empty(schema))
  {
  }

  lemma HeldIsMessage(schema: Schema, v: Value)
    requires IsValue(Sub(schema), v)
    ensures IsMessage(schema, Held(schema, v))
    ensures v.m.Some? ==> Held(schema, v) == v.m.value
  {
    EmptyIsMessage(schema);
  }

  lemma {:induction false} MergedIsMessage(schema: Schema, to: Message, from: Message)
    requires IsMessage(schema, to) && IsMessage(schema, from)
    ensures IsMessage(schema, Merged(schema, to, from))
    decreases schema
  {
    hide MergedValue, Merged, IsValue, Foreign, WfUnknown;
    var r := Merged(schema, to, from);
    MergedUnknown(schema, to, from);
    forall j | 0 <= j < |schema.fields| ensures IsValue(schema.fields[j].kind, r.vals[j]) {
      MergedAt(schema, to, from, j);
      MergedValueIsValue(schema.fields[j].kind, to.vals[j], from.vals[j]);
    }
  }

  lemma {:induction false} MergedValueIsValue(kind: Kind, to: Value, from: Value)
    requires IsValue(kind, to) && IsValue(kind, from)
    ensures IsValue(kind, MergedValue(kind, to, from))
    decreases kind
  {
    hide Merged, IsMessage, Held;
    if kind.Sub? && from.m.Some? {
      HeldIsMessage(kind.schema, to);
      MergedIsMessage(kind.schema, Held(kind.schema, to), from.m.value);
    }
  }

  /** Merging into a cleared message copies: this is CopyFrom. */
  lemma {:induction false} MergeIntoEmpty(schema: Schema, m: Message)
    requires IsMessage(schema, m)
    ensures Merged(schema, Empty(schema), m) == m
    decreases schema
  {
    hide MergedValue, Merged, IsValue;
    var r := Merged(schema, Empty(schema), m);
    MergedUnknown(schema, Empty(schema), m);
    forall j | 0 <= j < |schema.fields| ensures r.vals[j] == m.vals[j] {
      MergedAt(schema, Empty(schema), m, j);
      MergeIntoDefault(schema.fields[j].kind, m.vals[j]);
    }
    assert r.vals == m.vals;
  }

  lemma {:induction false} MergeIntoDefault(kind: Kind, v: Value)
    requires IsValue(kind, v)
    ensures MergedValue(kind, Default(kind), v) == v
    decreases kind
  {
    hide Merged, IsMessage;
    if kind.Sub? && v.m.Some? {
      MergeIntoEmpty(kind.schema, v.m.value);
    }
  }

  /** Merging is associative: packets may be merged in any grouping. */
  lemma {:induction false} MergeAssociative(schema: Schema, a: Message, b: Message, c: Message)
    requires IsMessage(schema, a) && IsMessage(schema, b) && IsMessage(schema, c)
    ensures Merged(schema, Merged(schema, a, b), c) == Merged(schema, a, Merged(schema, b, c))
    decreases schema
  {
    hide MergedValue, Merged, IsValue, Foreign, WfUnknown;
    var ab, bc := Merged(schema, a, b), Merged(schema, b, c);
    MergedUnknown(schema, a, b);
    MergedUnknown(schema, b, c);
    var l, r := Merged(schema, ab, c), Merged(schema, a, bc);
    MergedUnknown(schema, ab, c);
    MergedUnknown(schema, a, bc);
    forall j | 0 <= j < |schema.fields| ensures l.vals[j] == r.vals[j] {
      MergedAt(schema, a, b, j);
      MergedAt(schema, b, c, j);
      MergedAt(schema, ab, c, j);
      MergedAt(schema, a, bc, j);
      MergeValueAssociative(schema.fields[j].kind, a.vals[j], b.vals[j], c.vals[j]);
    }
    assert l.vals == r.vals;
    assert a.unknown + b.unknown + c.unknown == a.unknown + (b.unknown + c.unknown);
  }

  lemma {:induction false} MergeValueAssociative(kind: Kind, a: Value, b: Value, c: Value)
    requires IsValue(kind, a) && IsValue(kind, b) && IsValue(kind, c)
    ensures MergedValue(kind, MergedValue(kind, a, b), c) == MergedValue(kind, a, MergedValue(kind, b, c))
    decreases kind
  {
    hide Merged, IsMessage, Held;
    MergedValueIsValue(kind, a, b);
    MergedValueIsValue(kind, b, c);
    match kind
    case Sub(schema) =>
      HeldIsMessage(schema, a);
      HeldIsMessage(schema, b);
      HeldIsMessage(schema, MergedValue(kind, a, b));
      if b.m.Some? && c.m.Some? {
        MergeAssociative(schema, Held(schema, a), b.m.value, c.m.value);
      } else if c.m.Some? {
        SameHeld(schema, a, b, c.m.value);
      }
    case RepeatedSub(_) =>
      assert a.ms + b.ms + c.ms == a.ms + (b.ms + c.ms);
    case RepeatedUInt64 =>
      assert a.ns + b.ns + c.ns == a.ns + (b.ns + c.ns);
    case _ =>
  }

  /** A submessage arriving where none was: it is merged into what is held, either way. */
  lemma SameHeld(schema: Schema, a: Value, b: Value, c: Message)
    requires IsValue(Sub(schema), a) && b == One(None) && IsMessage(schema, c)
    ensures Merged(schema, Held(schema, a), Merged(schema, Held(schema, b), c)) == Merged(schema, Held(schema, a), c)
  {
    hide Merged, IsMessage;
    MergeIntoEmpty(schema, c);
  }

  /** The last one wins: a singular number or text that is read does not depend on the one read
      before, and merging prefers the newer one unless it is the default. */
  lemma LastOneWins(ctx: Context, kind: Kind, v: Value, w: Value, wireType: nat, b: seq<Byte>)
    requires !kind.Sub? && !kind.RepeatedSub? && !kind.RepeatedUInt64?
    ensures ParseValue(ctx, kind, v, wireType, b) == ParseValue(ctx, kind, w, wireType, b)
    ensures MergedValue(kind, v, w) == if w == (if kind.Text? then Str([]) else Num(0)) then v else w
  {
  }

  // ----- the main law -----

  lemma {:induction false} SubLaw(ctx: Context, schema: Schema, m0: Message, m: Message, rest: seq<Byte>)
    requires WfSchema(schema) && IsMessage(schema, m0) && IsMessage(schema, m)
    ensures ReadMessage(ctx, schema, m0, Prefixed(Bytes(schema, m)) + rest)
            == if ReadableSub(ctx, schema, m) then Good(Merged(schema, m0, m), rest) else Bad
    decreases schema, |schema.fields| + 2, 0
  {
    hide ReadBytes, Prefixed, Bytes, ParseBody, Merged, Readable, WfSchema, IsMessage;
    BytesLaw(Bytes(schema, m), rest);
    ReadableSubIs(ctx, schema, m);
    if ctx.depth > 0 && |Bytes(schema, m)| <= MAX_SIZE {
      MergeLaw(ctx.Deeper(), schema, m0, m, []);
      assert Bytes(schema, m) + [] == Bytes(schema, m);
      MergedCount(schema, m0, m);
      EndOfBody(ctx.Deeper(), schema, Merged(schema, m0, m));
    }
  }

  lemma ReadableSubIs(ctx: Context, schema: Schema, m: Message)
    ensures ReadableSub(ctx, schema, m)
            <==> |Bytes(schema, m)| <= MAX_SIZE && ctx.depth > 0 && Readable(ctx.Deeper(), schema, m)
  {
  }

  lemma EndOfBody(ctx: Context, schema: Schema, m: Message)
    requires |m.vals| == |schema.fields|
    ensures ParseBody(ctx, schema, m, []) == Some(m)
  {
  }

  lemma {:induction false} ManyLaw(ctx: Context, schema: Schema, m: Message, i: nat, ms: seq<Message>, rest: seq<Byte>)
    requires WfSchema(schema) && i < |schema.fields| == |m.vals| && schema.fields[i].kind.RepeatedSub?
              && m.vals[i].Many?
    requires WfSchema(schema.fields[i].kind.schema)
    requires forall k :: 0 <= k < |ms| ==> IsMessage(schema.fields[i].kind.schema, ms[k])
    ensures var f := schema.fields[i];
            ParseBody(ctx, schema, m, ManyBytes(f.num, f.kind.schema, ms) + rest)
            == if ReadableMany(ctx, f.kind.schema, ms)
               then ParseBody(ctx, schema, With(m, i, Many(m.vals[i].ms + ms)), rest) else None
    decreases schema.fields[i].kind.schema, |schema.fields[i].kind.schema.fields| + 3, |ms|
  {
    hide Varint, Prefixed, Bytes, ParseBody, Merged, WfSchema, IsMessage, ReadMessage, ReadableSub;
    var f := schema.fields[i];
    var sub := f.kind.schema;
    if ms == [] {
      assert ManyBytes(f.num, sub, ms) + rest == rest;
      assert m.vals[i].ms + ms == m.vals[i].ms;
      assert m.vals[i := m.vals[i]] == m.vals;
    } else {
      var more := ManyBytes(f.num, sub, ms[1..]) + rest;
      assert ManyBytes(f.num, sub, ms) + rest
             == Varint(Tag(f.num, 2)) + (Prefixed(Bytes(sub, ms[0])) + more);
      KnownStep(ctx, schema, m, i, 2, Prefixed(Bytes(sub, ms[0])) + more);
      EmptyIsMessage(sub);
      SubLaw(ctx, sub, Empty(sub), ms[0], more);
      MergeIntoEmpty(sub, ms[0]);
      var m1 := With(m, i, Many(m.vals[i].ms + [ms[0]]));
      ManyLaw(ctx, schema, m1, i, ms[1..], rest);
      assert m.vals[i].ms + [ms[0]] + ms[1..] == m.vals[i].ms + ms;
      assert m1.vals[i := Many(m.vals[i].ms + ms)] == m.vals[i := Many(m.vals[i].ms + ms)];
    }
  }

  lemma {:induction false} FieldLaw(ctx: Context, schema: Schema, m: Message, i: nat, v: Value, rest: seq<Byte>)
    requires WfSchema(schema) && i < |schema.fields| == |m.vals|
    requires IsValue(schema.fields[i].kind, v) && IsValue(schema.fields[i].kind, m.vals[i])
    ensures var f := schema.fields[i];
            ParseBody(ctx, schema, m, ValueBytes(f.num, f.kind, v) + rest)
            == if ReadableValue(ctx, f.kind, v)
               then ParseBody(ctx, schema, With(m, i, MergedValue(f.kind, m.vals[i], v)), rest) else None
    decreases schema.fields[i].kind
  {
    hide Varint, Prefixed, Bytes, ParseBody, Merged, IsMessage, ReadMessage, ReadableSub, ManyBytes, ReadableMany;
    var f := schema.fields[i];
    assert WfKind(f.kind);
    match f.kind
    case Sub(sub) =>
      if v == One(None) {
        assert ValueBytes(f.num, f.kind, v) + rest == rest;
        assert m.vals[i := m.vals[i]] == m.vals;
      } else {
        assert ValueBytes(f.num, f.kind, v) + rest
               == Varint(Tag(f.num, 2)) + (Prefixed(Bytes(sub, v.m.value)) + rest);
        KnownStep(ctx, schema, m, i, 2, Prefixed(Bytes(sub, v.m.value)) + rest);
        HeldIsMessage(sub, m.vals[i]);
        SubLaw(ctx, sub, Held(sub, m.vals[i]), v.m.value, rest);
      }
    case RepeatedSub(sub) => ManyLaw(ctx, schema, m, i, v.ms, rest);
    case _ => FlatFieldLaw(ctx, schema, m, i, v, rest);
  }

  lemma {:induction false} FromLaw(ctx: Context, schema: Schema, m0: Message, m: Message, i: nat, rest: seq<Byte>)
    requires WfSchema(schema) && Typed(schema, m0) && IsMessage(schema, m) && i <= |schema.fields|
    ensures ParseBody(ctx, schema, m0, BytesFrom(schema, m, i) + rest)
            == if ReadableFrom(ctx, schema, m, i)
               then ParseBody(ctx, schema, MergedFrom(schema, m0, m, i), rest) else None
    decreases schema, |schema.fields| - i, 0
  {
    hide ParseBody, ValueBytes, MergedValue, ReadableValue, WfSchema, IsValue, WfUnknown, Foreign;
    if i == |schema.fields| {
      UnknownsLaw(ctx, schema, m0, m.unknown, rest);
    } else {
      var f := schema.fields[i];
      var v := MergedValue(f.kind, m0.vals[i], m.vals[i]);
      var more := BytesFrom(schema, m, i + 1) + rest;
      assert BytesFrom(schema, m, i) + rest == ValueBytes(f.num, f.kind, m.vals[i]) + more;
      FieldLaw(ctx, schema, m0, i, m.vals[i], more);
      MergedValueIsValue(f.kind, m0.vals[i], m.vals[i]);
      FromLaw(ctx, schema, With(m0, i, v), m, i + 1, rest);
    }
  }

  /** Reading a serialized message on top of m0 merges it into m0 and goes on with what follows;
      it fails exactly when the message is not readable. */
  lemma {:induction false} MergeLaw(ctx: Context, schema: Schema, m0: Message, m: Message, rest: seq<Byte>)
    requires WfSchema(schema) && IsMessage(schema, m0) && IsMessage(schema, m)
    ensures ParseBody(ctx, schema, m0, Bytes(schema, m) + rest)
            == if Readable(ctx, schema, m)
               then ParseBody(ctx, schema, Merged(schema, m0, m), rest) else None
    decreases schema, |schema.fields| + 1, 0
  {
    hide ParseBody, BytesFrom, MergedFrom, ReadableFrom, WfSchema, IsValue, WfUnknown, Foreign;
    FromLaw(ctx, schema, m0, m, 0, rest);
  }

  // ----- what it means for packets -----

  /** Round trip: parsing a serialized packet gives the packet back, exactly when it is readable. */
  lemma RoundTrip(valid: seq<Byte> -> bool, schema: Schema, m: Message)
    requires WfSchema(schema) && IsMessage(schema, m)
    ensures Parse(valid, schema, Bytes(schema, m))
            == if Readable(Context(valid, DEFAULT_RECURSION_LIMIT), schema, m) then Some(m) else None
  {
    hide ParseBody, Merged, Bytes, Readable, WfSchema, IsMessage;
    var ctx := Context(valid, DEFAULT_RECURSION_LIMIT);
    EmptyIsMessage(schema);
    MergeLaw(ctx, schema, Empty(schema), m, []);
    assert Bytes(schema, m) + [] == Bytes(schema, m);
    MergeIntoEmpty(schema, m);
    MergedCount(schema, m, m);
    EndOfBody(ctx, schema, m);
  }

  /** Concatenating two serialized packets and parsing is merging the packets. */
  lemma ConcatenationMerges(valid: seq<Byte> -> bool, schema: Schema, a: Message, b: Message)
    requires WfSchema(schema) && IsMessage(schema, a) && IsMessage(schema, b)
    requires var ctx := Context(valid, DEFAULT_RECURSION_LIMIT); Readable(ctx, schema, a) && Readable(ctx, schema, b)
    ensures Parse(valid, schema, Bytes(schema, a) + Bytes(schema, b)) == Some(Merged(schema, a, b))
  {
    hide ParseBody, Merged, Bytes, Readable, WfSchema, IsMessage;
    var ctx := Context(valid, DEFAULT_RECURSION_LIMIT);
    EmptyIsMessage(schema);
    MergeLaw(ctx, schema, Empty(schema), a, Bytes(schema, b));
    MergeIntoEmpty(schema, a);
    MergeLaw(ctx, schema, a, b, []);
    assert Bytes(schema, b) + [] == Bytes(schema, b);
    MergedIsMessage(schema, a, b);
    MergedCount(schema, a, b);
    EndOfBody(ctx, schema, Merged(schema, a, b));
  }

  lemma MergedCount(schema: Schema, a: Message, b: Message)
    requires IsMessage(schema, a) && IsMessage(schema, b)
    ensures |a.vals| == |schema.fields| && |Merged(schema, a, b).vals| == |schema.fields|
  {
    MergedUnknown(schema, a, b);
  }
}
