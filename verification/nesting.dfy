/** What a packet must be like to be accepted, said of its value alone: its texts are valid and it
    nests no deeper than the parser follows. */
module Nesting {
  import opened Wire
  import opened Messages
  import opened Parsing
  import opened CodecLaws

  function Max(a: nat, b: nat): nat { if a < b then b else a }

  // ----- how deep a value nests -----

  function UnknownNesting(u: Unknown): nat
    decreases u
  {
    if u.UnknownGroup? then 1 + UnknownsNesting(u.fields) else 0
  }

  function UnknownsNesting(us: seq<Unknown>): nat
    decreases us
  {
    if us == [] then 0 else Max(UnknownNesting(us[0]), UnknownsNesting(us[1..]))
  }

  function ValueNesting(v: Value): nat
    decreases v
  {
    match v
    case One(o) => if o.Some? then 1 + MessageNesting(o.value) else 0
    case Many(ms) => ManyNesting(ms)
    case Num(_) | Str(_) | Nums(_) => 0
  }

  function ManyNesting(ms: seq<Message>): nat
    decreases ms
  {
    if ms == [] then 0 else Max(1 + MessageNesting(ms[0]), ManyNesting(ms[1..]))
  }

  function ValuesNesting(vs: seq<Value>): nat
    decreases vs
  {
    if vs == [] then 0 else Max(ValueNesting(vs[0]), ValuesNesting(vs[1..]))
  }

  function MessageNesting(m: Message): nat
    decreases m
  {
    Max(ValuesNesting(m.vals), UnknownsNesting(m.unknown))
  }

  // ----- the texts in a value -----

  predicate ValueTexts(valid: seq<Byte> -> bool, v: Value)
    decreases v
  {
    match v
    case Str(s) => s == [] || valid(s)
    case One(o) => o.Some? ==> MessageTexts(valid, o.value)
    case Many(ms) => ManyTexts(valid, ms)
    case Num(_) | Nums(_) => true
  }

  predicate ManyTexts(valid: seq<Byte> -> bool, ms: seq<Message>)
    decreases ms
  {
    ms != [] ==> MessageTexts(valid, ms[0]) && ManyTexts(valid, ms[1..])
  }

  predicate ValuesTexts(valid: seq<Byte> -> bool, vs: seq<Value>)
    decreases vs
  {
    vs != [] ==> ValueTexts(valid, vs[0]) && ValuesTexts(valid, vs[1..])
  }

  predicate MessageTexts(valid: seq<Byte> -> bool, m: Message)
    decreases m
  {
    ValuesTexts(valid, m.vals)
  }

  // ----- exactly such messages can be read, if short enough -----

  lemma {:induction false} UnknownReadable(depth: nat, u: Unknown)
    requires |UnknownPayload(u)| <= MAX_SIZE
    ensures ReadableUnknown(depth, u) <==> UnknownNesting(u) <= depth
    decreases u, 0
  {
    hide Varint;
    if u.UnknownGroup? && depth > 0 {
      UnknownsReadable(depth - 1, u.fields);
    }
  }

  lemma {:induction false} UnknownsReadable(depth: nat, us: seq<Unknown>)
    requires |UnknownsBytes(us)| <= MAX_SIZE
    ensures ReadableUnknowns(depth, us) <==> UnknownsNesting(us) <= depth
    decreases us, 1
  {
    hide UnknownPayload, Varint, ReadableUnknown, UnknownNesting;
    if us != [] {
      UnknownReadable(depth, us[0]);
      UnknownsReadable(depth, us[1..]);
    }
  }

  /** The value is within what the context admits. */
  ghost predicate Fits(ctx: Context, v: Value) {
    ValueTexts(ctx.valid, v) && ValueNesting(v) <= ctx.depth
  }

  ghost predicate FitsMany(ctx: Context, ms: seq<Message>) {
    ManyTexts(ctx.valid, ms) && ManyNesting(ms) <= ctx.depth
  }

  ghost predicate FitsAll(ctx: Context, vs: seq<Value>) {
    ValuesTexts(ctx.valid, vs) && ValuesNesting(vs) <= ctx.depth
  }

  ghost predicate FitsMessage(ctx: Context, m: Message) {
    MessageTexts(ctx.valid, m) && MessageNesting(m) <= ctx.depth
  }

  lemma {:induction false} ValueReadable(ctx: Context, num: nat, kind: Kind, v: Value)
    requires IsValue(kind, v) && |ValueBytes(num, kind, v)| <= MAX_SIZE
    ensures ReadableValue(ctx, kind, v) <==> Fits(ctx, v)
    decreases kind
  {
    hide Varint, Bytes, IsMessage, ReadableSub, ReadableMany, PackedBytes, MessageTexts, MessageNesting, ManyBytes;
    match kind
    case Sub(schema) =>
      if v.m.Some? {
        SubReadable(ctx, schema, v.m.value);
      }
    case RepeatedSub(schema) => ManyReadable(ctx, num, schema, v.ms);
    case _ =>
  }

  lemma {:induction false} SubReadable(ctx: Context, schema: Schema, m: Message)
    requires IsMessage(schema, m) && |Bytes(schema, m)| <= MAX_SIZE
    ensures ReadableSub(ctx, schema, m) <==> MessageTexts(ctx.valid, m) && 1 + MessageNesting(m) <= ctx.depth
    decreases schema, |schema.fields| + 2, 0
  {
    hide Bytes, IsMessage, MessageTexts, MessageNesting, Readable;
    ReadableSubIs(ctx, schema, m);
    if ctx.depth > 0 {
      MessageReadable(ctx.Deeper(), schema, m);
    }
  }

  lemma {:induction false} ManyReadable(ctx: Context, num: nat, schema: Schema, ms: seq<Message>)
    requires forall k :: 0 <= k < |ms| ==> IsMessage(schema, ms[k])
    requires |ManyBytes(num, schema, ms)| <= MAX_SIZE
    ensures ReadableMany(ctx, schema, ms) <==> FitsMany(ctx, ms)
    decreases schema, |schema.fields| + 3, |ms|
  {
    hide Varint, Bytes, IsMessage, ReadableSub, MessageTexts, MessageNesting;
    if ms != [] {
      SubReadable(ctx, schema, ms[0]);
      ManyReadable(ctx, num, schema, ms[1..]);
    }
  }

  lemma {:induction false} FromReadable(ctx: Context, schema: Schema, m: Message, i: nat)
    requires IsMessage(schema, m) && i <= |schema.fields| == |m.vals|
    requires |BytesFrom(schema, m, i)| <= MAX_SIZE
    ensures ReadableFrom(ctx, schema, m, i)
            <==> FitsAll(ctx, m.vals[i..]) && UnknownsNesting(m.unknown) <= ctx.depth
    decreases schema, |schema.fields| - i, 0
  {
    hide ValueBytes, UnknownsBytes, ReadableValue, ReadableUnknowns, UnknownsNesting, ValueTexts, ValueNesting,
         WfUnknown, Foreign;
    if i == |schema.fields| {
      UnknownsReadable(ctx.depth, m.unknown);
    } else {
      assert IsValue(schema.fields[i].kind, m.vals[i]);
      ValueReadable(ctx, schema.fields[i].num, schema.fields[i].kind, m.vals[i]);
      FromReadable(ctx, schema, m, i + 1);
      assert m.vals[i..][1..] == m.vals[i + 1..];
    }
  }

  lemma {:induction false} MessageReadable(ctx: Context, schema: Schema, m: Message)
    requires IsMessage(schema, m) && |Bytes(schema, m)| <= MAX_SIZE
    ensures Readable(ctx, schema, m) <==> FitsMessage(ctx, m)
    decreases schema, |schema.fields| + 1, 0
  {
    hide BytesFrom, ReadableFrom, ValuesTexts, ValuesNesting, UnknownsNesting, IsValue, WfUnknown, Foreign;
    FromReadable(ctx, schema, m, 0);
    assert m.vals[0..] == m.vals;
  }

  /** What is written is read back if and only if all texts are valid and nothing nests deeper
      than 100; otherwise it is refused. */
  lemma AcceptedExactly(valid: seq<Byte> -> bool, schema: Schema, m: Message)
    requires WfSchema(schema) && IsMessage(schema, m) && |Bytes(schema, m)| <= 0x7FFF_FFEF
    ensures Parse(valid, schema, Bytes(schema, m))
            == if MessageTexts(valid, m) && MessageNesting(m) <= 100 then Some(m) else None
  {
    hide Parse, Bytes, Readable, WfSchema, IsMessage, MessageTexts, MessageNesting;
    RoundTrip(valid, schema, m);
    MessageReadable(Context(valid, DEFAULT_RECURSION_LIMIT), schema, m);
  }

  // ----- how deep a schema nests -----

  function KindHeight(kind: Kind): nat
    decreases kind
  {
    if kind.Sub? || kind.RepeatedSub? then 1 + Height(kind.schema) else 0
  }

  function FieldHeight(f: Field): nat
    decreases f
  {
    KindHeight(f.kind)
  }

  function FieldsHeight(fields: seq<Field>): nat
    decreases fields
  {
    if fields == [] then 0 else Max(FieldHeight(fields[0]), FieldsHeight(fields[1..]))
  }

  function Height(schema: Schema): nat
    decreases schema
  {
    FieldsHeight(schema.fields)
  }

  /** How deep the unknown groups nest, wherever in the message they are. */
  function ValueGroups(v: Value): nat
    decreases v
  {
    match v
    case One(o) => if o.Some? then Groups(o.value) else 0
    case Many(ms) => ManyGroups(ms)
    case Num(_) | Str(_) | Nums(_) => 0
  }

  function ManyGroups(ms: seq<Message>): nat
    decreases ms
  {
    if ms == [] then 0 else Max(Groups(ms[0]), ManyGroups(ms[1..]))
  }

  function ValuesGroups(vs: seq<Value>): nat
    decreases vs
  {
    if vs == [] then 0 else Max(ValueGroups(vs[0]), ValuesGroups(vs[1..]))
  }

  function Groups(m: Message): nat
    decreases m
  {
    Max(ValuesGroups(m.vals), UnknownsNesting(m.unknown))
  }

  lemma {:induction false} KindIsHigh(fields: seq<Field>, i: nat)
    requires i < |fields|
    ensures KindHeight(fields[i].kind) <= FieldsHeight(fields)
  {
    hide KindHeight;
    if i > 0 {
      KindIsHigh(fields[1..], i - 1);
    }
  }

  lemma {:induction false} ValueHeight(kind: Kind, v: Value)
    requires IsValue(kind, v)
    ensures ValueNesting(v) <= KindHeight(kind) + ValueGroups(v)
    decreases v
  {
    hide IsMessage, MessageNesting, Height, Groups;
    match kind
    case Sub(schema) =>
      if v.m.Some? {
        MessageHeight(schema, v.m.value);
      }
    case RepeatedSub(schema) => ManyHeight(schema, v.ms);
    case _ =>
  }

  lemma {:induction false} ManyHeight(schema: Schema, ms: seq<Message>)
    requires forall k :: 0 <= k < |ms| ==> IsMessage(schema, ms[k])
    ensures ManyNesting(ms) <= 1 + Height(schema) + ManyGroups(ms)
    decreases ms
  {
    hide IsMessage, MessageNesting, Height, Groups;
    if ms != [] {
      MessageHeight(schema, ms[0]);
      ManyHeight(schema, ms[1..]);
    }
  }

  lemma {:induction false} ValuesHeight(schema: Schema, vs: seq<Value>, i: nat)
    requires i + |vs| == |schema.fields|
    requires forall k :: 0 <= k < |vs| ==> IsValue(schema.fields[i + k].kind, vs[k])
    ensures ValuesNesting(vs) <= Height(schema) + ValuesGroups(vs)
    decreases vs
  {
    hide IsValue, ValueNesting, KindHeight, FieldsHeight, ValueGroups;
    if vs != [] {
      assert IsValue(schema.fields[i + 0].kind, vs[0]);
      ValueHeight(schema.fields[i].kind, vs[0]);
      KindIsHigh(schema.fields, i);
      forall k | 0 <= k < |vs[1..]| ensures IsValue(schema.fields[i + 1 + k].kind, vs[1..][k]) {
        assert IsValue(schema.fields[i + (k + 1)].kind, vs[k + 1]);
      }
      ValuesHeight(schema, vs[1..], i + 1);
    }
  }

  /** A message nests no deeper than its schema and its unknown groups together. */
  lemma {:induction false} MessageHeight(schema: Schema, m: Message)
    requires IsMessage(schema, m)
    ensures MessageNesting(m) <= Height(schema) + Groups(m)
    decreases m
  {
    hide IsValue, ValuesNesting, Height, ValuesGroups, WfUnknown, Foreign;
    forall k | 0 <= k < |m.vals| ensures IsValue(schema.fields[0 + k].kind, m.vals[k]) {
    }
    ValuesHeight(schema, m.vals, 0);
  }

  // ----- the limit, in bytes -----

  function Repeat(x: Byte, n: nat): seq<Byte> {
    if n == 0 then [] else [x] + Repeat(x, n - 1)
  }

  lemma {:induction false} RepeatMore(x: Byte, n: nat)
    ensures Repeat(x, n) + [x] == [x] + Repeat(x, n)
  {
    if n > 0 {
      RepeatMore(x, n - 1);
      assert [x] + Repeat(x, n - 1) + [x] == [x] + (Repeat(x, n - 1) + [x]);
    }
  }

  /** A group numbered 1 in a group numbered 1 and so on, n of them. */
  function Nested(n: nat): seq<Unknown> {
    if n == 0 then [] else [UnknownGroup(1, Nested(n - 1))]
  }

  lemma {:induction false} NestedLaw(n: nat, depth: nat)
    ensures UnknownsBytes(Nested(n)) == Repeat(11, n) + Repeat(12, n)
    ensures ReadableUnknowns(depth, Nested(n)) <==> n <= depth
    ensures WfUnknowns(Nested(n))
  {
    if n > 0 {
      NestedLaw(n - 1, if depth > 0 then depth - 1 else 0);
      NestedStep(n);
      RepeatMore(12, n - 1);
      var a, b := Repeat(11, n - 1), Repeat(12, n - 1);
      assert [11] + (a + b) + [12] == ([11] + a) + (b + [12]);
    }
  }

  lemma NestedStep(n: nat)
    requires n > 0
    ensures UnknownsBytes(Nested(n)) == [11] + UnknownsBytes(Nested(n - 1)) + [12]
  {
    hide UnknownPayload;
    var u := UnknownGroup(1, Nested(n - 1));
    OneUnknown(u);
    GroupBytes(Nested(n - 1));
  }

  lemma OneUnknown(u: Unknown)
    ensures UnknownsBytes([u]) == UnknownFieldBytes(u)
  {
    hide UnknownFieldBytes;
    assert [u][1..] == [];
    assert UnknownFieldBytes(u) + [] == UnknownFieldBytes(u);
  }

  lemma GroupBytes(us: seq<Unknown>)
    ensures UnknownFieldBytes(UnknownGroup(1, us)) == [11] + UnknownsBytes(us) + [12]
  {
    hide UnknownsBytes;
    assert Varint(11) == [11] && Varint(12) == [12];
    assert [11] + (UnknownsBytes(us) + [12]) == [11] + UnknownsBytes(us) + [12];
  }

  const NO_FIELDS := Schema([])

  /** Unknown groups 100 deep are accepted, 101 deep refused. */
  lemma GroupsToTheLimit(valid: seq<Byte> -> bool, n: nat)
    ensures Parse(valid, NO_FIELDS, Repeat(11, n) + Repeat(12, n))
            == if n <= 100 then Some(Message([], Nested(n))) else None
  {
    hide Parse, UnknownsBytes, ReadableUnknowns, WfUnknown, Repeat, Nested;
    NestedLaw(n, DEFAULT_RECURSION_LIMIT);
    var m := Message([], Nested(n));
    assert IsMessage(NO_FIELDS, m);
    assert Bytes(NO_FIELDS, m) == UnknownsBytes(Nested(n));
    RoundTrip(valid, NO_FIELDS, m);
    assert Readable(Context(valid, DEFAULT_RECURSION_LIMIT), NO_FIELDS, m)
      <==> ReadableUnknowns(DEFAULT_RECURSION_LIMIT, Nested(n));
  }
}
