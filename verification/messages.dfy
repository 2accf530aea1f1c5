/** The packets' messages: their schemas, their values, the bytes each value stands for and
    what merging two values means. The code generated for every message type is one template
    filled in with the type's fields; a schema lists those fields. */
module Messages {
  import opened Bits
  import opened Wire

  datatype Option<T> = None | Some(value: T)

  datatype Kind =
    | UInt64
    | Bool
    | Enum
    | Float
    | Text
    | Sub(schema: Schema)
    | RepeatedSub(schema: Schema)
    | RepeatedUInt64

  datatype Field = Field(num: nat, kind: Kind)

  datatype Schema = Schema(fields: seq<Field>)

  /** A field the schema does not have, kept as it was read. */
  datatype Unknown =
    | UnknownVarint(num: nat, value: nat)
    | UnknownFixed64(num: nat, value: nat)
    | UnknownBytes(num: nat, bytes: seq<Byte>)
    | UnknownGroup(num: nat, fields: seq<Unknown>)
    | UnknownFixed32(num: nat, value: nat)

  /** Numbers are kept as bit patterns: an enum as its 32 bits, a float as its 32 bits. */
  datatype Value =
    | Num(n: nat)
    | Str(s: seq<Byte>)
    | One(m: Option<Message>)
    | Many(ms: seq<Message>)
    | Nums(ns: seq<nat>)

  datatype Message = Message(vals: seq<Value>, unknown: seq<Unknown>)

  // ----- what a schema and its messages look like -----

  /** Field numbers are distinct and below 16, so that every tag is one byte. */
  ghost predicate WfSchema(schema: Schema) {
    && (forall i, j :: 0 <= i < j < |schema.fields| ==> schema.fields[i].num != schema.fields[j].num)
    && (forall i :: 0 <= i < |schema.fields| ==> 1 <= schema.fields[i].num < 16 && WfKind(schema.fields[i].kind))
  }

  ghost predicate WfKind(kind: Kind) {
    kind.Sub? || kind.RepeatedSub? ==> WfSchema(kind.schema)
  }

  function WireType(u: Unknown): nat {
    match u
    case UnknownVarint(_, _) => 0
    case UnknownFixed64(_, _) => 1
    case UnknownBytes(_, _) => 2
    case UnknownGroup(_, _) => 3
    case UnknownFixed32(_, _) => 5
  }

  function Tag(num: nat, wireType: nat): nat { num * 8 + wireType }

  /** The wire types under which a known field is read. */
  predicate Accepts(kind: Kind, wireType: nat) {
    match kind
    case UInt64 => wireType == 0
    case Bool => wireType == 0
    case Enum => wireType == 0
    case Float => wireType == 5
    case Text => wireType == 2
    case Sub(_) => wireType == 2
    case RepeatedSub(_) => wireType == 2
    case RepeatedUInt64 => wireType == 2 || wireType == 0
  }

  function FieldAt(schema: Schema, num: nat, i: nat): (r: nat)
    requires i <= |schema.fields|
    ensures i <= r <= |schema.fields|
    ensures r < |schema.fields| ==> schema.fields[r].num == num
    decreases |schema.fields| - i
  {
    if i == |schema.fields| || schema.fields[i].num == num then i else FieldAt(schema, num, i + 1)
  }

  /** The position of the field a tag belongs to, or the number of fields if it is unknown. */
  function KnownField(schema: Schema, tag: nat): (r: nat)
    ensures r <= |schema.fields|
    ensures r < |schema.fields| ==> schema.fields[r].num == tag / 8 && Accepts(schema.fields[r].kind, tag % 8)
  {
    var i := FieldAt(schema, tag / 8, 0);
    if i < |schema.fields| && Accepts(schema.fields[i].kind, tag % 8) then i else |schema.fields|
  }

  ghost predicate WfUnknown(u: Unknown) {
    && 1 <= u.num < 0x2000_0000
    && match u
       case UnknownVarint(_, v) => v < TWO64
       case UnknownFixed64(_, v) => v < TWO64
       case UnknownBytes(_, _) => true
       case UnknownGroup(_, fields) => forall k :: 0 <= k < |fields| ==> WfUnknown(fields[k])
       case UnknownFixed32(_, v) => v < TWO32
  }

  ghost predicate WfUnknowns(us: seq<Unknown>) {
    forall k :: 0 <= k < |us| ==> WfUnknown(us[k])
  }

  /** A field that the schema's own parser would not take for one of its fields. */
  ghost predicate Foreign(schema: Schema, u: Unknown) {
    KnownField(schema, Tag(u.num, WireType(u))) == |schema.fields|
  }

  ghost predicate IsValue(kind: Kind, v: Value) {
    match kind
    case UInt64 => v.Num? && v.n < TWO64
    case Bool => v.Num? && v.n < 2
    case Enum => v.Num? && v.n < TWO32
    case Float => v.Num? && v.n < TWO32
    case Text => v.Str?
    case Sub(schema) => v.One? && (v.m.Some? ==> IsMessage(schema, v.m.value))
    case RepeatedSub(schema) => v.Many? && forall k :: 0 <= k < |v.ms| ==> IsMessage(schema, v.ms[k])
    case RepeatedUInt64 => v.Nums? && forall k :: 0 <= k < |v.ns| ==> v.ns[k] < TWO64
  }

  ghost predicate IsMessage(schema: Schema, m: Message) {
    && |m.vals| == |schema.fields|
    && (forall i :: 0 <= i < |m.vals| ==> IsValue(schema.fields[i].kind, m.vals[i]))
    && WfUnknowns(m.unknown)
    && (forall k :: 0 <= k < |m.unknown| ==> Foreign(schema, m.unknown[k]))
  }

  function Default(kind: Kind): Value {
    match kind
    case Text => Str([])
    case Sub(_) => One(None)
    case RepeatedSub(_) => Many([])
    case RepeatedUInt64 => Nums([])
    case _ => Num(0)
  }

  /** The message Clear leaves. */
  function Empty(schema: Schema): (m: Message)
    ensures |m.vals| == |schema.fields|
  {
    Message(seq(|schema.fields|, i requires 0 <= i < |schema.fields| => Default(schema.fields[i].kind)), [])
  }

  // ----- bytes -----

  /** An enum is written as a 64-bit varint: its 32 bits sign-extended. */
  function SignExtended(n: nat): nat {
    if n < 0x8000_0000 then n else n + TWO64 - TWO32
  }

  function Prefixed(b: seq<Byte>): seq<Byte> { Varint(|b|) + b }

  function PackedBytes(ns: seq<nat>): (b: seq<Byte>)
    ensures b == [] <==> ns == []
  {
    if ns == [] then [] else Varint(ns[0]) + PackedBytes(ns[1..])
  }

  function UnknownsBytes(us: seq<Unknown>): seq<Byte> {
    if us == [] then [] else UnknownFieldBytes(us[0]) + UnknownsBytes(us[1..])
  }

  function UnknownFieldBytes(u: Unknown): seq<Byte>
    decreases u, 1
  {
    Varint(Tag(u.num, WireType(u))) + UnknownPayload(u)
  }

  function UnknownPayload(u: Unknown): seq<Byte>
    decreases u, 0
  {
    match u
    case UnknownVarint(_, v) => Varint(v)
    case UnknownFixed64(_, v) => Fixed(v, 8)
    case UnknownBytes(_, s) => Prefixed(s)
    case UnknownGroup(num, fields) => UnknownsBytes(fields) + Varint(Tag(num, 4))
    case UnknownFixed32(_, v) => Fixed(v, 4)
  }

  /** The bytes of a field: none for a default value. */
  function ValueBytes(num: nat, kind: Kind, v: Value): seq<Byte>
    decreases kind
  {
    match kind
    case UInt64 => if v == Num(0) || !v.Num? then [] else Varint(Tag(num, 0)) + Varint(v.n)
    case Bool => if v == Num(0) || !v.Num? then [] else Varint(Tag(num, 0)) + Varint(v.n)
    case Enum => if v == Num(0) || !v.Num? then [] else Varint(Tag(num, 0)) + Varint(SignExtended(v.n))
    case Float => if v == Num(0) || !v.Num? then [] else Varint(Tag(num, 5)) + Fixed(v.n, 4)
    case Text => if v == Str([]) || !v.Str? then [] else Varint(Tag(num, 2)) + Prefixed(v.s)
    case Sub(schema) =>
      if v == One(None) || !v.One? then []
      else Varint(Tag(num, 2)) + Prefixed(Bytes(schema, v.m.value))
    case RepeatedSub(schema) => if v.Many? then ManyBytes(num, schema, v.ms) else []
    case RepeatedUInt64 =>
      if v == Nums([]) || !v.Nums? then [] else Varint(Tag(num, 2)) + Prefixed(PackedBytes(v.ns))
  }

  function ManyBytes(num: nat, schema: Schema, ms: seq<Message>): seq<Byte>
    decreases schema, |schema.fields| + 1, |ms|
  {
    if ms == [] then []
    else Varint(Tag(num, 2)) + Prefixed(Bytes(schema, ms[0])) + ManyBytes(num, schema, ms[1..])
  }

  /** The serialized message: its fields in schema order, then its unknown fields. */
  function Bytes(schema: Schema, m: Message): seq<Byte>
    decreases schema, |schema.fields| + 1, 0
  {
    if |m.vals| == |schema.fields| then BytesFrom(schema, m, 0) else []
  }

  function BytesFrom(schema: Schema, m: Message, i: nat): seq<Byte>
    requires i <= |schema.fields| == |m.vals|
    decreases schema, |schema.fields| - i, 0
  {
    if i == |schema.fields| then UnknownsBytes(m.unknown)
    else ValueBytes(schema.fields[i].num, schema.fields[i].kind, m.vals[i]) + BytesFrom(schema, m, i + 1)
  }

  // ----- merging -----

  /** The submessage that a parse or a merge continues: the one present, or a new one. */
  function Held(schema: Schema, v: Value): (m: Message)
  {
    if v.One? && v.m.Some? && |v.m.value.vals| == |schema.fields| then v.m.value else Empty(schema)
  }

  function Listed(v: Value): seq<Message> { if v.Many? then v.ms else [] }

  function Numbers(v: Value): seq<nat> { if v.Nums? then v.ns else [] }

  function MergedValue(kind: Kind, to: Value, from: Value): Value {
    match kind
    case Sub(schema) =>
      if from.One? && from.m.Some? then One(Some(Merged(schema, Held(schema, to), from.m.value))) else to
    case RepeatedSub(_) => Many(Listed(to) + Listed(from))
    case RepeatedUInt64 => Nums(Numbers(to) + Numbers(from))
    case _ => if from == Default(kind) then to else from
  }

  /** Merging from the i-th field on, then appending the unknown fields. */
  function MergedFrom(schema: Schema, to: Message, from: Message, i: nat): (r: Message)
    requires i <= |schema.fields| == |to.vals| == |from.vals|
    ensures |r.vals| == |schema.fields|
    decreases schema, |schema.fields| - i
  {
    if i == |schema.fields| then to.(unknown := to.unknown + from.unknown)
    else
      var v := MergedValue(schema.fields[i].kind, to.vals[i], from.vals[i]);
      MergedFrom(schema, to.(vals := to.vals[i := v]), from, i + 1)
  }

  function Merged(schema: Schema, to: Message, from: Message): (r: Message)
    decreases schema, |schema.fields| + 1
  {
    if |to.vals| == |from.vals| == |schema.fields| then MergedFrom(schema, to, from, 0) else to
  }
}
