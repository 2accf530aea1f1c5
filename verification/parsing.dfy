/** What parsing means: the message that some bytes build on top of another message. */
module Parsing {
  import opened Wire
  import opened Messages

  /** The state a parse carries along: how deep it may still nest, and the UTF-8 check. */
  datatype Context = Context(valid: seq<Byte> -> bool, depth: nat)
  {
    function Deeper(): Context
      requires depth > 0
    {
      Context(valid, depth - 1)
    }
  }

  datatype Group = Group(fields: seq<Unknown>, endTag: nat)

  function ReadBytes(b: seq<Byte>): (r: Parsed<seq<Byte>>)
    ensures r.Good? ==> Tail(r.rest, b) && |r.value| < |b| && |r.value| <= MAX_SIZE
  {
    match ReadSize(b)
    case Good(n, rest) => if n <= |rest| then Good(rest[..n], rest[n..]) else Bad
    case Bad => Bad
  }

  function EndsMessage(tag: nat): bool { tag == 0 || tag % 8 == 4 }

  function ParsePlain(tag: nat, b: seq<Byte>): (r: Parsed<Unknown>)
    ensures r.Good? ==> Tail(r.rest, b)
  {
    var num := tag / 8;
    if tag % 8 == 0 then
      match ReadUInt64(b)
      case Good(v, rest) => Good(UnknownVarint(num, v), rest)
      case Bad => Bad
    else if tag % 8 == 1 then
      match ReadFixed(b, 8)
      case Good(v, rest) => Good(UnknownFixed64(num, v), rest)
      case Bad => Bad
    else if tag % 8 == 2 then
      match ReadBytes(b)
      case Good(s, rest) => Good(UnknownBytes(num, s), rest)
      case Bad => Bad
    else if tag % 8 == 5 then
      match ReadFixed(b, 4)
      case Good(v, rest) => Good(UnknownFixed32(num, v), rest)
      case Bad => Bad
    else Bad
  }

  /** One field the schema does not have, its tag already read. */
  function ParseUnknown(ctx: Context, tag: nat, b: seq<Byte>): (r: Parsed<Unknown>)
    ensures r.Good? ==> Tail(r.rest, b)
    decreases |b|, 2
  {
    if tag / 8 == 0 then Bad
    else if tag % 8 != 3 then ParsePlain(tag, b)
    else if ctx.depth == 0 then Bad
    else match ParseGroup(ctx.Deeper(), b)
      case Good(g, rest) => if g.endTag == Tag(tag / 8, 4) then Good(UnknownGroup(tag / 8, g.fields), rest) else Bad
      case Bad => Bad
  }

  /** The fields of a group up to the first tag that ends it. */
  function ParseGroup(ctx: Context, b: seq<Byte>): (r: Parsed<Group>)
    ensures r.Good? ==> Tail(r.rest, b)
    decreases |b|, 1
  {
    match ReadTag(b)
    case Bad => Bad
    case Good(tag, b1) =>
      if EndsMessage(tag) then Good(Group([], tag), b1)
      else match ParseUnknown(ctx, tag, b1)
        case Bad => Bad
        case Good(u, b2) =>
          match ParseGroup(ctx, b2)
          case Bad => Bad
          case Good(g, rest) => Good(Group([u] + g.fields, g.endTag), rest)
  }

  /** All of b as varints. */
  function ParsePacked(b: seq<Byte>): Option<seq<nat>> {
    if b == [] then Some([])
    else match ReadUInt64(b)
      case Bad => None
      case Good(n, rest) =>
        match ParsePacked(rest)
        case None => None
        case Some(ns) => Some([n] + ns)
  }

  /** The number a singular field of this kind reads. */
  function ReadNumber(kind: Kind, b: seq<Byte>): (r: Parsed<nat>)
    ensures r.Good? ==> Tail(r.rest, b)
  {
    match if kind.Float? then ReadFixed(b, 4) else ReadUInt64(b)
    case Bad => Bad
    case Good(n, rest) =>
      Good(if kind.Bool? then (if n == 0 then 0 else 1) else if kind.Enum? then n % TWO32 else n, rest)
  }

  /** The elements a repeated number field reads: a packed run, or one. */
  function ReadNumbers(wireType: nat, b: seq<Byte>): (r: Parsed<seq<nat>>)
    ensures r.Good? ==> Tail(r.rest, b)
  {
    if wireType == 2 then
      match ReadBytes(b)
      case Bad => Bad
      case Good(s, rest) =>
        match ParsePacked(s)
        case None => Bad
        case Some(ns) => Good(ns, rest)
    else
      match ReadUInt64(b)
      case Bad => Bad
      case Good(n, rest) => Good([n], rest)
  }

  /** The new value of a known field that held v, its tag already read. */
  function ParseValue(ctx: Context, kind: Kind, v: Value, wireType: nat, b: seq<Byte>): (r: Parsed<Value>)
    ensures r.Good? ==> Tail(r.rest, b)
    decreases |b|, 2
  {
    match kind
    case Text => (
      match ReadBytes(b)
      case Good(s, rest) => if ctx.valid(s) then Good(Str(s), rest) else Bad
      case Bad => Bad)
    case Sub(schema) => (
      match ReadMessage(ctx, schema, Held(schema, v), b)
      case Good(m, rest) => Good(One(Some(m)), rest)
      case Bad => Bad)
    case RepeatedSub(schema) => (
      match ReadMessage(ctx, schema, Empty(schema), b)
      case Good(m, rest) => Good(Many(Listed(v) + [m]), rest)
      case Bad => Bad)
    case RepeatedUInt64 => (
      match ReadNumbers(wireType, b)
      case Good(ns, rest) => Good(Nums(Numbers(v) + ns), rest)
      case Bad => Bad)
    case _ =>
      match ReadNumber(kind, b)
      case Good(n, rest) => Good(Num(n), rest)
      case Bad => Bad
  }

  /** A length-delimited submessage, one level deeper, continuing m. */
  function ReadMessage(ctx: Context, schema: Schema, m: Message, b: seq<Byte>): (r: Parsed<Message>)
    requires |m.vals| == |schema.fields|
    ensures r.Good? ==> Tail(r.rest, b) && |r.value.vals| == |schema.fields|
    decreases |b|, 1
  {
    match ReadBytes(b)
    case Bad => Bad
    case Good(body, rest) =>
      if ctx.depth == 0 then Bad
      else match ParseBody(ctx.Deeper(), schema, m, body)
        case None => Bad
        case Some(r) => Good(r, rest)
  }

  /** One field, its tag already read. */
  function ParseField(ctx: Context, schema: Schema, m: Message, tag: nat, b: seq<Byte>): (r: Parsed<Message>)
    requires |m.vals| == |schema.fields|
    ensures r.Good? ==> Tail(r.rest, b) && |r.value.vals| == |schema.fields|
    decreases |b|, 3
  {
    var i := KnownField(schema, tag);
    if i < |schema.fields| then
      match ParseValue(ctx, schema.fields[i].kind, m.vals[i], tag % 8, b)
      case Good(v, rest) => Good(m.(vals := m.vals[i := v]), rest)
      case Bad => Bad
    else if EndsMessage(tag) then Bad
    else
      match ParseUnknown(ctx, tag, b)
      case Good(u, rest) => Good(m.(unknown := m.unknown + [u]), rest)
      case Bad => Bad
  }

  /** The message that all of b builds on top of m; a message that an end tag cuts short is
      refused by whoever gave its length. */
  function ParseBody(ctx: Context, schema: Schema, m: Message, b: seq<Byte>): (r: Option<Message>)
    requires |m.vals| == |schema.fields|
    ensures r.Some? ==> |r.value.vals| == |schema.fields|
    decreases |b|, 4
  {
    if b == [] then Some(m)
    else match ReadTag(b)
      case Bad => None
      case Good(tag, b1) =>
        match ParseField(ctx, schema, m, tag, b1)
        case Bad => None
        case Good(m1, b2) => ParseBody(ctx, schema, m1, b2)
  }

  const DEFAULT_RECURSION_LIMIT: nat := 100

  /** Parsing a whole packet. */
  function Parse(valid: seq<Byte> -> bool, schema: Schema, b: seq<Byte>): (r: Option<Message>)
    ensures r.Some? ==> |r.value.vals| == |schema.fields|
  {
    ParseBody(Context(valid, DEFAULT_RECURSION_LIMIT), schema, Empty(schema), b)
  }
}
