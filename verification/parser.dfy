/** The generated parse loops, statement by statement, against what parsing means. A length
    limit that the library pushes is here the end of the bytes handed on. */
module Parser {
  import opened Wire
  import opened Messages
  import opened Parsing
  import CodecLaws

  method ReadString(data: seq<Byte>, p: nat) returns (ok: bool, q: nat, s: seq<Byte>)
    requires p <= |data|
    ensures ok <==> ReadBytes(data[p..]).Good?
    ensures ok ==> p < q <= |data| && ReadBytes(data[p..]) == Good(s, data[q..]) && |s| < |data| - p
  {
    hide ReadSize, Tail;
    var size: nat;
    ok, q, size := ParseSize(data, p);
    if !ok || size > |data| - q {
      return false, p, [];
    }
    s := data[q..q + size];
    assert data[q..][..size] == s && data[q..][size..] == data[q + size..];
    q := q + size;
  }

  /** UnalignedLoad of n bytes. */
  method LoadFixed(data: seq<Byte>, p: nat, n: nat) returns (ok: bool, q: nat, v: nat)
    requires p <= |data| && n > 0
    ensures ok <==> ReadFixed(data[p..], n).Good?
    ensures ok ==> p < q <= |data| && ReadFixed(data[p..], n) == Good(v, data[q..])
  {
    hide Tail;
    if |data| - p < n {
      return false, p, 0;
    }
    ghost var b := data[p..][..n];
    v := 0;
    var k := n;
    while k > 0
      invariant 0 <= k <= n && v == Word(b[k..])
    {
      k := k - 1;
      assert b[k..][1..] == b[k + 1..];
      v := data[p + k] + 256 * v;
    }
    assert b[0..] == b;
    assert data[p..][n..] == data[p + n..];
    return true, p + n, v;
  }

  // ----- unknown fields -----

  method ParsePlainUnknown(tag: nat, data: seq<Byte>, p: nat) returns (ok: bool, q: nat, u: Unknown)
    requires p <= |data|
    ensures ok <==> ParsePlain(tag, data[p..]).Good?
    ensures ok ==> p < q <= |data| && ParsePlain(tag, data[p..]) == Good(u, data[q..])
  {
    hide ReadUInt64, ReadFixed, ReadBytes, Tail;
    var num := tag / 8;
    u := UnknownVarint(0, 0);
    match tag % 8 {
      case 0 =>
        var v: nat;
        ok, q, v := VarintParse(data, p);
        u := UnknownVarint(num, v);
      case 1 =>
        var v: nat;
        ok, q, v := LoadFixed(data, p, 8);
        u := UnknownFixed64(num, v);
      case 2 =>
        var s: seq<Byte>;
        ok, q, s := ReadString(data, p);
        u := UnknownBytes(num, s);
      case 5 =>
        var v: nat;
        ok, q, v := LoadFixed(data, p, 4);
        u := UnknownFixed32(num, v);
      case _ =>
        return false, p, u;
    }
  }

  method ParseUnknownField(ctx: Context, tag: nat, data: seq<Byte>, p: nat) returns (ok: bool, q: nat, u: Unknown)
    requires p <= |data|
    ensures ok <==> ParseUnknown(ctx, tag, data[p..]).Good?
    ensures ok ==> p < q <= |data| && ParseUnknown(ctx, tag, data[p..]) == Good(u, data[q..])
    decreases |data| - p, 1
  {
    hide ParseGroup, ParsePlain, Tail;
    u := UnknownVarint(0, 0);
    var num := tag / 8;
    if num == 0 {
      return false, p, u;
    }
    if tag % 8 != 3 {
      ok, q, u := ParsePlainUnknown(tag, data, p);
      return;
    }
    if ctx.depth == 0 {
      return false, p, u;
    }
    var g: Group;
    ok, q, g := ParseUnknownGroup(ctx.Deeper(), data, p);
    if !ok || g.endTag != Tag(num, 4) {
      return false, p, u;
    }
    u := UnknownGroup(num, g.fields);
  }

  /** The fields read so far in front of what is still to come. */
  ghost function GroupAfter(fields: seq<Unknown>, more: Parsed<Group>): Parsed<Group> {
    match more
    case Bad => Bad
    case Good(g, rest) => Good(Group(fields + g.fields, g.endTag), rest)
  }

  /** WireFormatParser: fields until a tag that ends the group. */
  method ParseUnknownGroup(ctx: Context, data: seq<Byte>, p: nat) returns (ok: bool, q: nat, g: Group)
    requires p <= |data|
    ensures ok <==> ParseGroup(ctx, data[p..]).Good?
    ensures ok ==> p < q <= |data| && ParseGroup(ctx, data[p..]) == Good(g, data[q..])
    decreases |data| - p, 0
  {
    hide ReadTag, ParseUnknown, Tail;
    var fields := [];
    q := p;
    g := Group([], 0);
    GroupAfterNone(ParseGroup(ctx, data[p..]));
    while true
      invariant p <= q <= |data|
      invariant ParseGroup(ctx, data[p..]) == GroupAfter(fields, ParseGroup(ctx, data[q..]))
      decreases |data| - q
    {
      var okTag, next, tag := ParseTag(data, q);
      if !okTag {
        return false, p, g;
      }
      if EndsMessage(tag) {
        assert fields + [] == fields;
        return true, next, Group(fields, tag);
      }
      var okField, after, u := ParseUnknownField(ctx, tag, data, next);
      if !okField {
        return false, p, g;
      }
      GroupAfterOne(fields, u, ParseGroup(ctx, data[after..]));
      fields := fields + [u];
      q := after;
    }
  }

  lemma GroupAfterNone(r: Parsed<Group>)
    ensures GroupAfter([], r) == r
  {
    if r.Good? {
      assert [] + r.value.fields == r.value.fields;
    }
  }

  lemma GroupAfterOne(fields: seq<Unknown>, u: Unknown, r: Parsed<Group>)
    ensures GroupAfter(fields, GroupAfter([u], r)) == GroupAfter(fields + [u], r)
  {
    if r.Good? {
      assert fields + ([u] + r.value.fields) == fields + [u] + r.value.fields;
    }
  }

  // ----- known fields -----

  /** ReadPackedVarint on the bytes its length prefix covers. */
  method ReadPackedVarint(s: seq<Byte>) returns (ok: bool, ns: seq<nat>)
    ensures ok <==> ParsePacked(s).Some?
    ensures ok ==> ParsePacked(s) == Some(ns)
  {
    hide ReadUInt64, Tail;
    ns := [];
    var ptr := 0;
    PackedAfterNone(ParsePacked(s[0..]));
    assert s[0..] == s;
    while ptr < |s|
      invariant 0 <= ptr <= |s|
      invariant ParsePacked(s) == PackedAfter(ns, ParsePacked(s[ptr..]))
    {
      var okVarint, next, n := VarintParse(s, ptr);
      if !okVarint {
        return false, ns;
      }
      PackedAfterOne(ns, n, ParsePacked(s[next..]));
      ns := ns + [n];
      ptr := next;
    }
    assert ns + [] == ns;
    return true, ns;
  }

  ghost function PackedAfter(ns: seq<nat>, more: Option<seq<nat>>): Option<seq<nat>> {
    match more
    case None => None
    case Some(ms) => Some(ns + ms)
  }

  lemma PackedAfterNone(r: Option<seq<nat>>)
    ensures PackedAfter([], r) == r
  {
    if r.Some? {
      assert [] + r.value == r.value;
    }
  }

  lemma PackedAfterOne(ns: seq<nat>, n: nat, r: Option<seq<nat>>)
    ensures PackedAfter(ns, PackedAfter([n], r)) == PackedAfter(ns + [n], r)
  {
    if r.Some? {
      assert ns + ([n] + r.value) == ns + [n] + r.value;
    }
  }

  /** A singular number. */
  method ParseNumber(kind: Kind, data: seq<Byte>, p: nat) returns (ok: bool, q: nat, v: Value)
    requires p <= |data|
    ensures ok <==> ReadNumber(kind, data[p..]).Good?
    ensures ok ==> p < q <= |data| && v.Num? && ReadNumber(kind, data[p..]) == Good(v.n, data[q..])
  {
    hide ReadUInt64, ReadFixed, Tail;
    v := Num(0);
    var n: nat;
    if kind.Float? {
      ok, q, n := LoadFixed(data, p, 4);
    } else {
      ok, q, n := VarintParse(data, p);
    }
    if kind.Bool? {
      v := Num(if n == 0 then 0 else 1);
    } else if kind.Enum? {
      v := Num(n % TWO32);
    } else {
      v := Num(n);
    }
  }

  /** The elements to append to a repeated number field. */
  method ParseNumbers(wireType: nat, data: seq<Byte>, p: nat) returns (ok: bool, q: nat, ns: seq<nat>)
    requires p <= |data|
    ensures ok <==> ReadNumbers(wireType, data[p..]).Good?
    ensures ok ==> p < q <= |data| && ReadNumbers(wireType, data[p..]) == Good(ns, data[q..])
  {
    hide ReadUInt64, ReadBytes, Tail;
    ns := [];
    if wireType == 2 {
      var s: seq<Byte>;
      ok, q, s := ReadString(data, p);
      if ok {
        ok, ns := ReadPackedVarint(s);
      }
    } else {
      var n: nat;
      ok, q, n := VarintParse(data, p);
      ns := [n];
    }
  }

  /** ParseMessage: the submessage's own bytes, one level deeper. */
  method ParseMessage(ctx: Context, schema: Schema, m0: Message, data: seq<Byte>, p: nat)
    returns (ok: bool, q: nat, m: Message)
    requires p <= |data| && |m0.vals| == |schema.fields| && WfSchema(schema)
    ensures ok <==> ReadMessage(ctx, schema, m0, data[p..]).Good?
    ensures ok ==> p < q <= |data| && ReadMessage(ctx, schema, m0, data[p..]) == Good(m, data[q..])
    decreases |data| - p, 0
  {
    hide ReadBytes, ParseBody, Tail;
    m := m0;
    var body: seq<Byte>;
    ok, q, body := ReadString(data, p);
    if !ok || ctx.depth == 0 {
      return false, p, m;
    }
    assert body[0..] == body;
    ok, m := InternalParse(ctx.Deeper(), schema, m0, body, 0);
  }

  method ParseFieldValue(ctx: Context, kind: Kind, v0: Value, wireType: nat, data: seq<Byte>, p: nat)
    returns (ok: bool, q: nat, v: Value)
    requires p <= |data| && !kind.RepeatedSub? && WfKind(kind)
    ensures ok <==> ParseValue(ctx, kind, v0, wireType, data[p..]).Good?
    ensures ok ==> p < q <= |data| && ParseValue(ctx, kind, v0, wireType, data[p..]) == Good(v, data[q..])
    decreases |data| - p, 1
  {
    hide ReadBytes, ReadNumber, ReadNumbers, ReadMessage, Tail;
    v := v0;
    match kind {
      case Text =>
        var s: seq<Byte>;
        ok, q, s := ReadString(data, p);
        ok := ok && ctx.valid(s);
        v := Str(s);
      case Sub(schema) =>
        var m: Message;
        ok, q, m := ParseMessage(ctx, schema, Held(schema, v0), data, p);
        v := One(Some(m));
      case RepeatedUInt64 =>
        var ns: seq<nat>;
        ok, q, ns := ParseNumbers(wireType, data, p);
        v := Nums(Numbers(v0) + ns);
      case UInt64 =>
        ok, q, v := ParseNumber(kind, data, p);
      case Bool =>
        ok, q, v := ParseNumber(kind, data, p);
      case Enum =>
        ok, q, v := ParseNumber(kind, data, p);
      case Float =>
        ok, q, v := ParseNumber(kind, data, p);
    }
  }


  /** The result of parsing m and the bytes from p on. */
  ghost function Outcome(ctx: Context, schema: Schema, m: Message, data: seq<Byte>, p: nat): Option<Message>
    requires p <= |data| && |m.vals| == |schema.fields|
  {
    ParseBody(ctx, schema, m, data[p..])
  }

  /** One element after the other while the next byte is the same tag again. */
  method ParseRun(ctx: Context, schema: Schema, m0: Message, i: nat, data: seq<Byte>, p: nat)
    returns (ok: bool, q: nat, m: Message)
    requires p <= |data| && i < |schema.fields| == |m0.vals| && schema.fields[i].kind.RepeatedSub?
    requires WfSchema(schema)
    ensures |m.vals| == |schema.fields|
    ensures var one := ParseValue(ctx, schema.fields[i].kind, m0.vals[i], 2, data[p..]);
            if ok then p < q <= |data| && one.Good?
                       && ParseBody(ctx, schema, m0.(vals := m0.vals[i := one.value]), one.rest)
                          == Outcome(ctx, schema, m, data, q)
            else one.Bad? || ParseBody(ctx, schema, m0.(vals := m0.vals[i := one.value]), one.rest) == None
    decreases |data| - p, 1
  {
    hide ReadMessage, ParseBody, Tail;
    assert WfKind(schema.fields[i].kind);
    var sub := schema.fields[i].kind.schema;
    m := m0;
    var element: Message;
    ok, q, element := ParseMessage(ctx, sub, Empty(sub), data, p);
    if !ok {
      return;
    }
    m := m.(vals := m.vals[i := Many(Listed(m.vals[i]) + [element])]);
    ghost var goal := Outcome(ctx, schema, m, data, q);
    while q < |data| && data[q] == Tag(schema.fields[i].num, 2)
      invariant p < q <= |data| && |m.vals| == |schema.fields|
      invariant Outcome(ctx, schema, m, data, q) == goal
      decreases |data| - q
    {
      SameTagAgain(ctx, schema, m, i, data, q);
      ok, q, element := ParseMessage(ctx, sub, Empty(sub), data, q + 1);
      if !ok {
        return;
      }
      m := m.(vals := m.vals[i := Many(Listed(m.vals[i]) + [element])]);
    }
  }

  /** Expecting the tag byte is reading the tag. */
  lemma SameTagAgain(ctx: Context, schema: Schema, m: Message, i: nat, data: seq<Byte>, q: nat)
    requires q < |data| && i < |schema.fields| == |m.vals| && schema.fields[i].kind.RepeatedSub? && WfSchema(schema)
    requires data[q] == Tag(schema.fields[i].num, 2)
    ensures Outcome(ctx, schema, m, data, q)
            == (match ReadMessage(ctx, schema.fields[i].kind.schema, Empty(schema.fields[i].kind.schema), data[q + 1..])
                case Bad => None
                case Good(e, rest) =>
                  ParseBody(ctx, schema, m.(vals := m.vals[i := Many(Listed(m.vals[i]) + [e])]), rest))
  {
    hide ReadMessage, ParseBody, Tail, ReadTag, KnownField;
    assert WfKind(schema.fields[i].kind);
    CodecLaws.KnownStep(ctx, schema, m, i, 2, data[q + 1..]);
    assert Varint(data[q]) == [data[q]];
    assert [data[q]] + data[q + 1..] == data[q..];
  }

  lemma BodyStep(ctx: Context, schema: Schema, m: Message, b: seq<Byte>)
    requires |m.vals| == |schema.fields|
    ensures b == [] ==> ParseBody(ctx, schema, m, b) == Some(m)
    ensures b != [] ==> (
              ParseBody(ctx, schema, m, b)
              == (match ReadTag(b)
                  case Bad => None
                  case Good(tag, b1) => (
                    match ParseField(ctx, schema, m, tag, b1)
                    case Bad => None
                    case Good(m1, b2) => ParseBody(ctx, schema, m1, b2))))
  {
  }

  /** One turn of the loop, the tag being read: the switch on the field number. */
  method ParseOne(ctx: Context, schema: Schema, m0: Message, tag: nat, data: seq<Byte>, p: nat)
    returns (ok: bool, q: nat, m: Message)
    requires p <= |data| && |m0.vals| == |schema.fields| && WfSchema(schema)
    ensures |m.vals| == |schema.fields|
    ensures var one := ParseField(ctx, schema, m0, tag, data[p..]);
            if ok then p < q <= |data| && one.Good?
                       && ParseBody(ctx, schema, one.value, one.rest) == Outcome(ctx, schema, m, data, q)
            else one.Bad? || ParseBody(ctx, schema, one.value, one.rest) == None
    decreases |data| - p, 2
  {
    hide ParseBody, ParseValue, ParseUnknown, Tail, WfKind;
    m := m0;
    var i := KnownField(schema, tag);
    if i < |schema.fields| {
      assert WfKind(schema.fields[i].kind);
      var kind := schema.fields[i].kind;
      if kind.RepeatedSub? {
        ok, q, m := ParseRun(ctx, schema, m0, i, data, p);
      } else {
        var v: Value;
        ok, q, v := ParseFieldValue(ctx, kind, m0.vals[i], tag % 8, data, p);
        m := m.(vals := m.vals[i := v]);
      }
    } else if EndsMessage(tag) {
      return false, p, m;
    } else {
      var u: Unknown;
      ok, q, u := ParseUnknownField(ctx, tag, data, p);
      m := m.(unknown := m.unknown + [u]);
    }
  }

  /** The parse loop of a generated message. */
  method InternalParse(ctx: Context, schema: Schema, m0: Message, data: seq<Byte>, p: nat)
    returns (ok: bool, m: Message)
    requires p <= |data| && |m0.vals| == |schema.fields| && WfSchema(schema)
    ensures ok <==> ParseBody(ctx, schema, m0, data[p..]).Some?
    ensures ok ==> ParseBody(ctx, schema, m0, data[p..]) == Some(m)
    decreases |data| - p, 3
  {
    hide ParseBody, ParseField, ReadTag, Tail, WfSchema;
    m := m0;
    var ptr := p;
    while ptr < |data|
      invariant p <= ptr <= |data| && |m.vals| == |schema.fields|
      invariant Outcome(ctx, schema, m, data, ptr) == Outcome(ctx, schema, m0, data, p)
      decreases |data| - ptr
    {
      BodyStep(ctx, schema, m, data[ptr..]);
      var okTag, next, tag := ParseTag(data, ptr);
      if !okTag {
        return false, m;
      }
      ok, ptr, m := ParseOne(ctx, schema, m, tag, data, next);
      if !ok {
        return;
      }
    }
    BodyStep(ctx, schema, m, data[ptr..]);
    return true, m;
  }

  /** ParseFromArray: clear, then parse everything. */
  method ParseFromArray(valid: seq<Byte> -> bool, schema: Schema, data: seq<Byte>) returns (ok: bool, m: Message)
    requires WfSchema(schema)
    ensures ok <==> Parse(valid, schema, data).Some?
    ensures ok ==> Parse(valid, schema, data) == Some(m)
  {
    hide ParseBody;
    assert data[0..] == data;
    ok, m := InternalParse(Context(valid, DEFAULT_RECURSION_LIMIT), schema, Empty(schema), data, 0);
  }
}
