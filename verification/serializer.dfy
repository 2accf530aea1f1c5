/** The two passes of serialization - ByteSizeLong, which caches sizes, and _InternalSerialize,
    which writes them as length prefixes - and merging, statement by statement. */
module Serializer {
  import opened Bits
  import opened Wire
  import opened Messages
  import CodecLaws

  const INT_MAX: nat := 0x7FFF_FFFF

  // ----- writing through a pointer -----

  /** The bytes were written at p; nothing else changed. */
  ghost predicate Wrote(before: seq<Byte>, p: nat, bytes: seq<Byte>, after: seq<Byte>) {
    p + |bytes| <= |before| && after == before[..p] + bytes + before[p + |bytes|..]
  }

  lemma WroteNothing(a: seq<Byte>, p: nat)
    requires p <= |a|
    ensures Wrote(a, p, [], a)
  {
  }

  lemma WroteMore(a: seq<Byte>, p: nat, x: seq<Byte>, b: seq<Byte>, y: seq<Byte>, c: seq<Byte>)
    requires Wrote(a, p, x, b) && Wrote(b, p + |x|, y, c)
    ensures Wrote(a, p, x + y, c)
  {
    assert b[..p + |x|] == a[..p] + x;
    assert b[p + |x| + |y|..] == a[p + |x| + |y|..];
  }

  lemma WroteOne(a: seq<Byte>, p: nat, x: Byte)
    requires p < |a|
    ensures Wrote(a, p, [x], a[p := x])
  {
  }

  method WriteByte(target: array<Byte>, p: nat, x: Byte) returns (q: nat)
    requires p < target.Length
    modifies target
    ensures q == p + 1 && Wrote(old(target[..]), p, [x], target[..])
  {
    target[p] := x;
    WroteOne(old(target[..]), p, x);
    assert target[..] == old(target[..])[p := x];
    return p + 1;
  }

  function Continued(v: nat): Byte { 128 + v % 128 }

  lemma VarintIs(v: nat)
    ensures |Varint(v)| >= 1
    ensures Varint(v) == if v < 128 then [v] else [Continued(v)] + Varint(v / 128)
  {
  }

  lemma VarintStep(done: seq<Byte>, v: nat)
    ensures v < 128 ==> Varint(v) == [v]
    ensures v >= 128 ==> done + Varint(v) == done + [Continued(v)] + Varint(v / 128) && |Varint(v)| >= 2
  {
    hide Varint, Continued;
    VarintIs(v);
    VarintIs(v / 128);
  }

  /** static_cast<uint8_t>(value) */
  function LowByte(value: nat): Byte { value % 256 }

  lemma FixedStep(done: seq<Byte>, v: nat, n: nat)
    requires n > 0
    ensures done + Fixed(v, n) == done + [LowByte(v)] + Fixed(v / 256, n - 1)
  {
  }

  /** UnsafeWriteSize: seven bits at a time, each byte written with its continuation bit. */
  method UnsafeWriteSize(target: array<Byte>, p: nat, v: nat) returns (q: nat)
    requires p + |Varint(v)| <= target.Length
    modifies target
    ensures q == p + |Varint(v)| && Wrote(old(target[..]), p, Varint(v), target[..])
  {
    hide Varint, Wrote, Continued;
    var value := v;
    q := p;
    ghost var done: seq<Byte> := [];
    WroteNothing(target[..], p);
    while value >= 0x80
      invariant q == p + |done| && done + Varint(value) == Varint(v)
      invariant Wrote(old(target[..]), p, done, target[..])
      decreases value
    {
      VarintStep(done, value);
      ghost var before := target[..];
      q := WriteByte(target, q, Continued(value));
      WroteMore(old(target[..]), p, done, before, [Continued(value)], target[..]);
      done := done + [Continued(value)];
      value := value / 128;
    }
    VarintStep(done, value);
    ghost var before := target[..];
    q := WriteByte(target, q, value);
    WroteMore(old(target[..]), p, done, before, [value], target[..]);
  }

  function WithContinuation(x: Byte): Byte { if x < 128 then x + 128 else x }

  lemma LowBytes(value: nat)
    ensures value >= 128 ==> Varint(value) == [WithContinuation(LowByte(value))] + Varint(value / 128)
    ensures value < 128 ==> Varint(value) == [LowByte(value)]
  {
    hide Varint, Continued, LowByte, WithContinuation;
    VarintIs(value);
    LowByteIs(value);
  }

  lemma LowByteIs(value: nat)
    ensures WithContinuation(LowByte(value)) == Continued(value)
    ensures value < 128 ==> LowByte(value) == value
  {
    var q, r := value / 256, value % 256;
    if r < 128 {
      DivModUnique(value, 128, 2 * q, r);
    } else {
      DivModUnique(value, 128, 2 * q + 1, r - 128);
    }
  }

  lemma LowBytesAfter(done: seq<Byte>, value: nat)
    requires value >= 128
    ensures done + Varint(value) == done + [WithContinuation(LowByte(value))] + Varint(value / 128)
    ensures |Varint(value)| >= 2
  {
    hide Varint, LowByte, WithContinuation;
    LowBytes(value);
    LowBytes(value / 128);
    LowBytesNotEmpty(value / 128);
  }

  lemma LowBytesNotEmpty(value: nat)
    ensures |Varint(value)| >= 1
  {
  }

  /** target[k] |= 0x80 */
  method SetContinuation(target: array<Byte>, k: nat, ghost start: seq<Byte>, ghost p: nat, ghost done: seq<Byte>)
    requires k == p + |done| && k < target.Length && Wrote(start, p, done + [target[k]], target[..])
    modifies target
    ensures Wrote(start, p, done + [WithContinuation(old(target[k]))], target[..])
  {
    ghost var before := target[..];
    target[k] := WithContinuation(target[k]);
    assert target[..] == before[k := target[k]];
  }

  /** UnsafeVarint: the low byte first, as it is; its continuation bit is set only when a further
      byte follows. */
  method WriteVarint(target: array<Byte>, p: nat, v: nat) returns (q: nat)
    requires p + |Varint(v)| <= target.Length
    modifies target
    ensures q == p + |Varint(v)| && Wrote(old(target[..]), p, Varint(v), target[..])
  {
    hide Varint, Wrote, WithContinuation, LowByte;
    ghost var start := target[..];
    ghost var done: seq<Byte> := [];
    var value := v;
    assert [] + Varint(v) == Varint(v) && [] + [LowByte(v)] == [LowByte(v)];
    LowBytesNotEmpty(v);
    q := WriteByte(target, p, LowByte(value));
    while value >= 0x80
      invariant q == p + |done| + 1 && q <= target.Length && done + Varint(value) == Varint(v)
      invariant Wrote(start, p, done + [LowByte(value)], target[..])
      decreases value
    {
      LowBytesAfter(done, value);
      WroteByte(start, p, done, target[..], LowByte(value));
      SetContinuation(target, q - 1, start, p, done);
      done := done + [WithContinuation(LowByte(value))];
      value := value / 128;
      ghost var before := target[..];
      q := WriteByte(target, q, LowByte(value));
      WroteMore(start, p, done, before, [LowByte(value)], target[..]);
    }
    LowBytes(value);
  }

  lemma WroteByte(start: seq<Byte>, p: nat, done: seq<Byte>, after: seq<Byte>, x: Byte)
    requires Wrote(start, p, done + [x], after)
    ensures p + |done| < |after| && after[p + |done|] == x
  {
    assert after[p + |done|] == (start[..p] + (done + [x]))[p + |done|];
  }

  /** memcpy. */
  method WriteRaw(target: array<Byte>, p: nat, s: seq<Byte>) returns (q: nat)
    requires p + |s| <= target.Length
    modifies target
    ensures q == p + |s| && Wrote(old(target[..]), p, s, target[..])
  {
    hide Wrote;
    q := p;
    WroteNothing(target[..], p);
    assert s[..0] == [];
    for k := 0 to |s|
      invariant q == p + k && Wrote(old(target[..]), p, s[..k], target[..])
    {
      ghost var before := target[..];
      q := WriteByte(target, q, s[k]);
      WroteMore(old(target[..]), p, s[..k], before, [s[k]], target[..]);
      assert s[..k] + [s[k]] == s[..k + 1];
    }
    assert s[..|s|] == s;
  }

  /** A word, least significant byte first. */
  method WriteFixed(target: array<Byte>, p: nat, v: nat, n: nat) returns (q: nat)
    requires p + n <= target.Length
    modifies target
    ensures q == p + n && Wrote(old(target[..]), p, Fixed(v, n), target[..])
  {
    hide Fixed, Wrote, LowByte;
    var value := v;
    assert [] + Fixed(v, n) == Fixed(v, n);
    q := p;
    ghost var done: seq<Byte> := [];
    WroteNothing(target[..], p);
    for k := 0 to n
      invariant q == p + k && |done| == k && done + Fixed(value, n - k) == Fixed(v, n)
      invariant Wrote(old(target[..]), p, done, target[..])
    {
      FixedStep(done, value, n - k);
      var low, high := LowByte(value), value / 256;
      ghost var before := target[..];
      q := WriteByte(target, q, low);
      WroteMore(old(target[..]), p, done, before, [low], target[..]);
      done, value := done + [low], high;
    }
    assert done + Fixed(value, 0) == done;
  }

  // ----- cached sizes -----

  /** What ByteSizeLong stores in a message: its own size and, field by field, the sizes of its
      submessages or of its packed run. Sizes are stored as the int they are cast to. */
  datatype Sizes = Sizes(cached: int, parts: seq<seq<Sizes>>)

  function ToCachedSize(size: nat): int {
    if size % TWO32 <= INT_MAX then size % TWO32 else size % TWO32 - TWO32
  }

  ghost predicate Caches(schema: Schema, m: Message, z: Sizes)
    decreases schema, 0
  {
    && |m.vals| == |schema.fields| == |z.parts|
    && z.cached == |Bytes(schema, m)| <= INT_MAX
    && forall i :: 0 <= i < |schema.fields| ==> CachesValue(schema.fields[i].kind, m.vals[i], z.parts[i])
  }

  ghost predicate CachesValue(kind: Kind, v: Value, zs: seq<Sizes>) {
    match kind
    case Sub(schema) => v.One? && v.m.Some? ==> |zs| == 1 && Caches(schema, v.m.value, zs[0])
    case RepeatedSub(schema) => v.Many? ==> CachesMany(schema, v.ms, zs)
    case RepeatedUInt64 => v.Nums? ==> |zs| == 1 && zs[0].cached == |PackedBytes(v.ns)| <= INT_MAX
    case _ => true
  }

  ghost predicate CachesMany(schema: Schema, ms: seq<Message>, zs: seq<Sizes>)
    decreases schema, 1
  {
    |zs| == |ms| && forall k :: 0 <= k < |ms| ==> Caches(schema, ms[k], zs[k])
  }

  /** A size computed in size_t agrees with the true one, up to the 2 GiB that are refused. */
  ghost predicate Agrees(size: nat, exact: nat) {
    (exact <= INT_MAX ==> size == exact) && (exact > INT_MAX ==> size > INT_MAX)
  }

  lemma AgreesSum(a: nat, x: nat, b: nat, y: nat)
    requires Agrees(a, x) && Agrees(b, y)
    ensures Agrees(a + b, x + y)
  {
  }

  /** A submessage or string with its prefix; the prefix is sized after a cast to 32 bits. */
  function LengthDelimitedSize(length: nat): nat { length + VarintSize(length % TWO32) }

  lemma LengthDelimitedAgrees(length: nat, b: seq<Byte>)
    requires Agrees(length, |b|)
    ensures Agrees(LengthDelimitedSize(length), |Prefixed(b)|)
  {
    hide Varint, VarintSize;
    if |b| <= INT_MAX {
      VarintSizeIsLength(|b|);
    }
  }

  // ----- first pass -----

  lemma {:induction false} PackedAppend(ns: seq<nat>, k: nat)
    requires k < |ns|
    ensures PackedBytes(ns[..k + 1]) == PackedBytes(ns[..k]) + Varint(ns[k])
  {
    hide Varint;
    if k > 0 {
      PackedAppend(ns[1..], k - 1);
      assert ns[..k + 1][1..] == ns[1..][..k] && ns[..k][1..] == ns[1..][..k - 1];
    }
  }

  lemma {:induction false} UnknownsAppend(us: seq<Unknown>, k: nat)
    requires k < |us|
    ensures UnknownsBytes(us[..k + 1]) == UnknownsBytes(us[..k]) + UnknownFieldBytes(us[k])
    decreases us
  {
    hide UnknownFieldBytes;
    if k > 0 {
      UnknownsAppend(us[1..], k - 1);
      assert us[..k + 1][1..] == us[1..][..k] && us[..k][1..] == us[1..][..k - 1];
    }
  }

  lemma {:induction false} ManyAppend(num: nat, schema: Schema, ms: seq<Message>, k: nat)
    requires k < |ms|
    ensures ManyBytes(num, schema, ms[..k + 1])
            == ManyBytes(num, schema, ms[..k]) + (Varint(Tag(num, 2)) + Prefixed(Bytes(schema, ms[k])))
    decreases |ms|
  {
    hide Varint, Prefixed, Bytes, ManyBytes;
    var one, rest := Varint(Tag(num, 2)) + Prefixed(Bytes(schema, ms[0])), ms[1..];
    ManyStep(num, schema, ms[..k + 1]);
    assert ms[..k + 1][1..] == rest[..k];
    if k == 0 {
      ManyNone(num, schema);
      assert ms[..0] == [] && rest[..0] == [] && one + [] == [] + one;
    } else {
      ManyStep(num, schema, ms[..k]);
      assert ms[..k][1..] == rest[..k - 1] && rest[k - 1] == ms[k];
      ManyAppend(num, schema, rest, k - 1);
      var front, last := ManyBytes(num, schema, rest[..k - 1]), Varint(Tag(num, 2)) + Prefixed(Bytes(schema, ms[k]));
      assert one + (front + last) == one + front + last;
    }
  }

  lemma ManyStep(num: nat, schema: Schema, ms: seq<Message>)
    requires ms != []
    ensures ManyBytes(num, schema, ms)
            == Varint(Tag(num, 2)) + Prefixed(Bytes(schema, ms[0])) + ManyBytes(num, schema, ms[1..])
  {
    hide Varint, Prefixed, Bytes;
  }

  lemma ManyNone(num: nat, schema: Schema)
    ensures ManyBytes(num, schema, []) == []
  {
  }

  /** The bytes of the first i fields. */
  ghost function FieldsBytes(schema: Schema, m: Message, i: nat): seq<Byte>
    requires i <= |schema.fields| == |m.vals|
  {
    if i == 0 then []
    else FieldsBytes(schema, m, i - 1)
         + ValueBytes(schema.fields[i - 1].num, schema.fields[i - 1].kind, m.vals[i - 1])
  }

  lemma {:induction false} SplitBytes(schema: Schema, m: Message, i: nat)
    requires i <= |schema.fields| == |m.vals|
    ensures Bytes(schema, m) == FieldsBytes(schema, m, i) + BytesFrom(schema, m, i)
  {
    hide ValueBytes;
    if i > 0 {
      SplitBytes(schema, m, i - 1);
    }
  }

  /** UInt64Size of a repeated field. */
  method PackedSize(ns: seq<nat>) returns (size: nat)
    requires forall k :: 0 <= k < |ns| ==> ns[k] < TWO64
    ensures size == |PackedBytes(ns)|
  {
    hide Varint, VarintSize;
    size := 0;
    for k := 0 to |ns|
      invariant size == |PackedBytes(ns[..k])|
    {
      VarintSizeIsLength(ns[k]);
      PackedAppend(ns, k);
      size := size + VarintSize(ns[k]);
    }
    assert ns[..|ns|] == ns;
  }

  method UnknownSize(u: Unknown) returns (size: nat)
    requires WfUnknown(u)
    ensures Agrees(size, |UnknownFieldBytes(u)|)
    decreases u, 0
  {
    hide Varint, VarintSize, Prefixed;
    CodecLaws.UnknownTag(u);
    var tag := Tag(u.num, WireType(u));
    VarintSizeIsLength(tag);
    size := VarintSize(tag);
    match u {
      case UnknownVarint(_, v) =>
        VarintSizeIsLength(v);
        size := size + VarintSize(v);
      case UnknownFixed64(_, _) => size := size + 8;
      case UnknownFixed32(_, _) => size := size + 4;
      case UnknownBytes(_, s) =>
        LengthDelimitedAgrees(|s|, s);
        size := size + LengthDelimitedSize(|s|);
      case UnknownGroup(num, fields) =>
        var inner := UnknownsSize(fields);
        VarintSizeIsLength(Tag(num, 4));
        size := size + inner + VarintSize(Tag(num, 4));
    }
  }

  /** ComputeUnknownFieldsSize. */
  method UnknownsSize(us: seq<Unknown>) returns (size: nat)
    requires WfUnknowns(us)
    ensures Agrees(size, |UnknownsBytes(us)|)
    decreases us, 1
  {
    hide UnknownFieldBytes, Agrees;
    size := 0;
    ZeroAgrees();
    for k := 0 to |us|
      invariant Agrees(size, |UnknownsBytes(us[..k])|)
    {
      var one := UnknownSize(us[k]);
      UnknownsAppend(us, k);
      AgreesSum(size, |UnknownsBytes(us[..k])|, one, |UnknownFieldBytes(us[k])|);
      size := size + one;
    }
    assert us[..|us|] == us;
  }

  lemma ZeroAgrees()
    ensures Agrees(0, 0)
  {
  }

  /** A known field's tag is one byte. */
  lemma TagByte(num: nat, wireType: nat)
    requires num < 16 && wireType < 8
    ensures |Varint(Tag(num, wireType))| == 1
  {
  }

  /** The size of a singular number field, tag included. */
  method NumberSize(num: nat, kind: Kind, n: nat) returns (size: nat)
    requires num < 16 && IsValue(kind, Num(n)) && (kind.UInt64? || kind.Bool? || kind.Enum? || kind.Float?)
    ensures size == |ValueBytes(num, kind, Num(n))|
  {
    hide Varint, VarintSize, Fixed;
    TagByte(num, 0);
    TagByte(num, 5);
    if n == 0 {
      return 0;
    }
    match kind {
      case UInt64 =>
        VarintSizeIsLength(n);
        size := VarintSize(n) + 1;
      case Bool =>
        assert |Varint(n)| == 1 by { VarintSizeIsLength(n); OneByte(n); }
        size := 1 + 1;
      case Enum =>
        CodecLaws.SignExtends(n);
        VarintSizeIsLength(SignExtended(n));
        size := 1 + VarintSize(SignExtended(n));
      case Float => size := 1 + 4;
    }
  }

  lemma OneByte(n: nat)
    requires n < 128
    ensures |Varint(n)| == 1
  {
  }

  /** The size of one field; the sizes of its parts are cached on the way. */
  method FieldSize(num: nat, kind: Kind, v: Value) returns (size: nat, zs: seq<Sizes>)
    requires num < 16 && WfKind(kind) && IsValue(kind, v)
    ensures Agrees(size, |ValueBytes(num, kind, v)|)
    ensures |ValueBytes(num, kind, v)| <= INT_MAX ==> CachesValue(kind, v, zs)
    decreases kind, 0
  {
    hide Varint, VarintSize, Prefixed, Bytes, WfSchema, IsMessage;
    TagByte(num, 2);
    size, zs := 0, [];
    match kind {
      case Text =>
        if v.s != [] {
          LengthDelimitedAgrees(|v.s|, v.s);
          size := 1 + LengthDelimitedSize(|v.s|);
        }
      case Sub(schema) =>
        if v.m.Some? {
          var inner, z := ByteSizeLong(schema, v.m.value);
          LengthDelimitedAgrees(inner, Bytes(schema, v.m.value));
          PrefixedLength(Bytes(schema, v.m.value));
          size, zs := 1 + LengthDelimitedSize(inner), [z];
        }
      case RepeatedSub(schema) =>
        size, zs := ManySize(num, schema, v.ms);
      case RepeatedUInt64 =>
        size, zs := PackedFieldSize(num, v.ns);
      case UInt64 => size := NumberSize(num, kind, v.n);
      case Bool => size := NumberSize(num, kind, v.n);
      case Enum => size := NumberSize(num, kind, v.n);
      case Float => size := NumberSize(num, kind, v.n);
    }
  }

  method PackedFieldSize(num: nat, ns: seq<nat>) returns (size: nat, zs: seq<Sizes>)
    requires num < 16 && IsValue(RepeatedUInt64, Nums(ns))
    ensures Agrees(size, |ValueBytes(num, RepeatedUInt64, Nums(ns))|)
    ensures |ValueBytes(num, RepeatedUInt64, Nums(ns))| <= INT_MAX ==> CachesValue(RepeatedUInt64, Nums(ns), zs)
  {
    hide Varint, VarintSize, Prefixed;
    TagByte(num, 2);
    size := 0;
    var data := PackedSize(ns);
    CachedSmall(data);
    if data > 0 {
      LengthDelimitedAgrees(data, PackedBytes(ns));
      PrefixedLength(PackedBytes(ns));
      // Int32Size of the size cast to int32: ten bytes when the cast makes it negative
      size := 1 + (if ToCachedSize(data) < 0 then 10 else VarintSize(data % TWO32));
    }
    size, zs := size + data, [Sizes(ToCachedSize(data), [])];
  }

  lemma CachedSmall(size: nat)
    ensures size <= INT_MAX ==> ToCachedSize(size) == size
  {
  }

  lemma PrefixedLength(b: seq<Byte>)
    ensures |Prefixed(b)| > |b|
  {
  }

  method ManySize(num: nat, schema: Schema, ms: seq<Message>) returns (size: nat, zs: seq<Sizes>)
    requires num < 16 && WfSchema(schema) && forall k :: 0 <= k < |ms| ==> IsMessage(schema, ms[k])
    ensures Agrees(size, |ManyBytes(num, schema, ms)|)
    ensures |ManyBytes(num, schema, ms)| <= INT_MAX ==> CachesMany(schema, ms, zs)
    decreases schema, 2
  {
    hide Varint, VarintSize, Prefixed, Bytes, WfSchema, IsMessage, Caches;
    TagByte(num, 2);
    size, zs := |ms|, [];
    ghost var exact := 0;
    for k := 0 to |ms|
      invariant |zs| == k && exact == |ManyBytes(num, schema, ms[..k])|
      invariant size >= |ms| - k && Agrees(size - (|ms| - k), exact)
      invariant exact <= INT_MAX ==> forall j :: 0 <= j < k ==> Caches(schema, ms[j], zs[j])
    {
      var inner, z := ByteSizeLong(schema, ms[k]);
      LengthDelimitedAgrees(inner, Bytes(schema, ms[k]));
      PrefixedLength(Bytes(schema, ms[k]));
      ManyAppend(num, schema, ms, k);
      size := size + LengthDelimitedSize(inner);
      zs := zs + [z];
      exact := |ManyBytes(num, schema, ms[..k + 1])|;
    }
    assert ms[..|ms|] == ms;
  }

  /** Sums the sizes of the fields and of the unknown fields, and caches the result. */
  method ByteSizeLong(schema: Schema, m: Message) returns (total: nat, z: Sizes)
    requires WfSchema(schema) && IsMessage(schema, m)
    ensures Agrees(total, |Bytes(schema, m)|)
    ensures |Bytes(schema, m)| <= INT_MAX ==> Caches(schema, m, z)
    decreases schema, 1
  {
    hide ValueBytes, UnknownsBytes, IsValue, WfUnknown, Foreign, CachesValue, WfKind;
    total := 0;
    var parts: seq<seq<Sizes>> := [];
    for i := 0 to |schema.fields|
      invariant |parts| == i && Agrees(total, |FieldsBytes(schema, m, i)|)
      invariant |FieldsBytes(schema, m, i)| <= INT_MAX ==>
                  forall j :: 0 <= j < i ==> CachesValue(schema.fields[j].kind, m.vals[j], parts[j])
    {
      var size, zs := FieldSize(schema.fields[i].num, schema.fields[i].kind, m.vals[i]);
      total, parts := total + size, parts + [zs];
    }
    if m.unknown != [] {
      var extra := UnknownsSize(m.unknown);
      total := total + extra;
    }
    SplitBytes(schema, m, |schema.fields|);
    NoUnknowns(m.unknown);
    z := Sizes(ToCachedSize(total), parts);
  }

  lemma NoUnknowns(us: seq<Unknown>)
    ensures us == [] ==> UnknownsBytes(us) == []
  {
  }

  // ----- second pass -----

  /** The fields of a group and the tag that ends it. */
  method WriteGroup(target: array<Byte>, p: nat, num: nat, fields: seq<Unknown>) returns (q: nat)
    requires WfUnknowns(fields) && p + |UnknownsBytes(fields) + Varint(Tag(num, 4))| <= target.Length
    modifies target
    ensures var bytes := UnknownsBytes(fields) + Varint(Tag(num, 4));
            q == p + |bytes| && Wrote(old(target[..]), p, bytes, target[..])
    decreases fields, 2
  {
    hide Varint, Wrote, UnknownsBytes;
    q := WriteUnknowns(target, p, fields);
    ghost var inside := target[..];
    q := WriteVarint(target, q, Tag(num, 4));
    WroteMore(old(target[..]), p, UnknownsBytes(fields), inside, Varint(Tag(num, 4)), target[..]);
  }

  method WriteUnknown(target: array<Byte>, p: nat, u: Unknown) returns (q: nat)
    requires WfUnknown(u) && p + |UnknownFieldBytes(u)| <= target.Length
    modifies target
    ensures q == p + |UnknownFieldBytes(u)| && Wrote(old(target[..]), p, UnknownFieldBytes(u), target[..])
    decreases u, 0
  {
    hide Varint, Fixed, Wrote;
    ghost var start := target[..];
    var tag := Tag(u.num, WireType(u));
    q := WriteVarint(target, p, tag);
    ghost var tagged := target[..];
    match u {
      case UnknownVarint(_, v) => q := WriteVarint(target, q, v);
      case UnknownFixed64(_, v) => q := WriteFixed(target, q, v, 8);
      case UnknownFixed32(_, v) => q := WriteFixed(target, q, v, 4);
      case UnknownBytes(_, s) => q := WritePrefixed(target, q, s);
      case UnknownGroup(num, fields) =>
        q := WriteGroup(target, q, num, fields);
    }
    WroteMore(start, p, Varint(tag), tagged, UnknownPayload(u), target[..]);
  }

  /** A length and that many bytes. */
  method WritePrefixed(target: array<Byte>, p: nat, s: seq<Byte>) returns (q: nat)
    requires p + |Prefixed(s)| <= target.Length
    modifies target
    ensures q == p + |Prefixed(s)| && Wrote(old(target[..]), p, Prefixed(s), target[..])
  {
    hide Varint, Wrote;
    q := UnsafeWriteSize(target, p, |s|);
    ghost var middle := target[..];
    q := WriteRaw(target, q, s);
    WroteMore(old(target[..]), p, Varint(|s|), middle, s, target[..]);
  }

  /** InternalSerializeUnknownFieldsToArray. */
  method WriteUnknowns(target: array<Byte>, p: nat, us: seq<Unknown>) returns (q: nat)
    requires WfUnknowns(us) && p + |UnknownsBytes(us)| <= target.Length
    modifies target
    ensures q == p + |UnknownsBytes(us)| && Wrote(old(target[..]), p, UnknownsBytes(us), target[..])
    decreases us, 1
  {
    hide UnknownFieldBytes, Wrote;
    q := p;
    WroteNothing(target[..], p);
    for k := 0 to |us|
      invariant q == p + |UnknownsBytes(us[..k])|
      invariant Wrote(old(target[..]), p, UnknownsBytes(us[..k]), target[..])
    {
      UnknownsAppend(us, k);
      UnknownsPrefix(us, k + 1);
      ghost var before := target[..];
      q := WriteUnknown(target, q, us[k]);
      WroteMore(old(target[..]), p, UnknownsBytes(us[..k]), before, UnknownFieldBytes(us[k]), target[..]);
    }
    assert us[..|us|] == us;
  }

  lemma {:induction false} UnknownsPrefix(us: seq<Unknown>, k: nat)
    requires k <= |us|
    ensures |UnknownsBytes(us[..k])| <= |UnknownsBytes(us)|
    decreases |us| - k
  {
    hide UnknownFieldBytes;
    if k < |us| {
      UnknownsAppend(us, k);
      UnknownsPrefix(us, k + 1);
    } else {
      assert us[..k] == us;
    }
  }

  lemma {:induction false} ManyPrefix(num: nat, schema: Schema, ms: seq<Message>, k: nat)
    requires k <= |ms|
    ensures |ManyBytes(num, schema, ms[..k])| <= |ManyBytes(num, schema, ms)|
    decreases |ms| - k
  {
    hide Bytes, Prefixed, Varint;
    if k < |ms| {
      ManyAppend(num, schema, ms, k);
      ManyPrefix(num, schema, ms, k + 1);
    } else {
      assert ms[..k] == ms;
    }
  }

  /** WriteLengthDelim: a tag and a cached size, cast back to an unsigned word. */
  method WriteLengthDelim(target: array<Byte>, p: nat, num: nat, size: int) returns (q: nat)
    requires 0 <= size <= INT_MAX && p + |Varint(Tag(num, 2))| + |Varint(size)| <= target.Length
    modifies target
    ensures var bytes := Varint(Tag(num, 2)) + Varint(size);
            q == p + |bytes| && Wrote(old(target[..]), p, bytes, target[..])
  {
    hide Varint, Wrote;
    ghost var start := target[..];
    q := WriteVarint(target, p, Tag(num, 2));
    ghost var tagged := target[..];
    SmallWord(size);
    q := UnsafeWriteSize(target, q, size % TWO32);
    WroteMore(start, p, Varint(Tag(num, 2)), tagged, Varint(size), target[..]);
  }

  /** WriteUInt64Packed: the cached size as length prefix, then the numbers. */
  method WritePacked(target: array<Byte>, p: nat, num: nat, size: int, ns: seq<nat>) returns (q: nat)
    requires size == |PackedBytes(ns)| <= INT_MAX
    requires p + |Varint(Tag(num, 2))| + |Prefixed(PackedBytes(ns))| <= target.Length
    modifies target
    ensures var bytes := Varint(Tag(num, 2)) + Prefixed(PackedBytes(ns));
            q == p + |bytes| && Wrote(old(target[..]), p, bytes, target[..])
  {
    hide Varint, Wrote;
    ghost var start := target[..];
    q := WriteLengthDelim(target, p, num, size);
    ghost var prefix := Varint(Tag(num, 2)) + Varint(size);
    ghost var prefixed := target[..];
    q := WriteNumbers(target, q, ns);
    WroteMore(start, p, prefix, prefixed, PackedBytes(ns), target[..]);
    assert prefix + PackedBytes(ns) == Varint(Tag(num, 2)) + Prefixed(PackedBytes(ns));
  }

  method WriteNumbers(target: array<Byte>, p: nat, ns: seq<nat>) returns (q: nat)
    requires p + |PackedBytes(ns)| <= target.Length
    modifies target
    ensures q == p + |PackedBytes(ns)| && Wrote(old(target[..]), p, PackedBytes(ns), target[..])
  {
    hide Varint, Wrote;
    q := p;
    WroteNothing(target[..], p);
    for k := 0 to |ns|
      invariant q == p + |PackedBytes(ns[..k])|
      invariant Wrote(old(target[..]), p, PackedBytes(ns[..k]), target[..])
    {
      PackedAppend(ns, k);
      PackedPrefix(ns, k + 1);
      ghost var before := target[..];
      q := WriteVarint(target, q, ns[k]);
      WroteMore(old(target[..]), p, PackedBytes(ns[..k]), before, Varint(ns[k]), target[..]);
    }
    assert ns[..|ns|] == ns;
  }

  lemma {:induction false} PackedPrefix(ns: seq<nat>, k: nat)
    requires k <= |ns|
    ensures |PackedBytes(ns[..k])| <= |PackedBytes(ns)|
    decreases |ns| - k
  {
    hide Varint;
    if k < |ns| {
      PackedAppend(ns, k);
      PackedPrefix(ns, k + 1);
    } else {
      assert ns[..k] == ns;
    }
  }

  method WriteMessagePrefix(target: array<Byte>, p: nat, num: nat, size: int) returns (q: nat)
    requires 0 <= size <= INT_MAX && p + |Varint(Tag(num, 2))| + |Varint(size)| <= target.Length
    modifies target
    ensures var bytes := Varint(Tag(num, 2)) + Varint(size);
            q == p + |bytes| && Wrote(old(target[..]), p, bytes, target[..])
  {
    hide Varint, Wrote;
    ghost var start := target[..];
    q := WriteVarint(target, p, Tag(num, 2));
    ghost var tagged := target[..];
    SmallWord(size);
    q := WriteVarint(target, q, size % TWO32);
    WroteMore(start, p, Varint(Tag(num, 2)), tagged, Varint(size), target[..]);
  }

  /** InternalWriteMessage: tag, cached size, contents. */
  method WriteMessage(target: array<Byte>, p: nat, num: nat, schema: Schema, m: Message, z: Sizes) returns (q: nat)
    requires WfSchema(schema) && IsMessage(schema, m) && Caches(schema, m, z)
    requires p + |Varint(Tag(num, 2))| + |Prefixed(Bytes(schema, m))| <= target.Length
    modifies target
    ensures var bytes := Varint(Tag(num, 2)) + Prefixed(Bytes(schema, m));
            q == p + |bytes| && Wrote(old(target[..]), p, bytes, target[..])
    decreases schema, 2
  {
    hide Varint, Wrote, Bytes, WfSchema, IsMessage, Caches;
    ghost var start := target[..];
    CachedIsLength(schema, m, z);
    q := WriteMessagePrefix(target, p, num, z.cached);
    ghost var prefix := Varint(Tag(num, 2)) + Varint(|Bytes(schema, m)|);
    ghost var prefixed := target[..];
    q := InternalSerialize(target, q, schema, m, z);
    WroteMore(start, p, prefix, prefixed, Bytes(schema, m), target[..]);
    assert prefix + Bytes(schema, m) == Varint(Tag(num, 2)) + Prefixed(Bytes(schema, m));
  }

  lemma CachedIsLength(schema: Schema, m: Message, z: Sizes)
    requires Caches(schema, m, z)
    ensures z.cached == |Bytes(schema, m)| <= INT_MAX
  {
  }

  method WriteMany(target: array<Byte>, p: nat, num: nat, schema: Schema, ms: seq<Message>, zs: seq<Sizes>)
    returns (q: nat)
    requires WfSchema(schema) && CachesMany(schema, ms, zs) && forall k :: 0 <= k < |ms| ==> IsMessage(schema, ms[k])
    requires p + |ManyBytes(num, schema, ms)| <= target.Length
    modifies target
    ensures q == p + |ManyBytes(num, schema, ms)| && Wrote(old(target[..]), p, ManyBytes(num, schema, ms), target[..])
    decreases schema, 3
  {
    hide Varint, Wrote, Bytes, WfSchema, IsMessage, Caches, Prefixed;
    q := p;
    WroteNothing(target[..], p);
    for k := 0 to |ms|
      invariant q == p + |ManyBytes(num, schema, ms[..k])|
      invariant Wrote(old(target[..]), p, ManyBytes(num, schema, ms[..k]), target[..])
    {
      ManyAppend(num, schema, ms, k);
      ManyPrefix(num, schema, ms, k + 1);
      ghost var before := target[..];
      q := WriteMessage(target, q, num, schema, ms[k], zs[k]);
      WroteMore(old(target[..]), p, ManyBytes(num, schema, ms[..k]), before,
                Varint(Tag(num, 2)) + Prefixed(Bytes(schema, ms[k])), target[..]);
    }
    assert ms[..|ms|] == ms;
  }

  method WriteNumber(target: array<Byte>, p: nat, num: nat, kind: Kind, n: nat) returns (q: nat)
    requires IsValue(kind, Num(n)) && (kind.UInt64? || kind.Bool? || kind.Enum? || kind.Float?)
    requires p + |ValueBytes(num, kind, Num(n))| <= target.Length
    modifies target
    ensures var bytes := ValueBytes(num, kind, Num(n));
            q == p + |bytes| && Wrote(old(target[..]), p, bytes, target[..])
  {
    hide Varint, Fixed, Wrote;
    ghost var start := target[..];
    if n == 0 {
      WroteNothing(start, p);
      return p;
    }
    var wireType := if kind.Float? then 5 else 0;
    q := WriteVarint(target, p, Tag(num, wireType));
    ghost var tagged := target[..];
    if kind.Float? {
      q := WriteFixed(target, q, n, 4);
      WroteMore(start, p, Varint(Tag(num, 5)), tagged, Fixed(n, 4), target[..]);
    } else {
      var word := if kind.Enum? then SignExtended(n) else n;
      q := WriteVarint(target, q, word);
      WroteMore(start, p, Varint(Tag(num, 0)), tagged, Varint(word), target[..]);
    }
  }

  method WriteField(target: array<Byte>, p: nat, num: nat, kind: Kind, v: Value, zs: seq<Sizes>) returns (q: nat)
    requires WfKind(kind) && IsValue(kind, v) && CachesValue(kind, v, zs)
    requires p + |ValueBytes(num, kind, v)| <= target.Length
    modifies target
    ensures q == p + |ValueBytes(num, kind, v)| && Wrote(old(target[..]), p, ValueBytes(num, kind, v), target[..])
    decreases kind, 0
  {
    hide Varint, Wrote, Bytes, WfSchema, IsMessage, Caches, Prefixed, Fixed;
    ghost var start := target[..];
    WroteNothing(start, p);
    q := p;
    match kind {
      case Text =>
        if v.s != [] {
          q := WriteVarint(target, p, Tag(num, 2));
          ghost var tagged := target[..];
          q := WritePrefixed(target, q, v.s);
          WroteMore(start, p, Varint(Tag(num, 2)), tagged, Prefixed(v.s), target[..]);
        }
      case Sub(schema) =>
        if v.m.Some? {
          q := WriteMessage(target, p, num, schema, v.m.value, zs[0]);
        }
      case RepeatedSub(schema) =>
        q := WriteMany(target, p, num, schema, v.ms, zs);
      case RepeatedUInt64 =>
        if zs[0].cached > 0 {
          q := WritePacked(target, p, num, zs[0].cached, v.ns);
        }
      case UInt64 => q := WriteNumber(target, p, num, kind, v.n);
      case Bool => q := WriteNumber(target, p, num, kind, v.n);
      case Enum => q := WriteNumber(target, p, num, kind, v.n);
      case Float => q := WriteNumber(target, p, num, kind, v.n);
    }
  }

  /** With the sizes ByteSizeLong cached, writes exactly the message's bytes. */
  method InternalSerialize(target: array<Byte>, p: nat, schema: Schema, m: Message, z: Sizes) returns (q: nat)
    requires WfSchema(schema) && IsMessage(schema, m) && Caches(schema, m, z)
    requires p + |Bytes(schema, m)| <= target.Length
    modifies target
    ensures q == p + |Bytes(schema, m)| && Wrote(old(target[..]), p, Bytes(schema, m), target[..])
    decreases schema, 1
  {
    hide ValueBytes, UnknownsBytes, IsValue, WfUnknown, Foreign, CachesValue, WfKind, Wrote, BytesFrom;
    q := p;
    WroteNothing(target[..], p);
    for i := 0 to |schema.fields|
      invariant q == p + |FieldsBytes(schema, m, i)|
      invariant Wrote(old(target[..]), p, FieldsBytes(schema, m, i), target[..])
    {
      var f := schema.fields[i];
      SplitBytes(schema, m, i + 1);
      ghost var before := target[..];
      q := WriteField(target, q, f.num, f.kind, m.vals[i], z.parts[i]);
      WroteMore(old(target[..]), p, FieldsBytes(schema, m, i), before, ValueBytes(f.num, f.kind, m.vals[i]),
        target[..]);
    }
    SplitBytes(schema, m, |schema.fields|);
    LastBytes(schema, m);
    assert FieldsBytes(schema, m, |schema.fields|) + UnknownsBytes(m.unknown) == Bytes(schema, m);
    if m.unknown != [] {
      ghost var before := target[..];
      q := WriteUnknowns(target, q, m.unknown);
      WroteMore(old(target[..]), p, FieldsBytes(schema, m, |schema.fields|), before, UnknownsBytes(m.unknown),
        target[..]);
    } else {
      NoUnknowns(m.unknown);
      assert FieldsBytes(schema, m, |schema.fields|) == Bytes(schema, m);
    }
  }

  lemma LastBytes(schema: Schema, m: Message)
    requires |m.vals| == |schema.fields|
    ensures BytesFrom(schema, m, |schema.fields|) == UnknownsBytes(m.unknown)
  {
  }

  /** SerializeToArray: both passes; refuses what exceeds 2 GiB or the caller's buffer. */
  method SerializeToArray(target: array<Byte>, p: nat, size: nat, schema: Schema, m: Message) returns (ok: bool)
    requires WfSchema(schema) && IsMessage(schema, m) && p + size <= target.Length
    modifies target
    ensures ok <==> |Bytes(schema, m)| <= 0x7FFF_FFFF && |Bytes(schema, m)| <= size
    ensures ok ==> Wrote(old(target[..]), p, Bytes(schema, m), target[..])
    ensures !ok ==> target[..] == old(target[..])
  {
    hide Wrote, Bytes, WfSchema, IsMessage, Caches;
    var total, z := ByteSizeLong(schema, m);
    if total > INT_MAX || size < total {
      return false;
    }
    var q := InternalSerialize(target, p, schema, m, z);
    return true;
  }

  // ----- merging -----

  /** MergeImpl: one field after the other into the message, then its unknown fields. */
  method MergeImpl(schema: Schema, to0: Message, from: Message) returns (to: Message)
    requires IsMessage(schema, to0) && IsMessage(schema, from)
    ensures to == Merged(schema, to0, from)
    decreases schema, 1
  {
    hide MergedValue, IsValue, WfUnknown, Foreign;
    to := to0;
    for i := 0 to |schema.fields|
      invariant |to.vals| == |schema.fields| && to.vals[i..] == to0.vals[i..]
      invariant MergedFrom(schema, to, from, i) == Merged(schema, to0, from)
    {
      var v := MergeField(schema.fields[i].kind, to.vals[i], from.vals[i]);
      to := to.(vals := to.vals[i := v]);
    }
    to := to.(unknown := to.unknown + from.unknown);
  }

  method MergeField(kind: Kind, to: Value, from: Value) returns (v: Value)
    requires IsValue(kind, to) && IsValue(kind, from)
    ensures v == MergedValue(kind, to, from)
    decreases kind, 0
  {
    hide Merged, IsMessage, Held;
    v := to;
    match kind {
      case Text =>
        if from.s != [] {
          v := from;
        }
      case Sub(schema) =>
        if from.m.Some? {
          CodecLaws.HeldIsMessage(schema, to);
          var merged := MergeImpl(schema, Held(schema, to), from.m.value);
          v := One(Some(merged));
        }
      case RepeatedSub(_) => v := Many(to.ms + from.ms);
      case RepeatedUInt64 => v := Nums(to.ns + from.ns);
      case UInt64 | Bool | Enum | Float =>
        if from.n != 0 {
          v := from;
        }
    }
  }

  /** CopyFrom: clear, then merge. */
  method CopyFrom(schema: Schema, to0: Message, from: Message) returns (to: Message)
    requires IsMessage(schema, to0) && IsMessage(schema, from)
    ensures to == from
  {
    hide IsMessage, Merged;
    CodecLaws.EmptyIsMessage(schema);
    to := MergeImpl(schema, Empty(schema), from);
    CodecLaws.MergeIntoEmpty(schema, from);
  }
}
