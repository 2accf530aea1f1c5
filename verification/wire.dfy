/** The primitives of the Protocol Buffers wire format: base 128 varints, fixed-width words
    and length prefixes, as mathematics and as the library's byte loops. */
module Wire {
  import opened Bits

  type Byte = x: int | 0 <= x < 256

  const TWO32: nat := 0x1_0000_0000
  const MAX_SIZE: nat := 0x7FFF_FFEF  // INT_MAX - kSlopBytes

  /** The outcome of reading from the front of some bytes: a value and the bytes left over. */
  datatype Parsed<T> = Bad | Good(value: T, rest: seq<Byte>)

  /** What is left of b after reading something from its front. */
  ghost predicate Tail(rest: seq<Byte>, b: seq<Byte>) {
    |rest| < |b| && rest == b[|b| - |rest|..]
  }

  // ----- varints -----

  /** Base 128 varint: seven bits a byte, least significant first, 128 added to all but the last. */
  function Varint(v: nat): (b: seq<Byte>)
    ensures b != []
  {
    if v < 128 then [v] else [128 + v % 128] + Varint(v / 128)
  }

  /** Reads a varint of at most `max` bytes. */
  function ReadVarint(b: seq<Byte>, max: nat): (r: Parsed<nat>)
    ensures r.Good? ==> Tail(r.rest, b)
  {
    if max == 0 || b == [] then Bad
    else if b[0] < 128 then Good(b[0], b[1..])
    else match ReadVarint(b[1..], max - 1)
      case Good(v, rest) => Good(b[0] - 128 + 128 * v, rest)
      case Bad => Bad
  }

  lemma ReadMore(b: seq<Byte>, rest: seq<Byte>, max: nat)
    requires b != [] && b[0] >= 128 && b[1..] == rest && max > 0
    ensures ReadVarint(b, max) == (match ReadVarint(rest, max - 1)
                                   case Good(v, r) => Good(b[0] - 128 + 128 * v, r)
                                   case Bad => Bad)
  {
  }

  lemma SevenBits(v: nat)
    ensures v == 128 * (v / 128) + v % 128
  {
  }

  lemma VarintMore(v: nat, rest: seq<Byte>)
    requires v >= 128
    ensures var b := Varint(v) + rest;
            b != [] && b[0] == 128 + v % 128 && b[1..] == Varint(v / 128) + rest && |Varint(v)| == 1 + |Varint(v / 128)|
  {
  }

  lemma VarintOne(v: nat, rest: seq<Byte>, max: nat)
    requires v < 128 && max > 0
    ensures ReadVarint(Varint(v) + rest, max) == Good(v, rest)
  {
  }

  lemma {:induction false} VarintRoundTrip(v: nat, rest: seq<Byte>, max: nat)
    requires |Varint(v)| <= max
    ensures ReadVarint(Varint(v) + rest, max) == Good(v, rest)
  {
    hide Varint, ReadVarint;
    if v < 128 {
      VarintOne(v, rest, max);
    } else {
      VarintMore(v, rest);
      VarintRoundTrip(v / 128, rest, max - 1);
      ReadMore(Varint(v) + rest, Varint(v / 128) + rest, max);
      SevenBits(v);
    }
  }

  /** The number of bytes is the number of groups of seven bits. */
  lemma {:induction false} VarintLength(v: nat)
    ensures |Varint(v)| == (if v == 0 then 0 else Log2Floor(v)) / 7 + 1
  {
    if v >= 128 {
      VarintLength(v / 128);
      Log2Of128(v);
    } else if v > 0 {
      Log2Below128(v);
    }
  }

  lemma DivTwice(x: nat, a: nat, b: nat)
    requires a > 0 && b > 0
    ensures a * b > 0 && x / a / b == x / (a * b)
  {
    var q, r := Divided(x, a);
    var q2, r2 := Divided(q, b);
    Regroup(a, b, q2, r2, r);
    var ab := a * b;
    DivModUnique(x, ab, q2, r2 * a + r);
  }

  lemma Divided(x: nat, m: nat) returns (q: nat, r: nat)
    requires m > 0
    ensures x == q * m + r && r < m && q == x / m
  {
    q, r := x / m, x % m;
  }

  lemma Regroup(a: nat, b: nat, q: nat, s: nat, r: nat)
    requires s < b && r < a
    ensures a * b > 0 && (q * b + s) * a + r == q * (a * b) + (s * a + r)
    ensures s * a + r < a * b
  {
    assert (q * b + s) * a == q * b * a + s * a;
    assert q * b * a == q * (a * b);
    Below(a, b, s);
  }

  lemma Below(a: nat, b: nat, s: nat)
    requires s < b
    ensures s * a + a <= a * b
  {
    var d := b - 1 - s;
    assert a * b == a * (s + 1 + d);
    assert a * (s + 1 + d) == s * a + a + d * a;
    assert d * a >= 0;
  }

  /** Byte k holds the k-th group of seven bits, 128 added to all but the last. */
  lemma {:induction false} VarintDigits(v: nat, k: nat)
    requires k < |Varint(v)|
    ensures Varint(v)[k] == v / Pow2(7 * k) % 128 + if k < |Varint(v)| - 1 then 128 else 0
  {
    hide Pow2, Varint;
    VarintFirst(v);
    if k == 0 {
      Pow2Bytes();
      assert Pow2(7 * 0) == 1 by { Pow2Zero(); }
    } else {
      var p := Pow2(7 * (k - 1));
      VarintDigits(v / 128, k - 1);
      Pow2Add(7, 7 * (k - 1));
      Pow2Bytes();
      assert 7 * k == 7 + 7 * (k - 1);
      DivTwice(v, 128, p);
    }
  }

  lemma VarintFirst(v: nat)
    ensures v < 128 ==> Varint(v) == [v]
    ensures v >= 128 ==> Varint(v)[0] == 128 + v % 128 && Varint(v)[1..] == Varint(v / 128) && |Varint(v)| > 1
  {
  }

  lemma Pow2Zero()
    ensures Pow2(0) == 1
  {
  }

  lemma Log2Of128(v: nat)
    requires v >= 128
    ensures Log2Floor(v) == Log2Floor(v / 128) + 7
  {
    Log2Of8(v);
    Log2Of8(v / 8);
    assert Log2Floor(v / 64) == 1 + Log2Floor(v / 128);
  }

  lemma Log2Of8(v: nat)
    requires v >= 8
    ensures Log2Floor(v) == Log2Floor(v / 8) + 3
  {
    assert Log2Floor(v / 2) == 1 + Log2Floor(v / 4);
    assert Log2Floor(v / 4) == 1 + Log2Floor(v / 8);
  }

  lemma Log2Below128(v: nat)
    requires 0 < v < 128
    ensures Log2Floor(v) < 7
  {
    Pow2Bytes();
    Log2Bound(v, 7);
  }

  lemma {:induction false} Log2Bound(v: nat, k: nat)
    requires 0 < v < Pow2(k)
    ensures Log2Floor(v) < k
  {
    if v > 1 {
      Log2Bound(v / 2, k - 1);
    }
  }

  /** The size the library computes without looking at the bytes. */
  function VarintSize(v: nat): nat {
    ((if v == 0 then 0 else Log2Floor(v)) * 9 + 73) / 64
  }

  lemma VarintSizeIsLength(v: nat)
    requires v < TWO64
    ensures VarintSize(v) == |Varint(v)|
    ensures 1 <= VarintSize(v) <= 10
    ensures v < TWO32 ==> VarintSize(v) <= 5
  {
    var k := if v == 0 then 0 else Log2Floor(v);
    assert k < 64 && (v < TWO32 ==> k < 32) by {
      Pow2Word();
      assert Pow2(32) == TWO32 by { Pow2Bytes(); Square(8, 0x100); Square(16, 0x1_0000); }
      if v > 0 {
        Log2Bound(v, 64);
        if v < TWO32 {
          Log2Bound(v, 32);
        }
      }
    }
    VarintLength(v);
    NineSixtyFourths(k);
  }

  lemma NineSixtyFourths(k: nat)
    requires k < 64
    ensures (k * 9 + 73) / 64 == k / 7 + 1
    ensures (k * 9 + 73) / 64 <= 10 && (k < 32 ==> (k * 9 + 73) / 64 <= 5)
  {
    var q, r := k / 7, k % 7;
    assert k == 7 * q + r;
    assert 64 <= k * 9 + 73 - 64 * q < 128;
  }

  // ----- the words the library reads with varints -----

  function ReadUInt64(b: seq<Byte>): (r: Parsed<nat>)
    ensures r.Good? ==> Tail(r.rest, b) && r.value < TWO64
  {
    match ReadVarint(b, 10)
    case Good(v, rest) => Good(v % TWO64, rest)
    case Bad => Bad
  }

  function ReadTag(b: seq<Byte>): (r: Parsed<nat>)
    ensures r.Good? ==> Tail(r.rest, b) && r.value < TWO32
  {
    match ReadVarint(b, 5)
    case Good(v, rest) => Good(v % TWO32, rest)
    case Bad => Bad
  }

  function ReadSize(b: seq<Byte>): (r: Parsed<nat>)
    ensures r.Good? ==> Tail(r.rest, b) && r.value <= MAX_SIZE
  {
    match ReadVarint(b, 5)
    case Good(v, rest) => if v <= MAX_SIZE then Good(v, rest) else Bad
    case Bad => Bad
  }

  lemma UInt64RoundTrip(v: nat, rest: seq<Byte>)
    requires v < TWO64
    ensures ReadUInt64(Varint(v) + rest) == Good(v, rest)
  {
    hide Varint, ReadVarint, VarintSize;
    VarintSizeIsLength(v);
    VarintRoundTrip(v, rest, 10);
  }

  lemma TagRoundTrip(v: nat, rest: seq<Byte>)
    requires v < TWO32
    ensures ReadTag(Varint(v) + rest) == Good(v, rest)
  {
    hide Varint, ReadVarint, VarintSize;
    VarintSizeIsLength(v);
    VarintRoundTrip(v, rest, 5);
  }

  /** A length prefix is read back exactly when the reader's limit allows it. */
  lemma SizeRoundTrip(n: nat, rest: seq<Byte>)
    ensures ReadSize(Varint(n) + rest) == if n <= MAX_SIZE then Good(n, rest) else Bad
  {
    if |Varint(n)| <= 5 {
      VarintRoundTrip(n, rest, 5);
    } else {
      TooLong(n, rest, 5);
      if n <= MAX_SIZE {
        VarintSizeIsLength(n);
      }
    }
  }

  lemma {:induction false} TooLong(v: nat, rest: seq<Byte>, max: nat)
    requires |Varint(v)| > max
    ensures ReadVarint(Varint(v) + rest, max) == Bad
  {
    if max > 0 {
      TooLong(v / 128, rest, max - 1);
      assert (Varint(v) + rest)[1..] == Varint(v / 128) + rest;
    }
  }

  // ----- fixed-width words -----

  function Fixed(v: nat, n: nat): (b: seq<Byte>)
    ensures |b| == n
  {
    if n == 0 then [] else [v % 256] + Fixed(v / 256, n - 1)
  }

  function Word(b: seq<Byte>): nat {
    if b == [] then 0 else b[0] + 256 * Word(b[1..])
  }

  function ReadFixed(b: seq<Byte>, n: nat): (r: Parsed<nat>)
    requires n > 0
    ensures r.Good? ==> Tail(r.rest, b)
  {
    if |b| < n then Bad else Good(Word(b[..n]), b[n..])
  }

  function Pow256(n: nat): nat {
    if n == 0 then 1 else 256 * Pow256(n - 1)
  }

  /** Byte k of a word holds its bits 8k to 8k + 7. */
  lemma {:induction false} FixedDigits(v: nat, n: nat, k: nat)
    requires k < n
    ensures Pow256(k) > 0 && Fixed(v, n)[k] == v / Pow256(k) % 256
  {
    if k > 0 {
      FixedDigits(v / 256, n - 1, k - 1);
      DivTwice(v, 256, Pow256(k - 1));
    }
  }

  lemma {:induction false} WordOfFixed(v: nat, n: nat)
    requires v < Pow256(n)
    ensures Word(Fixed(v, n)) == v
  {
    if n > 0 {
      WordOfFixed(v / 256, n - 1);
    }
  }

  lemma {:induction false} WordBound(b: seq<Byte>)
    ensures Word(b) < Pow256(|b|)
  {
    if b != [] {
      WordBound(b[1..]);
    }
  }

  lemma FixedRoundTrip(v: nat, n: nat, rest: seq<Byte>)
    requires n > 0 && v < Pow256(n)
    ensures ReadFixed(Fixed(v, n) + rest, n) == Good(v, rest)
  {
    WordOfFixed(v, n);
    assert (Fixed(v, n) + rest)[..n] == Fixed(v, n);
  }

  lemma WordWidths()
    ensures Pow256(4) == TWO32 && Pow256(8) == TWO64
  {
    assert Pow256(4) == TWO32;
    assert Pow256(6) == 0x1_0000_0000_0000;
  }

  // ----- the library's varint loops -----

  /** v shifted left by i groups of seven bits. */
  function Shift(v: int, i: nat): (r: int)
    ensures v >= 0 ==> r >= 0
  {
    if i == 0 then v else 128 * Shift(v, i - 1)
  }

  lemma {:induction false} ShiftAdd(v: int, w: int, i: nat)
    ensures Shift(v + w, i) == Shift(v, i) + Shift(w, i)
    ensures Shift(128 * v, i) == Shift(v, i + 1) == 128 * Shift(v, i)
  {
    if i > 0 {
      ShiftAdd(v, w, i - 1);
    }
  }

  ghost predicate Continues(b: seq<Byte>, i: nat) {
    i <= |b| && forall k :: 0 <= k < i ==> b[k] >= 128
  }

  /** The value of the first i bytes, their continuation bits removed. */
  ghost function Low(b: seq<Byte>, i: nat): nat
    requires Continues(b, i)
  {
    if i == 0 then 0 else b[0] - 128 + 128 * Low(b[1..], i - 1)
  }

  lemma {:induction false} LowNext(b: seq<Byte>, i: nat)
    requires Continues(b, i + 1)
    ensures Low(b, i + 1) == Low(b, i) + Shift(b[i] - 128, i)
  {
    if i > 0 {
      LowNext(b[1..], i - 1);
    }
  }

  lemma LowShift(b: seq<Byte>, i: nat)
    requires i > 0 && Continues(b, i)
    ensures forall v: nat :: Low(b, i) + Shift(v, i) == b[0] - 128 + 128 * (Low(b[1..], i - 1) + Shift(v, i - 1))
  {
  }

  /** After i continuation bytes the varint is what they hold plus the shifted remainder. */
  lemma NoShift(b: seq<Byte>)
    ensures Low(b, 0) == 0
    ensures forall v: nat :: Shift(v, 0) == v
  {
  }

  lemma {:induction false} ReadAfter(b: seq<Byte>, max: nat, i: nat)
    requires i <= max && Continues(b, i)
    ensures ReadVarint(b, max) == (match ReadVarint(b[i..], max - i)
                                   case Good(v, rest) => Good(Low(b, i) + Shift(v, i), rest)
                                   case Bad => Bad)
  {
    hide ReadVarint, Low, Shift;
    if i == 0 {
      assert b[0..] == b;
      NoShift(b);
    } else {
      ReadAfter(b[1..], max - 1, i - 1);
      assert b[1..][i - 1..] == b[i..];
      ReadMore(b, b[1..], max);
      LowShift(b, i);
    }
  }

  lemma ReadLast(b: seq<Byte>, max: nat, i: nat)
    requires i < max && Continues(b, i) && i < |b| && b[i] < 128
    ensures ReadVarint(b, max) == Good(Low(b, i) + Shift(b[i], i), b[i + 1..])
  {
    ReadAfter(b, max, i);
    assert b[i..][1..] == b[i + 1..];
  }

  lemma ReadOut(b: seq<Byte>, max: nat, i: nat)
    requires i <= max && Continues(b, i) && (i == max || i == |b|)
    ensures ReadVarint(b, max) == Bad
  {
    ReadAfter(b, max, i);
  }

  /** What is left to cancel of a sum whose last byte had its continuation bit set. */
  ghost function Pending(b: seq<Byte>, i: nat): int
    requires Continues(b, i)
  {
    Low(b, i) + Shift(1, i)
  }

  /** Adding the next byte less one cancels the continuation bit added with the byte before. */
  lemma Cancels(b: seq<Byte>, i: nat)
    requires Continues(b, i) && i < |b|
    ensures Pending(b, i) + Shift(b[i] as int - 1, i) == Low(b, i) + Shift(b[i], i)
    ensures Continues(b, i + 1) ==> Pending(b, i) + Shift(b[i] as int - 1, i) == Pending(b, i + 1)
  {
    ShiftAdd(b[i] as int - 1, 1, i);
    if Continues(b, i + 1) {
      LowNext(b, i);
      ShiftAdd(b[i] - 128, 128, i);
      ShiftAdd(1, 0, i);
    }
  }

  lemma ModAdd64(x: int, y: int)
    ensures (x % TWO64 + y) % TWO64 == (x + y) % TWO64
  {
  }

  lemma ModAdd32(x: int, y: int)
    ensures (x % TWO32 + y) % TWO32 == (x + y) % TWO32
  {
  }

  lemma SmallWord(x: int)
    ensures 0 <= x < TWO64 ==> x % TWO64 == x
    ensures 0 <= x < TWO32 ==> x % TWO32 == x && x < TWO64
  {
  }

  lemma FirstPending(b: seq<Byte>)
    requires b != []
    ensures Low(b, 0) + Shift(b[0], 0) == b[0]
    ensures b[0] >= 128 ==> Pending(b, 1) == b[0]
  {
    if b[0] >= 128 {
      assert Low(b, 1) == b[0] - 128;
      assert Shift(1, 1) == 128;
    }
  }

  /** Two bytes fit 32-bit arithmetic; only the wrapped intermediate (byte - 1) << 7 may not. */
  lemma SecondPending(b: seq<Byte>)
    requires |b| >= 2 && b[0] >= 128
    ensures var res := (b[0] + (b[1] as int - 1) * 128) % TWO32;
            if b[1] < 128 then res == Low(b, 1) + Shift(b[1], 1) else Continues(b, 2) && res == Pending(b, 2)
  {
    FirstPending(b);
    Cancels(b, 1);
    assert Shift(b[1] as int - 1, 1) == (b[1] as int - 1) * 128;
  }

  /** Reads a 64-bit varint at p: two bytes in 32-bit arithmetic, the rest in 64-bit. */
  method VarintParse(data: seq<Byte>, p: nat) returns (ok: bool, q: nat, out: nat)
    requires p <= |data|
    ensures ok <==> ReadUInt64(data[p..]).Good?
    ensures ok ==> p < q <= |data| && ReadUInt64(data[p..]) == Good(out, data[q..])
  {
    hide ReadVarint, Shift, Low, Pending;
    ghost var b := data[p..];
    if p == |data| {
      ReadOut(b, 10, 0);
      return false, p, 0;
    }
    FirstPending(b);
    SmallWord(b[0]);
    if data[p] < 128 {
      ReadLast(b, 10, 0);
      return true, p + 1, data[p];
    }
    if p + 1 == |data| {
      ReadOut(b, 10, 1);
      return false, p, 0;
    }
    SecondPending(b);
    var res := (data[p] + (data[p + 1] as int - 1) * 128) % TWO32;
    if data[p + 1] < 128 {
      SmallWord(res);
      ReadLast(b, 10, 1);
      return true, p + 2, res;
    }
    ok, q, out := VarintParseSlow64(data, p, res);
  }

  method VarintParseSlow64(data: seq<Byte>, p: nat, res32: nat) returns (ok: bool, q: nat, out: nat)
    requires p <= |data| && Continues(data[p..], 2) && res32 == Pending(data[p..], 2)
    ensures ok <==> ReadUInt64(data[p..]).Good?
    ensures ok ==> p < q <= |data| && ReadUInt64(data[p..]) == Good(out, data[q..])
  {
    hide ReadVarint, Shift, Low, Pending;
    ghost var b := data[p..];
    SmallPending(b);
    SmallWord(res32);
    var res := res32;
    var i: nat := 2;
    while i < 10 && p + i < |data|
      invariant 2 <= i <= 10 && Continues(b, i) && res == Pending(b, i) % TWO64
    {
      var byte := data[p + i];
      Cancels(b, i);
      ModAdd64(Pending(b, i), Shift(byte as int - 1, i));
      res := (res + Shift(byte as int - 1, i)) % TWO64;
      if byte < 128 {
        ReadLast(b, 10, i);
        return true, p + i + 1, res;
      }
      i := i + 1;
    }
    ReadOut(b, 10, i);
    return false, p, 0;
  }

  lemma SmallPending(b: seq<Byte>)
    requires Continues(b, 2)
    ensures 0 <= Pending(b, 2) < TWO32 < TWO64
  {
    assert Low(b, 2) == b[0] - 128 + 128 * Low(b[1..], 1);
    assert Low(b[1..], 1) == b[1] - 128;
    assert Shift(1, 2) == 128 * Shift(1, 1);
  }

  /** Reads a tag at p: at most five bytes, in 32-bit arithmetic. */
  method ParseTag(data: seq<Byte>, p: nat) returns (ok: bool, q: nat, out: nat)
    requires p <= |data|
    ensures ok <==> ReadTag(data[p..]).Good?
    ensures ok ==> p < q <= |data| && ReadTag(data[p..]) == Good(out, data[q..])
  {
    hide ReadVarint, Shift, Low, Pending;
    ghost var b := data[p..];
    if p == |data| {
      ReadOut(b, 5, 0);
      return false, p, 0;
    }
    FirstPending(b);
    SmallWord(b[0]);
    if data[p] < 128 {
      ReadLast(b, 5, 0);
      return true, p + 1, data[p];
    }
    if p + 1 == |data| {
      ReadOut(b, 5, 1);
      return false, p, 0;
    }
    SecondPending(b);
    var res := (data[p] + (data[p + 1] as int - 1) * 128) % TWO32;
    if data[p + 1] < 128 {
      SmallWord(res);
      ReadLast(b, 5, 1);
      return true, p + 2, res;
    }
    ok, q, out := ReadTagFallback(data, p, res);
  }

  method ReadTagFallback(data: seq<Byte>, p: nat, res2: nat) returns (ok: bool, q: nat, out: nat)
    requires p <= |data| && Continues(data[p..], 2) && res2 == Pending(data[p..], 2)
    ensures ok <==> ReadTag(data[p..]).Good?
    ensures ok ==> p < q <= |data| && ReadTag(data[p..]) == Good(out, data[q..])
  {
    hide ReadVarint, Shift, Low, Pending;
    ghost var b := data[p..];
    SmallPending(b);
    SmallWord(res2);
    var res := res2;
    var i: nat := 2;
    while i < 5 && p + i < |data|
      invariant 2 <= i <= 5 && Continues(b, i) && res == Pending(b, i) % TWO32
    {
      var byte := data[p + i];
      Cancels(b, i);
      ModAdd32(Pending(b, i), Shift(byte as int - 1, i));
      res := (res + Shift(byte as int - 1, i)) % TWO32;
      if byte < 128 {
        ReadLast(b, 5, i);
        return true, p + i + 1, res;
      }
      i := i + 1;
    }
    ReadOut(b, 5, i);
    return false, p, 0;
  }

  /** Reads a length at p: four bytes of any value, or a fifth that keeps it below 2^31; lengths
      within kSlopBytes of INT_MAX are refused. */
  method ParseSize(data: seq<Byte>, p: nat) returns (ok: bool, q: nat, out: nat)
    requires p <= |data|
    ensures ok <==> ReadSize(data[p..]).Good?
    ensures ok ==> p < q <= |data| && ReadSize(data[p..]) == Good(out, data[q..])
  {
    hide ReadVarint, Shift, Low, Pending;
    ghost var b := data[p..];
    if p == |data| {
      ReadOut(b, 5, 0);
      return false, p, 0;
    }
    FirstPending(b);
    if data[p] < 128 {
      ReadLast(b, 5, 0);
      return true, p + 1, data[p];
    }
    var res: nat := data[p];
    var i: nat := 1;
    while i < 4 && p + i < |data|
      invariant 1 <= i <= 4 && Continues(b, i) && res == Pending(b, i)
    {
      var byte := data[p + i];
      Cancels(b, i);
      SizeBound(b, i);
      SmallWord(res + Shift(byte as int - 1, i));
      res := (res + Shift(byte as int - 1, i)) % TWO32;
      if byte < 128 {
        ReadLast(b, 5, i);
        return true, p + i + 1, res;
      }
      i := i + 1;
    }
    ok, q, out := ParseFifthSizeByte(data, p, i, res);
  }

  method ParseFifthSizeByte(data: seq<Byte>, p: nat, i: nat, res4: nat) returns (ok: bool, q: nat, out: nat)
    requires p <= |data| && i <= 4 && Continues(data[p..], i) && (i == 4 || p + i == |data|)
    requires res4 == Pending(data[p..], i)
    ensures ok <==> ReadSize(data[p..]).Good?
    ensures ok ==> p < q <= |data| && ReadSize(data[p..]) == Good(out, data[q..])
  {
    hide ReadVarint, Shift, Low, Pending;
    ghost var b := data[p..];
    if p + i == |data| {
      ReadOut(b, 5, i);
      return false, p, 0;
    }
    var byte := data[p + 4];
    if byte >= 8 {
      FifthByteTooBig(b);
      return false, p, 0;
    }
    Cancels(b, 4);
    SizeBound(b, 4);
    SmallWord(res4 + Shift(byte as int - 1, 4));
    var res := (res4 + Shift(byte as int - 1, 4)) % TWO32;
    ReadLast(b, 5, 4);
    if res > MAX_SIZE {
      return false, p, 0;
    }
    return true, p + 5, res;
  }

  /** In four bytes, or five whose last is below 8, nothing wraps around. */
  lemma SizeBound(b: seq<Byte>, i: nat)
    requires 1 <= i <= 4 && Continues(b, i) && i < |b|
    ensures i <= 3 || b[i] < 8 ==> 0 <= Pending(b, i) + Shift(b[i] as int - 1, i) < TWO32
    ensures i <= 3 && b[i] < 128 ==> Low(b, i) + Shift(b[i], i) <= MAX_SIZE
  {
    LowBound(b, i);
    Cancels(b, i);
    ShiftBy(b[i], i);
  }

  lemma ShiftBy(v: nat, i: nat)
    requires 1 <= i <= 4
    ensures Shift(v, i) == (if i == 1 then 0x80 * v else if i == 2 then 0x4000 * v
                            else if i == 3 then 0x20_0000 * v else 0x1000_0000 * v)
  {
    assert Shift(v, 1) == 0x80 * v;
    assert Shift(v, 2) == 0x4000 * v;
    assert Shift(v, 3) == 0x20_0000 * v;
  }

  lemma {:induction false} LowBound(b: seq<Byte>, i: nat)
    requires Continues(b, i)
    ensures 0 <= Low(b, i) < Shift(1, i)
  {
    if i > 0 {
      LowBound(b[1..], i - 1);
    }
  }

  lemma FifthByteTooBig(b: seq<Byte>)
    requires Continues(b, 4) && |b| > 4 && b[4] >= 8
    ensures ReadSize(b) == Bad
  {
    if b[4] < 128 {
      ReadLast(b, 5, 4);
      ShiftBy(b[4], 4);
    } else {
      ReadOut(b, 5, 5);
    }
  }
}
