/** Percent-rollout bucketing (packages/core/feature-flags/hash.ts). */
module FnvHash {
  import opened Lists

  // ---------------------------------------------------------------- text and bytes

  /** A UTF-16 code unit, as strings of the host language are made of. */
  type Unit = u: int | 0 <= u < 0x10000

  type Byte = b: int | 0 <= b < 0x100

  predicate IsHigh(u: int) { 0xD800 <= u < 0xDC00 }

  predicate IsLow(u: int) { 0xDC00 <= u < 0xE000 }

  /** A Unicode scalar value. */
  type Scalar = c: int | 0 <= c < 0x110000 && !IsHigh(c) && !IsLow(c)

  predicate StartsPair(s: seq<Unit>) {
    |s| > 1 && IsHigh(s[0]) && IsLow(s[1])
  }

  function Combined(high: int, low: int): (c: Scalar)
    requires IsHigh(high) && IsLow(low)
    ensures c >= 0x10000
  {
    0x10000 + (high - 0xD800) * 0x400 + (low - 0xDC00)
  }

  /** What the text encoder sees: pairs combined, a lone surrogate replaced by U+FFFD. */
  function Scalars(s: seq<Unit>): seq<Scalar> {
    if s == [] then []
    else if StartsPair(s) then [Combined(s[0], s[1])] + Scalars(s[2..])
    else [if IsHigh(s[0]) || IsLow(s[0]) then 0xFFFD else s[0]] + Scalars(s[1..])
  }

  function EncodeScalar(c: Scalar): seq<Byte> {
    if c < 0x80 then [c]
    else if c < 0x800 then [0xC0 + c / 0x40, 0x80 + c % 0x40]
    else if c < 0x10000 then [0xE0 + c / 0x1000, 0x80 + c / 0x40 % 0x40, 0x80 + c % 0x40]
    else [0xF0 + c / 0x40000, 0x80 + c / 0x1000 % 0x40, 0x80 + c / 0x40 % 0x40, 0x80 + c % 0x40]
  }

  function Utf8(s: seq<Scalar>): seq<Byte> {
    if s == [] then [] else EncodeScalar(s[0]) + Utf8(s[1..])
  }

  /** `new TextEncoder().encode(s)`. */
  function Encode(s: seq<Unit>): seq<Byte> {
    Utf8(Scalars(s))
  }

  /** The encoded parts with a zero byte between them. */
  function Frame(parts: seq<seq<Unit>>): seq<Byte> {
    if parts == [] then []
    else if |parts| == 1 then Encode(parts[0])
    else Frame(parts[..|parts| - 1]) + [0] + Encode(parts[|parts| - 1])
  }

  // ---------------------------------------------------------------- the reference

  const M: int := 0x1_0000_0000
  const OFFSET_BASIS := 0x811C9DC5
  const PRIME := 0x01000193

  /** Exclusive or, bit by bit. */
  function XorUnsigned(a: nat, b: nat): nat {
    if a == 0 && b == 0 then 0
    else 2 * XorUnsigned(a / 2, b / 2) + (if a % 2 == b % 2 then 0 else 1)
  }

  /** FNV-1a with 32 bits, as section 2 of draft-eastlake-fnv defines it. */
  function Fnv1a32(bytes: seq<Byte>): (h: int)
    ensures 0 <= h < M
  {
    if bytes == [] then OFFSET_BASIS
    else XorUnsigned(Fnv1a32(bytes[..|bytes| - 1]), bytes[|bytes| - 1]) * PRIME % M
  }

  // ---------------------------------------------------------------- the host's signed arithmetic

  function ToInt32(x: int): (r: int)
    ensures -0x8000_0000 <= r < 0x8000_0000
  {
    if x % M < 0x8000_0000 then x % M else x % M - M
  }

  /** `a ^ b`. */
  function Xor(a: int, b: int): int {
    ToInt32(XorUnsigned(a % M, b % M))
  }

  /** `Math.imul(a, b)`. */
  function Imul(a: int, b: int): int {
    ToInt32(a * b)
  }

  /** `x >>> 0`. */
  function ToUint32(x: int): int {
    x % M
  }

  lemma {:induction false} ModTimes(x: int, k: nat)
    ensures x * k % M == x % M * k % M
  {
    var q, r := x / M, x % M;
    assert x == q * M + r;
    assert x * k == (q * k) * M + r * k;
    ModShift(q * k, r * k);
  }

  lemma {:induction false} ModShift(q: int, r: int)
    ensures (q * M + r) % M == r % M
    decreases if q < 0 then -q else q
  {
    if q > 0 {
      ModShift(q - 1, r);
      assert q * M + r == ((q - 1) * M + r) + M;
    } else if q < 0 {
      ModShift(q + 1, r);
      assert q * M + r == ((q + 1) * M + r) - M;
    }
  }

  function Pow2(n: nat): nat {
    if n == 0 then 1 else 2 * Pow2(n - 1)
  }

  lemma {:induction false} WordSize()
    ensures Pow2(32) == M
  {
    assert Pow2(8) == 0x100;
    assert Pow2(16) == 0x1_0000;
    assert Pow2(24) == 0x100_0000;
  }

  lemma {:induction false} XorFits(a: nat, b: nat, n: nat)
    requires a < Pow2(n) && b < Pow2(n)
    ensures XorUnsigned(a, b) < Pow2(n)
  {
    if n > 0 { XorFits(a / 2, b / 2, n - 1); }
  }

  lemma {:induction false} ProductAgrees(x: int, v: int)
    requires x % M == v
    ensures Imul(x, PRIME) % M == v * PRIME % M
  {
    ModTimes(x, PRIME);
  }

  lemma {:induction false} XorAgrees(hash: int, h: int, b: Byte)
    requires 0 <= h < M && hash % M == h
    ensures Xor(hash, b) % M == XorUnsigned(h, b)
  {
    var v := XorUnsigned(h, b);
    assert b % M == b;
    assert Xor(hash, b) == ToInt32(v);
    WordSize();
    XorFits(h, b, 32);
  }

  /** One signed round appends one byte to what has been hashed. */
  lemma {:induction false} RoundAgrees(hash: int, before: seq<Byte>, b: Byte)
    requires hash % M == Fnv1a32(before)
    ensures Imul(Xor(hash, b), PRIME) % M == Fnv1a32(before + [b])
  {
    XorAgrees(hash, Fnv1a32(before), b);
    ProductAgrees(Xor(hash, b), XorUnsigned(Fnv1a32(before), b));
  }

  /** The nested loops over parts and bytes give FNV-1a of the framed bytes. */
  method Fnv1a(parts: seq<seq<Unit>>) returns (h: int)
    ensures h == Fnv1a32(Frame(parts))
  {
    var hash := 0x811C9DC5;
    for p := 0 to |parts|
      invariant hash % M == Fnv1a32(Frame(parts[..p]))
    {
      ghost var done := Frame(parts[..p]);
      if p > 0 {
        RoundAgrees(hash, done, 0);
        done := done + [0];
        hash := Xor(hash, 0);
        hash := Imul(hash, 0x01000193);
      }
      var bytes := Encode(parts[p]);
      hash := HashBytes(hash, bytes, done);
      FrameStep(parts, p);
    }
    assert parts[..|parts|] == parts;
    h := ToUint32(hash);
  }

  lemma {:induction false} FrameStep(parts: seq<seq<Unit>>, p: nat)
    requires p < |parts|
    ensures Frame(parts[..p + 1]) == (if p > 0 then Frame(parts[..p]) + [0] else Frame(parts[..p])) + Encode(parts[p])
  {
    assert parts[..p + 1][..p] == parts[..p];
    if p == 0 { assert parts[..1] == [parts[0]] && parts[..0] == [] && [] + Encode(parts[0]) == Encode(parts[0]); }
  }

  method HashBytes(start: int, bytes: seq<Byte>, ghost done: seq<Byte>) returns (hash: int)
    requires start % M == Fnv1a32(done)
    ensures hash % M == Fnv1a32(done + bytes)
  {
    hash := start;
    assert done + bytes[..0] == done;
    for i := 0 to |bytes|
      invariant hash % M == Fnv1a32(done + bytes[..i])
    {
      ghost var before := done + bytes[..i];
      RoundAgrees(hash, before, bytes[i]);
      assert before + [bytes[i]] == done + bytes[..i + 1];
      hash := Xor(hash, bytes[i]);
      hash := Imul(hash, 0x01000193);
    }
    assert bytes[..|bytes|] == bytes;
  }

  // ---------------------------------------------------------------- buckets

  function Bucket(key: seq<Unit>, id: seq<Unit>): int {
    Fnv1a32(Frame([key, id])) % 100
  }

  method BucketFor(key: seq<Unit>, id: seq<Unit>) returns (r: int)
    ensures r == Bucket(key, id) && 0 <= r < 100
  {
    var h := Fnv1a([key, id]);
    r := h % 100;
  }

  method InPercent(key: seq<Unit>, id: seq<Unit>, percent: real) returns (r: bool)
    ensures r == Included(key, id, percent)
    ensures forall higher :: r && percent <= higher ==> Included(key, id, higher)
    ensures (percent <= 0.0 ==> !r) && (percent >= 100.0 ==> r)
  {
    if percent <= 0.0 { return false; }
    if percent >= 100.0 { return true; }
    var bucket := BucketFor(key, id);
    r := bucket as real < percent;
  }

  /** The first `percent` buckets, with no clamping. */
  predicate Included(key: seq<Unit>, id: seq<Unit>, percent: real) {
    Bucket(key, id) as real < percent
  }

  // ---------------------------------------------------------------- no two pairs share a frame

  lemma {:induction false} NonZeroBytes(c: Scalar)
    requires c != 0
    ensures forall i :: 0 <= i < |EncodeScalar(c)| ==> EncodeScalar(c)[i] != 0
  {
  }

  lemma {:induction false} NonZeroText(s: seq<Scalar>)
    requires 0 !in s
    ensures 0 !in Utf8(s)
  {
    if s != [] {
      assert s[0] in s && forall c :: c in s[1..] ==> c in s;
      NonZeroBytes(s[0]);
      NonZeroText(s[1..]);
    }
  }

  lemma {:induction false} NonZeroUnits(s: seq<Unit>)
    requires 0 !in s
    ensures 0 !in Scalars(s)
  {
    if s != [] {
      assert s[0] in s;
      if StartsPair(s) {
        assert forall u :: u in s[2..] ==> u in s;
        NonZeroUnits(s[2..]);
      } else {
        assert forall u :: u in s[1..] ==> u in s;
        NonZeroUnits(s[1..]);
      }
    }
  }

  /** How many bytes the scalar with this first byte takes. */
  function Length(lead: int): nat {
    if lead < 0x80 then 1 else if lead < 0xE0 then 2 else if lead < 0xF0 then 3 else 4
  }

  function DecodeScalar(b: seq<int>): int
    requires |b| > 0 && |b| >= Length(b[0])
  {
    match Length(b[0])
    case 1 => b[0]
    case 2 => (b[0] - 0xC0) * 0x40 + (b[1] - 0x80)
    case 3 => (b[0] - 0xE0) * 0x1000 + (b[1] - 0x80) * 0x40 + (b[2] - 0x80)
    case _ => (b[0] - 0xF0) * 0x40000 + (b[1] - 0x80) * 0x1000 + (b[2] - 0x80) * 0x40 + (b[3] - 0x80)
  }

  lemma {:induction false} DecodesFirst(c: Scalar, rest: seq<Byte>)
    ensures var b := EncodeScalar(c) + rest;
      && b[0] == EncodeScalar(c)[0] && Length(b[0]) == |EncodeScalar(c)| && DecodeScalar(b) == c
      && b[|EncodeScalar(c)|..] == rest
  {
    var e := EncodeScalar(c);
    var b := e + rest;
    assert b[..|e|] == e;
    assert forall i :: 0 <= i < |e| ==> b[i] == e[i];
    assert c / 0x40 / 0x40 == c / 0x1000 && c / 0x1000 / 0x40 == c / 0x40000;
  }

  lemma {:induction false} Utf8Injective(s: seq<Scalar>, t: seq<Scalar>)
    requires Utf8(s) == Utf8(t)
    ensures s == t
    decreases |s|
  {
    if s != [] { DecodesFirst(s[0], Utf8(s[1..])); }
    if t != [] { DecodesFirst(t[0], Utf8(t[1..])); }
    if s != [] && t != [] {
      Utf8Injective(s[1..], t[1..]);
      assert s == [s[0]] + s[1..] && t == [t[0]] + t[1..];
    }
  }

  lemma {:induction false} FramePair(key: seq<Unit>, id: seq<Unit>)
    ensures Frame([key, id]) == Encode(key) + [0] + Encode(id)
  {
    assert [key, id][..1] == [key];
  }

  /** Keys without a zero character: equal frames come from the same key and the same identifier. */
  lemma {:induction false} FrameInjective(k1: seq<Unit>, i1: seq<Unit>, k2: seq<Unit>, i2: seq<Unit>)
    requires 0 !in k1 && 0 !in k2 && Frame([k1, i1]) == Frame([k2, i2])
    ensures Scalars(k1) == Scalars(k2) && Scalars(i1) == Scalars(i2)
    ensures Paired(k1) && Paired(k2) ==> k1 == k2
    ensures Paired(i1) && Paired(i2) ==> i1 == i2
  {
    FramePair(k1, i1);
    FramePair(k2, i2);
    NonZeroUnits(k1);
    NonZeroUnits(k2);
    NonZeroText(Scalars(k1));
    NonZeroText(Scalars(k2));
    SplitAtFirst(Encode(k1), Encode(i1), Encode(k2), Encode(i2), 0);
    Utf8Injective(Scalars(k1), Scalars(k2));
    Utf8Injective(Scalars(i1), Scalars(i2));
    if Paired(k1) && Paired(k2) { ScalarsInjective(k1, k2); }
    if Paired(i1) && Paired(i2) { ScalarsInjective(i1, i2); }
  }

  lemma {:induction false} ScalarsAcrossZero(a: seq<Unit>, b: seq<Unit>)
    ensures Scalars(a + [0] + b) == Scalars(a) + [0] + Scalars(b)
  {
    if a == [] {
      assert a + [0] + b == [0] + b && ([0] + b)[1..] == b;
    } else {
      var n := if StartsPair(a) then 2 else 1;
      ScalarsAcrossZero(a[n..], b);
      FirstScalar(a, b);
      Regrouped(Scalars(a)[..1], Scalars(a[n..]), [0], Scalars(b));
    }
  }

  lemma {:induction false} FirstScalar(a: seq<Unit>, b: seq<Unit>)
    requires a != []
    ensures var n := if StartsPair(a) then 2 else 1;
      && Scalars(a) == Scalars(a)[..1] + Scalars(a[n..])
      && Scalars(a + [0] + b) == Scalars(a)[..1] + Scalars(a[n..] + [0] + b)
  {
    var s, n := a + [0] + b, if StartsPair(a) then 2 else 1;
    assert s[0] == a[0] && (|a| > 1 ==> s[1] == a[1]) && (|a| == 1 ==> s[1] == 0);
    assert s[n..] == a[n..] + [0] + b;
  }

  lemma {:induction false} Regrouped<T>(a: seq<T>, b: seq<T>, c: seq<T>, d: seq<T>)
    ensures (a + b) + c + d == a + (b + c + d)
  {
  }

  lemma {:induction false} Utf8Concat(s: seq<Scalar>, t: seq<Scalar>)
    ensures Utf8(s + t) == Utf8(s) + Utf8(t)
  {
    if s == [] {
      assert s + t == t;
    } else {
      Utf8Concat(s[1..], t);
      assert (s + t)[1..] == s[1..] + t;
      ConcatAssoc(EncodeScalar(s[0]), Utf8(s[1..]), Utf8(t));
    }
  }

  lemma {:induction false} EncodeAcrossZero(a: seq<Unit>, b: seq<Unit>)
    ensures Encode(a + [0] + b) == Encode(a) + [0] + Encode(b)
  {
    ScalarsAcrossZero(a, b);
    Utf8Concat(Scalars(a) + [0], Scalars(b));
    Utf8Concat(Scalars(a), [0]);
    assert Utf8([0]) == [0];
  }

  /** A zero character in a key does let two pairs share a frame, wherever it stands. */
  lemma {:induction false} ZeroInKeyCollides(a: seq<Unit>, b: seq<Unit>, c: seq<Unit>)
    ensures Frame([a + [0] + b, c]) == Frame([a, b + [0] + c])
  {
    FramePair(a + [0] + b, c);
    FramePair(a, b + [0] + c);
    EncodeAcrossZero(a, b);
    EncodeAcrossZero(b, c);
  }

  /** Every surrogate has its partner. */
  predicate Paired(s: seq<Unit>) {
    s == [] || (if StartsPair(s) then Paired(s[2..]) else !IsHigh(s[0]) && !IsLow(s[0]) && Paired(s[1..]))
  }

  lemma {:induction false} ScalarsInjective(s: seq<Unit>, t: seq<Unit>)
    requires Paired(s) && Paired(t) && Scalars(s) == Scalars(t)
    ensures s == t
    decreases |s|
  {
    if s != [] && t != [] {
      var x, y := Scalars(s), Scalars(t);
      assert x[0] == y[0] && x[1..] == y[1..];
      if StartsPair(s) {
        assert StartsPair(t);
        assert x[1..] == Scalars(s[2..]) && y[1..] == Scalars(t[2..]);
        ScalarsInjective(s[2..], t[2..]);
        assert s == [s[0], s[1]] + s[2..] && t == [t[0], t[1]] + t[2..];
      } else {
        assert !StartsPair(t);
        assert x[1..] == Scalars(s[1..]) && y[1..] == Scalars(t[1..]);
        ScalarsInjective(s[1..], t[1..]);
        assert s == [s[0]] + s[1..] && t == [t[0]] + t[1..];
      }
    }
  }


  // ---------------------------------------------------------------- which keys can collide

  lemma {:induction false} Utf8Prefix(s: seq<Scalar>, t: seq<Scalar>)
    requires Utf8(s) <= Utf8(t)
    ensures s <= t
    decreases |s|
  {
    if s != [] {
      var rest := Utf8(t)[|Utf8(s)|..];
      assert Utf8(t) == Utf8(s) + rest;
      ConcatAssoc(EncodeScalar(s[0]), Utf8(s[1..]), rest);
      DecodesFirst(s[0], Utf8(s[1..]) + rest);
      DecodesFirst(t[0], Utf8(t[1..]));
      Utf8Prefix(s[1..], t[1..]);
      assert s == [s[0]] + s[1..] && t == [t[0]] + t[1..];
    }
  }

  lemma {:induction false} ScalarsPrefix(s: seq<Unit>, t: seq<Unit>)
    requires Paired(s) && Paired(t) && Scalars(s) <= Scalars(t)
    ensures s <= t
    decreases |s|
  {
    if s != [] {
      var x, y := Scalars(s), Scalars(t);
      assert x[0] == y[0] && x[1..] <= y[1..];
      if StartsPair(s) {
        assert x[1..] == Scalars(s[2..]) && y[1..] == Scalars(t[2..]);
        ScalarsPrefix(s[2..], t[2..]);
        assert s == [s[0], s[1]] + s[2..] && t == [t[0], t[1]] + t[2..];
      } else {
        assert x[1..] == Scalars(s[1..]) && y[1..] == Scalars(t[1..]);
        ScalarsPrefix(s[1..], t[1..]);
        assert s == [s[0]] + s[1..] && t == [t[0]] + t[1..];
      }
    }
  }

  lemma {:induction false} PairedBeforeZero(s: seq<Unit>)
    requires Paired(s)
    ensures Paired(s + [0])
    decreases |s|
  {
    if StartsPair(s) {
      PairedBeforeZero(s[2..]);
      assert (s + [0])[2..] == s[2..] + [0];
    } else if s != [] {
      PairedBeforeZero(s[1..]);
      assert (s + [0])[1..] == s[1..] + [0];
    } else {
      assert (s + [0])[1..] == [];
    }
  }

  /** The keys share a frame for some identifiers. */
  ghost predicate CanCollide(k1: seq<Unit>, k2: seq<Unit>) {
    exists i1: seq<Unit>, i2: seq<Unit> :: Frame([k1, i1]) == Frame([k2, i2])
  }

  lemma {:induction false} ShorterIsPrefix(k1: seq<Unit>, i1: seq<Unit>, k2: seq<Unit>, i2: seq<Unit>)
    requires Paired(k1) && Paired(k2) && Frame([k1, i1]) == Frame([k2, i2])
    requires |Encode(k1)| < |Encode(k2)|
    ensures k1 + [0] <= k2
  {
    FramePair(k1, i1);
    FramePair(k2, i2);
    EncodeAcrossZero(k1, []);
    var a, b := Encode(k1), Encode(k2);
    assert Encode([]) == [] && k1 + [0] + [] == k1 + [0];
    assert (a + [0] + Encode(i1))[..|a| + 1] == a + [0] && (b + [0] + Encode(i2))[..|a| + 1] == b[..|a| + 1];
    assert Encode(k1 + [0]) == a + [0] + [] == a + [0];
    Utf8Prefix(Scalars(k1 + [0]), Scalars(k2));
    PairedBeforeZero(k1);
    ScalarsPrefix(k1 + [0], k2);
  }

  lemma {:induction false} PrefixCollides(k1: seq<Unit>, k2: seq<Unit>)
    requires k1 + [0] <= k2
    ensures CanCollide(k1, k2)
  {
    var rest := k2[|k1| + 1..];
    assert k2 == k1 + [0] + rest;
    ZeroInKeyCollides(k1, rest, []);
  }

  /** Two keys without lone surrogates can collide exactly if one, followed by a zero character, begins the other. */
  lemma {:induction false} KeysCollideIff(k1: seq<Unit>, k2: seq<Unit>)
    requires Paired(k1) && Paired(k2) && k1 != k2
    ensures CanCollide(k1, k2) <==> k1 + [0] <= k2 || k2 + [0] <= k1
  {
    if k1 + [0] <= k2 { PrefixCollides(k1, k2); }
    if k2 + [0] <= k1 {
      PrefixCollides(k2, k1);
      var i2: seq<Unit>, i1: seq<Unit> :| Frame([k2, i2]) == Frame([k1, i1]);
      assert Frame([k1, i1]) == Frame([k2, i2]);
    }
    if i1: seq<Unit>, i2: seq<Unit> :| Frame([k1, i1]) == Frame([k2, i2]) {
      if |Encode(k1)| == |Encode(k2)| {
        SameLengthKeys(k1, i1, k2, i2);
      } else if |Encode(k1)| < |Encode(k2)| {
        ShorterIsPrefix(k1, i1, k2, i2);
      } else {
        ShorterIsPrefix(k2, i2, k1, i1);
      }
    }
  }

  lemma {:induction false} SameLengthKeys(k1: seq<Unit>, i1: seq<Unit>, k2: seq<Unit>, i2: seq<Unit>)
    requires Paired(k1) && Paired(k2) && Frame([k1, i1]) == Frame([k2, i2])
    requires |Encode(k1)| == |Encode(k2)|
    ensures k1 == k2
  {
    FramePair(k1, i1);
    FramePair(k2, i2);
    var n := |Encode(k1)|;
    assert (Encode(k1) + [0] + Encode(i1))[..n] == Encode(k1) && (Encode(k2) + [0] + Encode(i2))[..n] == Encode(k2);
    Utf8Injective(Scalars(k1), Scalars(k2));
    ScalarsInjective(k1, k2);
  }

  /** For one key, zeros or not, different identifiers never share a frame. */
  lemma {:induction false} IdentifiersApart(k: seq<Unit>, i1: seq<Unit>, i2: seq<Unit>)
    requires Paired(i1) && Paired(i2)
    ensures Frame([k, i1]) == Frame([k, i2]) <==> i1 == i2
  {
    FramePair(k, i1);
    FramePair(k, i2);
    if Frame([k, i1]) == Frame([k, i2]) {
      PrefixCancel(Encode(k) + [0], Encode(i1), Encode(i2));
      Utf8Injective(Scalars(i1), Scalars(i2));
      ScalarsInjective(i1, i2);
    }
  }

  // ---------------------------------------------------------------- known values

  /** Bit `k` of a number. */
  function Bit(a: nat, k: nat): nat {
    if k == 0 then a % 2 else Bit(a / 2, k - 1)
  }

  /** Each bit of the exclusive or is set exactly if the two bits differ. */
  lemma {:induction false} XorByBits(a: nat, b: nat, k: nat)
    ensures Bit(XorUnsigned(a, b), k) == if Bit(a, k) == Bit(b, k) then 0 else 1
    decreases k
  {
    assert XorUnsigned(0, 0) == 0;
    assert XorUnsigned(a, b) == 2 * XorUnsigned(a / 2, b / 2) + (if a % 2 == b % 2 then 0 else 1);
    if k > 0 { XorByBits(a / 2, b / 2, k - 1); }
  }

  lemma {:induction false} XorZero(a: nat)
    ensures XorUnsigned(a, 0) == a
  {
    if a > 0 { XorZero(a / 2); }
  }

  /** A surrogate pair is read as section 2.1 of RFC 2781 writes it. */
  lemma {:induction false} PairsAreRead(high: int, low: int)
    requires IsHigh(high) && IsLow(low)
    ensures var c := Combined(high, low);
      high == 0xD800 + (c - 0x10000) / 0x400 && low == 0xDC00 + (c - 0x10000) % 0x400
  {
  }

  /** A surrogate that is no part of a pair reads as U+FFFD, any other unit as itself. */
  lemma {:induction false} LoneUnits(u: Unit, rest: seq<Unit>)
    requires !StartsPair([u] + rest)
    ensures Scalars([u] + rest) == [if 0xD800 <= u < 0xE000 then 0xFFFD else u] + Scalars(rest)
  {
    assert ([u] + rest)[1..] == rest;
  }

  /** Published values: of the empty text and of "a". */
  lemma {:induction false} PublishedHashes()
    ensures Fnv1a32([]) == 0x811C9DC5 && Fnv1a32([0x61]) == 0xE40C292C
  {
    XorZero(0x811C9D);
    assert XorUnsigned(0x102393B, 0x0) == 0x102393B;
    assert XorUnsigned(0x2047277, 0x1) == 0x2047276;
    assert XorUnsigned(0x408E4EE, 0x3) == 0x408E4ED;
    assert XorUnsigned(0x811C9DC, 0x6) == 0x811C9DA;
    assert XorUnsigned(0x102393B8, 0xC) == 0x102393B4;
    assert XorUnsigned(0x20472771, 0x18) == 0x20472769;
    assert XorUnsigned(0x408E4EE2, 0x30) == 0x408E4ED2;
    assert XorUnsigned(0x811C9DC5, 0x61) == 0x811C9DA4;
    assert [0x61][..0] == [];
    assert Fnv1a32([0x61]) == XorUnsigned(Fnv1a32([]), 0x61) * PRIME % M;
  }
}
