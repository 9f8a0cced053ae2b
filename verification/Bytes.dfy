/**
 Big-endian integers and the byte order of an ordered key-value store.

 The store compares keys byte by byte from the left. `BigEndianOrder` is the fact every
 range scan of the message store rests on: on numbers written big-endian at one width,
 that byte order is the numeric order.
 */
module Bytes {

  type Byte = b: int | 0 <= b < 256

  type Key = seq<Byte>

  const TWO_63: int := 0x8000_0000_0000_0000
  const TWO_64: int := 0x1_0000_0000_0000_0000

  /** A signed 64-bit integer. */
  type I64 = x: int | -TWO_63 <= x < TWO_63

  const I64_MAX: I64 := TWO_63 - 1

  /** The number of values that `k` bytes can hold. */
  function Span(k: nat): (p: nat)
    ensures p > 0
  {
    if k == 0 then 1 else 256 * Span(k - 1)
  }

  /** The low `k` bytes of `n`, most significant byte first. */
  function BigEndian(n: nat, k: nat): (s: Key)
    requires n < Span(k)
    ensures |s| == k
    decreases k
  {
    if k == 0 then []
    else
      Digit(n, Span(k - 1));
      [n / Span(k - 1)] + BigEndian(n % Span(k - 1), k - 1)
  }

  function FromBigEndian(s: Key): (n: nat)
    ensures n < Span(|s|)
  {
    if s == [] then 0
    else
      MulAtMost(s[0], 255, Span(|s| - 1));
      s[0] * Span(|s| - 1) + FromBigEndian(s[1..])
  }

  lemma MulAtMost(a: nat, b: nat, p: nat)
    requires a <= b
    ensures a * p <= b * p
  {
  }

  lemma Digit(n: nat, p: nat)
    requires 0 < p && n < 256 * p
    ensures 0 <= n / p < 256
  {
    var q := n / p;
    assert q * p <= n;
    CancelFactor(q, 256, p);
  }

  lemma CancelFactor(a: nat, b: nat, p: nat)
    requires a * p < b * p
    ensures a < b
  {
  }

  lemma {:induction false} DecodeEncoded(n: nat, k: nat)
    requires n < Span(k)
    ensures FromBigEndian(BigEndian(n, k)) == n
    decreases k
  {
    if k > 0 {
      var p := Span(k - 1);
      Digit(n, p);
      DecodeEncoded(n % p, k - 1);
      assert BigEndian(n, k)[1..] == BigEndian(n % p, k - 1);
    }
  }

  /** The order in which the store keeps its keys. */
  predicate Less(a: Key, b: Key) {
    b != [] && (a == [] || a[0] < b[0] || (a[0] == b[0] && Less(a[1..], b[1..])))
  }

  predicate AtMost(a: Key, b: Key) {
    a == b || Less(a, b)
  }

  /** A key in the half-open interval `lo..hi`. */
  predicate Within(k: Key, lo: Key, hi: Key) {
    AtMost(lo, k) && Less(k, hi)
  }

  /** A leading digit outweighs everything that follows it. */
  lemma LeadingDigit(a: nat, b: nat, p: nat, x: nat, y: nat)
    requires x < p && y < p
    ensures a < b ==> a * p + x < b * p + y
    ensures a == b ==> a * p == b * p
  {
    if a < b {
      MulAtMost(a + 1, b, p);
      assert (a + 1) * p == a * p + p;
    }
  }

  lemma {:induction false} BigEndianOrder(a: Key, b: Key)
    requires |a| == |b|
    ensures Less(a, b) <==> FromBigEndian(a) < FromBigEndian(b)
    ensures a == b <==> FromBigEndian(a) == FromBigEndian(b)
  {
    if a != [] {
      var p := Span(|a| - 1);
      var x, y := FromBigEndian(a[1..]), FromBigEndian(b[1..]);
      BigEndianOrder(a[1..], b[1..]);
      LeadingDigit(a[0], b[0], p, x, y);
      LeadingDigit(b[0], a[0], p, y, x);
      assert a == [a[0]] + a[1..] && b == [b[0]] + b[1..];
      assert FromBigEndian(a) == a[0] * p + x && FromBigEndian(b) == b[0] * p + y;
    }
  }

  lemma {:induction false} LessIrreflexive(a: Key)
    ensures !Less(a, a)
  {
    if a != [] { LessIrreflexive(a[1..]); }
  }

  lemma {:induction false} LessTransitive(a: Key, b: Key, c: Key)
    requires Less(a, b) && Less(b, c)
    ensures Less(a, c)
  {
    if a != [] && a[0] == b[0] == c[0] { LessTransitive(a[1..], b[1..], c[1..]); }
  }

  lemma {:induction false} LessTotal(a: Key, b: Key)
    ensures a == b || Less(a, b) || Less(b, a)
  {
    if a != [] && b != [] && a[0] == b[0] {
      LessTotal(a[1..], b[1..]);
      assert a == [a[0]] + a[1..] && b == [b[0]] + b[1..];
    }
  }

  /** Two bounds that share a prefix admit only keys with that prefix, ordered by what follows it. */
  lemma {:induction false} WithinPrefix(p: Key, x: Key, y: Key, k: Key)
    requires |x| == |y|
    ensures Within(k, p + x, p + y) <==> p <= k && Within(k[|p|..], x, y)
  {
    if p == [] {
      assert p + x == x && p + y == y && k[|p|..] == k;
    } else {
      assert p + x == [p[0]] + (p[1..] + x) && p + y == [p[0]] + (p[1..] + y);
      assert (p + x)[1..] == p[1..] + x && (p + y)[1..] == p[1..] + y;
      if k != [] && k[0] == p[0] {
        WithinPrefix(p[1..], x, y, k[1..]);
        assert k == [k[0]] + k[1..] && p == [p[0]] + p[1..];
        assert p <= k ==> k[|p|..] == k[1..][|p[1..]|..];
        assert p[1..] <= k[1..] <==> p <= k;
        assert k == p + x <==> k[1..] == p[1..] + x;
      }
    }
  }

  // ---- signed 64-bit numbers ----

  /** The unsigned number with the same 64 bits. */
  function Bits(x: I64): (u: nat)
    ensures u < TWO_64
  {
    if x < 0 then x + TWO_64 else x
  }

  function FromBits(u: nat): (x: I64)
    requires u < TWO_64
  {
    if u < TWO_63 then u else u - TWO_64
  }

  lemma SpanOfEight()
    ensures Span(8) == TWO_64
  {
    assert Span(2) == 0x1_0000;
    assert Span(4) == 0x1_0000_0000;
    assert Span(6) == 0x1_0000_0000_0000;
  }

  /** `i64::to_be_bytes`. */
  function ToBytes(x: I64): (s: Key)
    ensures |s| == 8
  {
    SpanOfEight();
    BigEndian(Bits(x), 8)
  }

  /** `i64::from_be_bytes`. */
  function FromBytes(s: Key): I64
    requires |s| == 8
  {
    SpanOfEight();
    FromBits(FromBigEndian(s))
  }

  lemma BytesRoundTrip(x: I64)
    ensures FromBytes(ToBytes(x)) == x
  {
    SpanOfEight();
    DecodeEncoded(Bits(x), 8);
  }

  lemma BytesOrder(x: I64, y: I64)
    ensures Less(ToBytes(x), ToBytes(y)) <==> Bits(x) < Bits(y)
    ensures Less(ToBytes(x), ToBytes(y)) <==> if x < 0 <==> y < 0 then x < y else y < 0
  {
    SpanOfEight();
    DecodeEncoded(Bits(x), 8);
    DecodeEncoded(Bits(y), 8);
    BigEndianOrder(ToBytes(x), ToBytes(y));
  }
}
