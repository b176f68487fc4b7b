/** Octets, fixed-width unsigned integers and their big-endian encoding
    (Go's encoding/binary BigEndian), plus the byte-lexicographic order that
    the storage engine sorts its keys by. */
module Bytes {

  type Byte = b: int | 0 <= b < 0x100
  type Uint16 = n: int | 0 <= n < 0x1_0000
  type Uint32 = n: int | 0 <= n < 0x1_0000_0000
  type Uint64 = n: int | 0 <= n < 0x1_0000_0000_0000_0000

  const TWO_TO_32: int := 0x1_0000_0000
  const TWO_TO_64: int := 0x1_0000_0000_0000_0000

  /** uint64 subtraction, which wraps. */
  function Minus(a: Uint64, b: Uint64): Uint64
  {
    if a >= b then a - b else a - b + TWO_TO_64
  }

  /** 256 to the power of width. */
  function Capacity(width: nat): nat
  {
    if width == 0 then 1 else 0x100 * Capacity(width - 1)
  }

  /** Writes the low width bytes of value, most significant byte first. */
  function BigEndian(value: nat, width: nat): (s: seq<Byte>)
    ensures |s| == width
  {
    if width == 0 then [] else BigEndian(value / 0x100, width - 1) + [value % 0x100]
  }

  function FromBigEndian(s: seq<Byte>): nat
  {
    if s == [] then 0 else FromBigEndian(s[..|s| - 1]) * 0x100 + s[|s| - 1]
  }

  lemma CapacityOfWords()
    ensures Capacity(1) == 0x100
    ensures Capacity(2) == 0x1_0000
    ensures Capacity(4) == TWO_TO_32
    ensures Capacity(8) == TWO_TO_64
  {
    assert Capacity(3) == 0x100_0000;
    assert Capacity(5) == 0x100 * TWO_TO_32;
    assert Capacity(6) == 0x1_0000 * TWO_TO_32;
    assert Capacity(7) == 0x100_0000 * TWO_TO_32;
  }

  lemma {:induction false} FromBigEndianBound(s: seq<Byte>)
    ensures FromBigEndian(s) < Capacity(|s|)
  {
    if s != [] {
      FromBigEndianBound(s[..|s| - 1]);
    }
  }

  /** Reading back what was written gives the value. */
  lemma {:induction false} BigEndianRoundTrip(value: nat, width: nat)
    requires value < Capacity(width)
    ensures FromBigEndian(BigEndian(value, width)) == value
  {
    if width != 0 {
      var head := BigEndian(value / 0x100, width - 1);
      BigEndianRoundTrip(value / 0x100, width - 1);
      assert BigEndian(value, width)[..width - 1] == head;
    }
  }

  /** Every byte string of the right width is the encoding of its value. */
  lemma {:induction false} BigEndianCanonical(s: seq<Byte>)
    ensures BigEndian(FromBigEndian(s), |s|) == s
  {
    if s != [] {
      BigEndianCanonical(s[..|s| - 1]);
      assert s == s[..|s| - 1] + [s[|s| - 1]];
    }
  }

  /** The order in which a byte-sorted database keeps its keys. */
  predicate LexLess(s: seq<Byte>, t: seq<Byte>)
  {
    if t == [] then false
    else if s == [] then true
    else s[0] < t[0] || (s[0] == t[0] && LexLess(s[1..], t[1..]))
  }

  lemma {:induction false} FromBigEndianHead(s: seq<Byte>)
    requires s != []
    ensures FromBigEndian(s) == s[0] * Capacity(|s| - 1) + FromBigEndian(s[1..])
  {
    if |s| > 1 {
      var init := s[..|s| - 1];
      FromBigEndianHead(init);
      assert init[1..] == s[1..][..|s| - 2];
      assert Capacity(|s| - 1) == 0x100 * Capacity(|s| - 2);
      MulBy256(s[0], Capacity(|s| - 2));
    }
  }

  lemma MulBy256(a: int, c: int)
    ensures a * c * 0x100 == a * (0x100 * c)
  {
  }

  /** A key that starts with a fixed-width prefix sorts below another such
      prefix exactly when the number its own prefix encodes is smaller. */
  lemma {:induction false} LexLessIsNumeric(s: seq<Byte>, suffix: seq<Byte>, t: seq<Byte>)
    requires |s| == |t|
    ensures LexLess(s + suffix, t) <==> FromBigEndian(s) < FromBigEndian(t)
  {
    if s != [] {
      LexLessIsNumeric(s[1..], suffix, t[1..]);
      assert (s + suffix)[1..] == s[1..] + suffix;
      FromBigEndianHead(s);
      FromBigEndianHead(t);
      FromBigEndianBound(s[1..]);
      FromBigEndianBound(t[1..]);
      var c := Capacity(|s| - 1);
      if s[0] < t[0] {
        HeadDominates(s[0], t[0], c);
      } else if t[0] < s[0] {
        HeadDominates(t[0], s[0], c);
      }
    }
  }

  lemma HeadDominates(a: nat, b: nat, c: nat)
    requires a < b
    ensures a * c + c <= b * c
  {
    assert b * c == (a + 1) * c + (b - a - 1) * c;
  }

  lemma ConcatAssoc<T>(a: seq<T>, b: seq<T>, c: seq<T>)
    ensures (a + b) + c == a + (b + c)
  {
  }

  // -------------------------------------------------------- quotient and remainder

  lemma ModuloOfSum(n: nat, q: nat, r: nat)
    requires n > 0 && r < n
    ensures (n * q + r) % n == r && (n * q + r) / n == q
  {
    var x := n * q + r;
    assert x == n * (x / n) + x % n;
    SameQuotient(n, q, r, x / n, x % n);
  }

  lemma Distribute(n: nat, q: nat, d: nat)
    requires d >= 1
    ensures n * (q + d) == n * q + n * d && n * d >= n
  {
    assert n * d == n * (d - 1) + n;
  }

  lemma SameQuotient(n: nat, q: nat, r: nat, p: nat, s: nat)
    requires r < n && s < n && n * q + r == n * p + s
    ensures q == p && r == s
  {
    if q < p {
      Distribute(n, q, p - q);
    } else if p < q {
      Distribute(n, p, q - p);
    }
  }
}
