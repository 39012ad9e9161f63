/**
 * Byte-level building blocks of the metrics wire format: fixed-width big-endian
 * integers, 64-bit two's complement, NUL-terminated strings, and the truncating
 * remainder of C and C++.
 *
 * The serialising stream of the C++ stores is modelled as a plain byte sequence that
 * the writers append to: an 8-byte integer is appended most significant byte first
 * (the layout the test decoders read back), a string is appended with its bytes and a
 * terminating NUL, and a raw payload is appended unchanged.
 */
module Bytes {
  type byte = b: int | 0 <= b < 256

  const TWO_32: nat := 0x1_0000_0000
  const TWO_63: nat := 0x8000_0000_0000_0000
  const TWO_64: nat := 0x1_0000_0000_0000_0000

  /** C `unsigned int` and the 64-bit integers of the wire format. */
  type u32 = x: int | 0 <= x < 0x1_0000_0000
  type u64 = x: int | 0 <= x < 0x1_0000_0000_0000_0000
  type Int32 = x: int | -0x8000_0000 <= x < 0x8000_0000
  type i64 = x: int | -0x8000_0000_0000_0000 <= x < 0x8000_0000_0000_0000

  function Pow256(w: nat): (p: nat)
    ensures p > 0
  {
    if w == 0 then 1 else 256 * Pow256(w - 1)
  }

  lemma Pow256Widths()
    ensures Pow256(4) == TWO_32 && Pow256(8) == TWO_64
  {
  }

  /** The number a byte string denotes when read most significant byte first. */
  function Unsigned(s: seq<byte>): (n: nat)
    ensures n < Pow256(|s|)
  {
    if |s| == 0 then 0 else Unsigned(s[..|s| - 1]) * 256 + s[|s| - 1]
  }

  /** The w-byte big-endian encoding of x. */
  function BigEndian(x: nat, w: nat): (r: seq<byte>)
    requires x < Pow256(w)
    ensures |r| == w
  {
    if w == 0 then [] else BigEndian(x / 256, w - 1) + [x % 256]
  }

  /** Reading back a big-endian encoding gives the encoded number. */
  lemma {:induction false} UnsignedOfBigEndian(x: nat, w: nat)
    requires x < Pow256(w)
    ensures Unsigned(BigEndian(x, w)) == x
  {
    if w > 0 {
      var r := BigEndian(x, w);
      assert r[..w - 1] == BigEndian(x / 256, w - 1);
      UnsignedOfBigEndian(x / 256, w - 1);
    }
  }

  /** Encoding the number a byte string denotes gives the byte string back. */
  lemma {:induction false} BigEndianOfUnsigned(s: seq<byte>)
    ensures BigEndian(Unsigned(s), |s|) == s
  {
    if |s| > 0 {
      var p := s[..|s| - 1];
      assert Unsigned(s) / 256 == Unsigned(p);
      assert Unsigned(s) % 256 == s[|s| - 1];
      BigEndianOfUnsigned(p);
      assert s == p + [s[|s| - 1]];
    }
  }

  /** A big-endian number splits at any byte boundary into its high and low parts. */
  lemma {:induction false} UnsignedAppend(a: seq<byte>, b: seq<byte>)
    ensures Unsigned(a + b) == Unsigned(a) * Pow256(|b|) + Unsigned(b)
  {
    if |b| > 0 {
      var b' := b[..|b| - 1];
      var last := b[|b| - 1];
      assert (a + b)[..|a + b| - 1] == a + b';
      UnsignedAppend(a, b');
      var ua, p, ub := Unsigned(a), Pow256(|b'|), Unsigned(b');
      assert Unsigned(a + b) == (ua * p + ub) * 256 + last;
      ScaleProduct(ua, p);
      assert Pow256(|b|) == p * 256;
      assert Unsigned(b) == ub * 256 + last;
    } else {
      assert a + b == a;
    }
  }

  lemma ScaleProduct(x: int, y: int)
    ensures (x * y) * 256 == x * (y * 256)
  {
  }

  /** The bit pattern of a 64-bit two's-complement integer. */
  function ToUnsigned64(x: i64): (u: u64)
    ensures u % TWO_64 == x % TWO_64
  {
    if x < 0 then x + TWO_64 else x
  }

  /** The 64-bit two's-complement integer with a given bit pattern. */
  function ToSigned64(u: u64): (x: i64)
    ensures x % TWO_64 == u % TWO_64
    ensures (x < 0) <==> (u >= TWO_63)
  {
    if u < TWO_63 then u else u - TWO_64
  }

  /** Two's complement is a bijection between i64 and u64. */
  lemma SignedUnsignedInverse(x: i64, u: u64)
    ensures ToSigned64(ToUnsigned64(x)) == x
    ensures ToUnsigned64(ToSigned64(u)) == u
  {
  }

  /** `stream << (int64_t) x`: eight bytes, most significant first. */
  function I64(x: i64): (r: seq<byte>)
    ensures |r| == 8
  {
    Pow256Widths();
    BigEndian(ToUnsigned64(x), 8)
  }

  /** The conversion `(int64_t) x` of a wider or unsigned integer: x modulo 2^64, read as two's complement. */
  function Int64Cast(x: int): (r: i64)
    ensures -0x8000_0000_0000_0000 <= x < 0x8000_0000_0000_0000 ==> r == x
  {
    ToSigned64(x % TWO_64)
  }

  /** `stream << (uint64_t) x`. */
  function U64(x: u64): (r: seq<byte>)
    ensures |r| == 8
  {
    Pow256Widths();
    BigEndian(x, 8)
  }

  /** `stream << s` for a string: its bytes, then a terminating NUL. */
  function CStr(s: seq<byte>): (r: seq<byte>)
    ensures |r| == |s| + 1 && r[|s|] == 0 && r[..|s|] == s
  {
    s + [0]
  }

  /** The bytes of an ASCII string literal. */
  function Ascii(s: string): (r: seq<byte>)
    requires forall i :: 0 <= i < |s| ==> s[i] as int < 128
    ensures |r| == |s| && forall i :: 0 <= i < |s| ==> r[i] == s[i] as int
  {
    seq(|s|, i requires 0 <= i < |s| => s[i] as int)
  }

  /** The bytes of a C string: everything before the first NUL (all of s if it has none). */
  function UntilNul(s: seq<byte>): (r: seq<byte>)
    ensures 0 !in r && r <= s
    ensures |r| < |s| ==> s[|r|] == 0
  {
    if |s| == 0 || s[0] == 0 then [] else [s[0]] + UntilNul(s[1..])
  }

  lemma {:induction false} UntilNulOfCStr(s: seq<byte>, rest: seq<byte>)
    requires 0 !in s
    ensures UntilNul(CStr(s) + rest) == s
  {
    if |s| > 0 {
      assert (CStr(s) + rest)[1..] == CStr(s[1..]) + rest;
      UntilNulOfCStr(s[1..], rest);
    }
  }

  function Abs(x: int): nat
  {
    if x < 0 then -x else x
  }

  /** C and C++ `a % b`: the quotient is truncated toward zero, so the remainder takes the sign of a. */
  function CRem(a: int, b: int): (r: int)
    requires b != 0
    ensures Abs(r) == Abs(a) % Abs(b) && Abs(r) < Abs(b)
    ensures r == 0 || ((r < 0) <==> (a < 0))
  {
    var m := Abs(a) % Abs(b);
    if a < 0 then -m else m
  }

  /** x reduced modulo c, for 0 <= x < 2c. */
  function Wrap(x: nat, c: nat): nat
  {
    if x < c then x else x - c
  }

  /** Appending to a stream in two steps or in one gives the same bytes. */
  lemma AppendAssoc<T>(a: seq<T>, b: seq<T>, c: seq<T>)
    ensures (a + b) + c == a + (b + c)
  {
  }

  lemma ModIsWrap(x: nat, c: nat)
    requires 0 < c && x < 2 * c
    ensures x % c == Wrap(x, c)
  {
    if x >= c {
      assert x == 1 * c + (x - c);
    }
  }

  /** The chunks f(xs[0]), f(xs[1]), ... written one after the other. */
  function Concat<T>(xs: seq<T>, f: T -> seq<byte>): seq<byte>
  {
    if xs == [] then [] else f(xs[0]) + Concat(xs[1..], f)
  }

  lemma ConcatFront<T>(xs: seq<T>, rest: seq<byte>, f: T -> seq<byte>)
    requires xs != []
    ensures Concat(xs, f) + rest == f(xs[0]) + (Concat(xs[1..], f) + rest)
  {
    var a, b := f(xs[0]), Concat(xs[1..], f);
    assert (a + b) + rest == a + (b + rest);
  }

  /** Appending one item appends its chunk. */
  lemma {:induction false} ConcatAppend<T>(xs: seq<T>, x: T, f: T -> seq<byte>)
    ensures Concat(xs + [x], f) == Concat(xs, f) + f(x)
    decreases |xs|
  {
    if xs == [] {
      assert ([] + [x])[1..] == [];
    } else {
      assert (xs + [x])[1..] == xs[1..] + [x];
      ConcatAppend(xs[1..], x, f);
      var a, b := f(xs[0]), Concat(xs[1..], f);
      assert (a + b) + f(x) == a + (b + f(x));
    }
  }

  lemma ConcatSnoc<T>(xs: seq<T>, j: nat, f: T -> seq<byte>)
    requires j < |xs|
    ensures Concat(xs[..j + 1], f) == Concat(xs[..j], f) + f(xs[j])
  {
    assert xs[..j + 1] == xs[..j] + [xs[j]];
    ConcatAppend(xs[..j], xs[j], f);
  }

  /** A writer's loop over a sequence: the chunk of every item is appended to the stream, in order. */
  method AppendAll<T>(stream: seq<byte>, xs: seq<T>, f: T -> seq<byte>) returns (out: seq<byte>)
    ensures out == stream + Concat(xs, f)
  {
    out := stream;
    var j := 0;
    while j < |xs|
      invariant 0 <= j <= |xs|
      invariant out == stream + Concat(xs[..j], f)
    {
      out := out + f(xs[j]);
      ConcatSnoc(xs, j, f);
      j := j + 1;
    }
    assert xs[..j] == xs;
  }
}
