/**
 * The decoding helpers of the unit tests (dev/unit-tests/utils.cpp): the reader of a
 * big-endian 64-bit integer, which loads eight bytes in host order and converts them
 * with `ntohll`, the reader of a NUL-terminated string, and the generator of random
 * alphanumeric names. The host byte order and the values `rand()` returns are
 * parameters.
 */
module TestUtils {
  import opened Bytes

  function Reverse(s: seq<byte>): (r: seq<byte>)
    ensures |r| == |s|
    ensures forall i :: 0 <= i < |s| ==> r[i] == s[|s| - 1 - i]
  {
    if |s| == 0 then [] else Reverse(s[1..]) + [s[0]]
  }

  lemma ReverseAppend(a: seq<byte>, b: seq<byte>)
    ensures Reverse(a + b) == Reverse(b) + Reverse(a)
  {
    assert forall i :: 0 <= i < |a + b| ==> Reverse(a + b)[i] == (Reverse(b) + Reverse(a))[i];
  }

  lemma ReverseReverse(s: seq<byte>)
    ensures Reverse(Reverse(s)) == s
  {
  }

  /**
   * What `*(const uintN_t*) data` yields for the bytes `data`: the first byte is the
   * most significant on a big-endian host and the least significant otherwise.
   */
  function Load(data: seq<byte>, bigEndianHost: bool): (x: nat)
    ensures x < Pow256(|data|)
  {
    if bigEndianHost then Unsigned(data) else Unsigned(Reverse(data))
  }

  /** `htonl` / `ntohl` on a little-endian host: the four bytes of x in reverse order. */
  function ByteSwap32(x: u32): (r: u32)
  {
    Pow256Widths();
    Unsigned(Reverse(BigEndian(x, 4)))
  }

  /**
   * `ntohll`: the identity when `ntohs(1) == 1` (a big-endian host); otherwise the high
   * and low 32-bit halves swap places and each is byte-swapped. The two halves of the
   * result do not overlap, so the `|` is a sum.
   */
  function Ntohll(x: u64, bigEndianHost: bool): (r: u64)
  {
    if bigEndianHost then x
    else
      var lo := x / TWO_32;
      var hi := x % TWO_32;
      ByteSwap32(hi) * TWO_32 + ByteSwap32(lo)
  }

  /** A big-endian encoding splits into the encodings of its high and low halves. */
  lemma {:induction false} BigEndianSplit(x: u64)
    ensures Pow256(4) == TWO_32 && Pow256(8) == TWO_64
    ensures BigEndian(x, 8) == BigEndian(x / TWO_32, 4) + BigEndian(x % TWO_32, 4)
  {
    Pow256Widths();
    var s := BigEndian(x, 8);
    var a, b := s[..4], s[4..];
    assert s == a + b;
    UnsignedOfBigEndian(x, 8);
    UnsignedAppend(a, b);
    var ua, ub := Unsigned(a), Unsigned(b);
    assert x == ua * TWO_32 + ub && ub < TWO_32;
    assert ua == x / TWO_32 && ub == x % TWO_32;
    BigEndianOfUnsigned(a);
    BigEndianOfUnsigned(b);
  }

  /** On a little-endian host `ntohll` reverses all eight bytes of its argument. */
  lemma {:induction false} NtohllReverses(x: u64)
    ensures Pow256(8) == TWO_64
    ensures Ntohll(x, false) == Unsigned(Reverse(BigEndian(x, 8)))
  {
    BigEndianSplit(x);
    var a, b := BigEndian(x / TWO_32, 4), BigEndian(x % TWO_32, 4);
    ReverseAppend(a, b);
    UnsignedAppend(Reverse(b), Reverse(a));
  }

  /** `get_8`: eight bytes loaded in host order, then converted with `ntohll`. */
  function Get8(data: seq<byte>, bigEndianHost: bool): (r: u64)
    requires |data| >= 8
  {
    Pow256Widths();
    Ntohll(Load(data[..8], bigEndianHost), bigEndianHost)
  }

  /** On either host `get_8` reads the first eight bytes most significant first. */
  lemma {:induction false} Get8IsBigEndian(data: seq<byte>, bigEndianHost: bool)
    requires |data| >= 8
    ensures Get8(data, bigEndianHost) == Unsigned(data[..8])
  {
    if !bigEndianHost {
      var d := data[..8];
      Pow256Widths();
      var v := Unsigned(Reverse(d));
      NtohllReverses(v);
      BigEndianOfUnsigned(Reverse(d));
      ReverseReverse(d);
    }
  }

  /** `read_longlong`: the first eight bytes as a big-endian two's-complement integer. */
  function ReadLongLong(data: seq<byte>, bigEndianHost: bool): (x: i64)
    requires |data| >= 8
  {
    ToSigned64(Get8(data, bigEndianHost))
  }

  /** `read_longlong` reads back what `stream << (int64_t) x` wrote, on either host. */
  lemma ReadLongLongOfI64(x: i64, rest: seq<byte>, bigEndianHost: bool)
    ensures ReadLongLong(I64(x) + rest, bigEndianHost) == x
  {
    var data := I64(x) + rest;
    assert data[..8] == I64(x);
    Get8IsBigEndian(data, bigEndianHost);
    Pow256Widths();
    UnsignedOfBigEndian(ToUnsigned64(x), 8);
    SignedUnsignedInverse(x, 0);
  }

  /** `read_string`: the bytes before the first NUL, the NUL excluded. */
  method ReadString(data: seq<byte>) returns (value: seq<byte>)
    requires 0 in data
    ensures value == UntilNul(data)
  {
    ghost var u := UntilNul(data);
    ghost var n := |u|;
    assert u == data[..n] && n < |data|;
    value := [];
    var i := 0;
    while data[i] != 0
      invariant 0 <= i <= n && value == data[..i]
      decreases n - i
    {
      assert data[..i + 1] == data[..i] + [data[i]];
      value := value + [data[i]];
      i := i + 1;
    }
  }

  /** `alphanum`: the ten digits, then the upper-case letters, then the lower-case ones. */
  const ALPHANUM: seq<byte> :=
    seq(10, i requires 0 <= i < 10 => 48 + i) +
    seq(26, i requires 0 <= i < 26 => 65 + i) +
    seq(26, i requires 0 <= i < 26 => 97 + i)

  lemma AlphanumHasNoNul()
    ensures |ALPHANUM| == 62 && 0 !in ALPHANUM
  {
  }

  /**
   * `generate_random_string(len)`: `len` characters, the i-th being `alphanum[rand() %
   * 62]` for the i-th value `draws[i]` that `rand()` returns, written into a buffer with a
   * NUL after them, from which the result string is built up to its first NUL.
   */
  method GenerateRandomString(len: int, draws: seq<nat>) returns (str: seq<byte>)
    requires 0 <= len <= |draws|
    ensures |str| == len
    ensures forall i :: 0 <= i < len ==> str[i] == ALPHANUM[draws[i] % 62] && str[i] in ALPHANUM
  {
    AlphanumHasNoNul();
    var s := new byte[len + 1];
    var i := 0;
    while i < len
      invariant 0 <= i <= len
      invariant forall j :: 0 <= j < i ==> s[j] == ALPHANUM[draws[j] % 62]
    {
      s[i] := ALPHANUM[draws[i] % 62];
      i := i + 1;
    }
    s[len] := 0;
    var chars := s[..len];
    assert s[..] == CStr(chars) + [];
    assert 0 !in chars by {
      forall j | 0 <= j < len
        ensures chars[j] != 0
      {
        assert chars[j] in ALPHANUM;
      }
    }
    UntilNulOfCStr(chars, []);
    str := UntilNul(s[..]);
  }
}
