/** Bytes, fixed-width unsigned integers and big-endian fields (codes/protocol.h).

    A byte is a bv8, so that XOR is the machine's XOR; integer fields are natural
    numbers below a power of two, so that wrap-around is written out where the
    program can meet it. */
module Bytes {

  type byte = bv8

  const TWO16: nat := 0x1_0000
  const TWO32: nat := 0x1_0000_0000
  const TWO64: nat := 0x1_0000_0000_0000_0000
  const INT64_MAX: nat := 0x7FFF_FFFF_FFFF_FFFF
  const UINT32_MAX: nat := 0xFFFF_FFFF

  type u16 = n: nat | n < TWO16
  type u32 = n: nat | n < TWO32
  type u64 = n: nat | n < TWO64

  datatype Option<+T> = None | Some(value: T)

  /** Subtraction of two uint64_t values: it wraps below zero. */
  function Sub64(a: u64, b: u64): (r: u64)
    ensures b <= a ==> r == a - b
    ensures a < b ==> r == a - b + TWO64
  {
    if b <= a then a - b else a - b + TWO64
  }

  /** The narrowing cast to uint32_t. */
  function U32(n: nat): (r: u32)
    ensures n < TWO32 ==> r == n
  {
    n % TWO32
  }

  function ToByte(n: nat): (b: byte)
    requires n < 256
    ensures b as int == n
  {
    ByteOfNat(n);
    n as bv8
  }

  /** The byte that counts up to n; it shows that every n below 256 is some byte's value. */
  ghost function Counted(n: nat): (b: byte)
    requires n < 256
    ensures b as int == n
  {
    if n == 0 then 0
    else
      CountOn(Counted(n - 1));
      Counted(n - 1) + 1
  }

  lemma CountOn(b: byte)
    requires b as int < 255
    ensures (b + 1) as int == b as int + 1
  {
  }

  lemma ByteOfNat(n: nat)
    requires n < 256
    ensures (n as bv8) as int == n
  {
    ByteIsItsValue(Counted(n));
  }

  lemma ByteIsItsValue(b: byte)
    ensures 0 <= b as int < 256 && (b as int) as bv8 == b
  {
  }

  lemma ToByteOfByte(b: byte)
    ensures 0 <= b as int < 256
    ensures ToByte(b as int) == b
  {
  }

  // ----- Big-endian fields -----

  function Pow256(k: nat): (r: nat)
    ensures r > 0
  {
    if k == 0 then 1 else 256 * Pow256(k - 1)
  }

  lemma Pow256Values()
    ensures Pow256(0) == 1 && Pow256(1) == 256 && Pow256(2) == TWO16
    ensures Pow256(4) == TWO32 && Pow256(8) == TWO64
  {
    assert Pow256(3) == 0x100_0000;
    assert Pow256(6) == 0x1_0000_0000_0000;
  }

  /** The n low bytes of value, most significant first: what put(out,value,n) appends. */
  function BigEndian(value: nat, n: nat): (s: seq<byte>)
    ensures |s| == n
  {
    if n == 0 then [] else BigEndian(value / 256, n - 1) + [ToByte(value % 256)]
  }

  function FromBigEndian(s: seq<byte>): (r: nat)
    ensures r < Pow256(|s|)
  {
    if s == [] then 0
    else
      ToByteOfByte(s[|s| - 1]);
      FromBigEndian(s[..|s| - 1]) * 256 + s[|s| - 1] as int
  }

  /** A reader gets back what was written, truncated to the field's width. */
  lemma {:induction false} FromBigEndianOfBigEndian(value: nat, n: nat)
    ensures FromBigEndian(BigEndian(value, n)) == value % Pow256(n)
  {
    if n > 0 {
      var s := BigEndian(value, n);
      assert s[..n - 1] == BigEndian(value / 256, n - 1);
      FromBigEndianOfBigEndian(value / 256, n - 1);
      SplitLowByte(value, Pow256(n - 1));
    }
  }

  lemma SplitLowByte(value: nat, p: nat)
    requires p > 0
    ensures value % (256 * p) == (value / 256 % p) * 256 + value % 256
  {
    var q := value / 256 / p;
    assert value == 256 * (p * q + value / 256 % p) + value % 256;
    var r := (value / 256 % p) * 256 + value % 256;
    assert value == (256 * p) * q + r;
    assert 0 <= r < 256 * p;
    QuotientUnique(value, 256 * p, q, r);
  }

  lemma QuotientUnique(x: nat, d: nat, q: nat, r: nat)
    requires d > 0 && r < d && x == d * q + r
    ensures x % d == r && x / d == q
  {
    if x / d < q {
      QuotientBelow(d, x / d, x % d, q, r);
    } else if q < x / d {
      QuotientBelow(d, q, r, x / d, x % d);
    }
  }

  lemma QuotientBelow(d: nat, q: nat, r: nat, q': nat, r': nat)
    requires r < d && q < q'
    ensures d * q + r < d * q' + r'
  {
    assert d * q' == d * (q + 1) + d * (q' - q - 1);
    assert d * (q' - q - 1) >= 0;
  }

  /** Every byte string is the encoding of the number it denotes. */
  lemma {:induction false} BigEndianOfFromBigEndian(s: seq<byte>)
    ensures BigEndian(FromBigEndian(s), |s|) == s
  {
    if s != [] {
      var last := s[|s| - 1];
      ToByteOfByte(last);
      BigEndianOfFromBigEndian(s[..|s| - 1]);
      QuotientUnique(FromBigEndian(s), 256, FromBigEndian(s[..|s| - 1]), last as int);
      assert s == s[..|s| - 1] + [last];
    }
  }

  /** Dropping the i low bytes of an encoding divides the number by 256^i. */
  lemma {:induction false} BigEndianPrefix(value: nat, n: nat, i: nat)
    requires i <= n
    ensures BigEndian(value, n)[..n - i] == BigEndian(value / Pow256(i), n - i)
  {
    if i == 0 {
      assert BigEndian(value, n)[..n] == BigEndian(value, n);
    } else {
      BigEndianPrefix(value / 256, n - 1, i - 1);
      assert BigEndian(value, n)[..n - i] == BigEndian(value / 256, n - 1)[..n - i];
      DivideTwice(value, Pow256(i - 1));
    }
  }

  lemma DivideTwice(value: nat, p: nat)
    requires p > 0
    ensures value / 256 / p == value / (256 * p)
  {
    SplitLowByte(value, p);
    var q := value / 256 / p;
    var r := (value / 256 % p) * 256 + value % 256;
    assert value == 256 * (p * q + value / 256 % p) + value % 256;
    assert value == (256 * p) * q + r;
    assert 0 <= r < 256 * p;
    QuotientUnique(value, 256 * p, q, r);
  }

  // ----- Records of fields -----

  function Total(widths: seq<nat>): (r: nat)
  {
    if widths == [] then 0 else Total(widths[..|widths| - 1]) + widths[|widths| - 1]
  }

  function EncodeFields(values: seq<nat>, widths: seq<nat>): (s: seq<byte>)
    requires |values| == |widths|
    ensures |s| == Total(widths)
  {
    if widths == [] then []
    else
      var k := |widths| - 1;
      EncodeFields(values[..k], widths[..k]) + BigEndian(values[k], widths[k])
  }

  function DecodeFields(b: seq<byte>, widths: seq<nat>): (values: seq<nat>)
    requires |b| >= Total(widths)
    ensures |values| == |widths|
    ensures forall i :: 0 <= i < |widths| ==> values[i] < Pow256(widths[i])
  {
    if widths == [] then []
    else
      var k := |widths| - 1;
      DecodeFields(b, widths[..k]) + [FromBigEndian(b[Total(widths[..k])..Total(widths)])]
  }

  ghost predicate FieldsFit(values: seq<nat>, widths: seq<nat>)
  {
    |values| == |widths| && forall i :: 0 <= i < |widths| ==> values[i] < Pow256(widths[i])
  }

  lemma FieldRoundTrip(value: nat, n: nat)
    requires value < Pow256(n)
    ensures FromBigEndian(BigEndian(value, n)) == value
  {
    FromBigEndianOfBigEndian(value, n);
    QuotientUnique(value, Pow256(n), 0, value);
  }

  lemma {:induction false} DecodeOfEncodeFields(values: seq<nat>, widths: seq<nat>, tail: seq<byte>)
    requires FieldsFit(values, widths)
    ensures DecodeFields(EncodeFields(values, widths) + tail, widths) == values
  {
    if widths != [] {
      var k := |widths| - 1;
      assert values == values[..k] + [values[k]];
      var head, last := EncodeFields(values[..k], widths[..k]), BigEndian(values[k], widths[k]);
      var b := EncodeFields(values, widths) + tail;
      assert b == head + (last + tail);
      DecodeOfEncodeFields(values[..k], widths[..k], last + tail);
      assert b[Total(widths[..k])..Total(widths)] == last;
      FieldRoundTrip(values[k], widths[k]);
    }
  }

  lemma {:induction false} EncodeOfDecodeFields(b: seq<byte>, widths: seq<nat>)
    requires |b| >= Total(widths)
    ensures EncodeFields(DecodeFields(b, widths), widths) == b[..Total(widths)]
  {
    if widths != [] {
      var k := |widths| - 1;
      var from, to := Total(widths[..k]), Total(widths);
      EncodeOfDecodeFields(b, widths[..k]);
      BigEndianOfFromBigEndian(b[from..to]);
      assert DecodeFields(b, widths)[..k] == DecodeFields(b, widths[..k]);
      assert b[..to] == b[..from] + b[from..to];
    }
  }

  // ----- The loops of the program -----

  /** put: append the n bytes of value, most significant first. */
  method Put(out: seq<byte>, value: nat, n: nat) returns (r: seq<byte>)
    ensures r == out + BigEndian(value, n)
  {
    r := out;
    var i := n;
    while i > 0
      invariant 0 <= i <= n
      invariant r == out + BigEndian(value, n)[..n - i]
    {
      BigEndianPrefix(value, n, i - 1);
      r := r + [ToByte(value / Pow256(i - 1) % 256)];
      assert BigEndian(value, n)[..n - i] == BigEndian(value, n)[..n - i + 1][..n - i];
      i := i - 1;
    }
    assert BigEndian(value, n)[..n] == BigEndian(value, n);
  }

  /** get: read n bytes from position p, most significant first, and advance. */
  method Get(b: seq<byte>, p: nat, n: nat) returns (value: nat, next: nat)
    requires p + n <= |b|
    ensures value == FromBigEndian(b[p..p + n]) && next == p + n
  {
    value, next := 0, p;
    var left := n;
    while left > 0
      invariant 0 <= left <= n && next == p + (n - left)
      invariant value == FromBigEndian(b[p..next])
    {
      assert b[p..next + 1][..next - p] == b[p..next];
      ToByteOfByte(b[next]);
      value, next, left := value * 256 + b[next] as int, next + 1, left - 1;
    }
  }

  /** The run of put calls that writes a record. */
  method PutFields(values: seq<nat>, widths: seq<nat>) returns (r: seq<byte>)
    requires |values| == |widths|
    ensures r == EncodeFields(values, widths)
  {
    r := [];
    for k := 0 to |widths|
      invariant r == EncodeFields(values[..k], widths[..k])
    {
      r := Put(r, values[k], widths[k]);
      assert values[..k + 1][..k] == values[..k] && widths[..k + 1][..k] == widths[..k];
    }
    assert values[..|values|] == values && widths[..|widths|] == widths;
  }

  lemma {:induction false} TotalMonotone(widths: seq<nat>, k: nat)
    requires k <= |widths|
    ensures Total(widths[..k]) <= Total(widths)
  {
    if k < |widths| {
      var n := |widths| - 1;
      TotalMonotone(widths[..n], k);
      assert widths[..n][..k] == widths[..k];
    } else {
      assert widths[..k] == widths;
    }
  }

  /** The run of get calls that reads a record. */
  method GetFields(b: seq<byte>, widths: seq<nat>) returns (values: seq<nat>)
    requires |b| >= Total(widths)
    ensures values == DecodeFields(b, widths)
  {
    values := [];
    var p := 0;
    for k := 0 to |widths|
      invariant p == Total(widths[..k]) <= |b|
      invariant values == DecodeFields(b, widths[..k])
    {
      TotalMonotone(widths, k + 1);
      assert widths[..k + 1][..k] == widths[..k];
      var value;
      value, p := Get(b, p, widths[k]);
      values := values + [value];
    }
    assert widths[..|widths|] == widths;
  }
}
