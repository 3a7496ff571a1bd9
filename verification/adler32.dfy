/**
 * `zlib.adler32(entity_id.encode('utf-8'))`: the UTF-8 encoding of a string
 * and the Adler-32 checksum of section 2.2 of RFC 1950.
 */
module Adler32 {

  type Byte = x: int | 0 <= x < 256

  /** The modulus of both running sums: the largest prime below 2^16. */
  const Base := 65521

  /** UTF-8 encoding of one Unicode scalar value. */
  function EncodeChar(c: char): (r: seq<Byte>)
    ensures 1 <= |r| <= 4
    ensures |r| == 1 <==> (c as int) < 0x80
  {
    var cp := c as int;
    if cp < 0x80 then [cp]
    else if cp < 0x800 then [0xC0 + cp / 0x40, 0x80 + cp % 0x40]
    else if cp < 0x1_0000 then
      [0xE0 + cp / 0x1000, 0x80 + (cp / 0x40) % 0x40, 0x80 + cp % 0x40]
    else
      [0xF0 + cp / 0x4_0000, 0x80 + (cp / 0x1000) % 0x40, 0x80 + (cp / 0x40) % 0x40, 0x80 + cp % 0x40]
  }

  /** Reads back the code point from the bytes of one UTF-8 encoded character. */
  function DecodeChar(bytes: seq<Byte>): int
    requires 1 <= |bytes| <= 4
  {
    var b0: int := bytes[0];
    if |bytes| == 1 then b0
    else
      var b1: int := bytes[1];
      if |bytes| == 2 then (b0 - 0xC0) * 0x40 + (b1 - 0x80)
      else
        var b2: int := bytes[2];
        if |bytes| == 3 then ((b0 - 0xE0) * 0x40 + (b1 - 0x80)) * 0x40 + (b2 - 0x80)
        else
          var b3: int := bytes[3];
          (((b0 - 0xF0) * 0x40 + (b1 - 0x80)) * 0x40 + (b2 - 0x80)) * 0x40 + (b3 - 0x80)
  }

  /** Encoding one character loses nothing: decoding gives its code point back. */
  lemma EncodeCharRoundTrip(c: char)
    ensures DecodeChar(EncodeChar(c)) == c as int
  {
    var cp := c as int;
    if cp >= 0x1_0000 {
      var q := cp / 0x40;
      assert cp == q * 0x40 + cp % 0x40;
      assert q / 0x40 == cp / 0x1000;
      assert (q / 0x40) / 0x40 == cp / 0x4_0000;
    } else if cp >= 0x800 {
      var q := cp / 0x40;
      assert cp == q * 0x40 + cp % 0x40;
      assert q / 0x40 == cp / 0x1000;
    }
  }

  /** `s.encode('utf-8')`. */
  function Utf8(s: string): (r: seq<Byte>)
    ensures |s| <= |r| <= 4 * |s|
  {
    if |s| == 0 then [] else EncodeChar(s[0]) + Utf8(s[1..])
  }

  /** An ASCII string encodes to its code points, one byte per character. */
  lemma {:induction false} Utf8Ascii(s: string)
    requires forall i :: 0 <= i < |s| ==> (s[i] as int) < 0x80
    ensures |Utf8(s)| == |s|
    ensures forall i :: 0 <= i < |s| ==> Utf8(s)[i] == s[i] as int
  {
    if |s| > 0 {
      Utf8Ascii(s[1..]);
    }
  }

  /** The two running sums, each kept reduced modulo Base. */
  datatype Sums = Sums(a: int, b: int)

  /**
   * The sums of section 2.2 of RFC 1950, reduced after every byte: A starts
   * at 1 and B at 0; each byte D is added to A and the new A to B, both
   * reduced modulo Base.
   */
  function Running(data: seq<Byte>): (r: Sums)
    ensures 0 <= r.a < Base && 0 <= r.b < Base
    decreases |data|
  {
    if |data| == 0 then Sums(1, 0)
    else
      var s := Running(data[..|data| - 1]);
      var a := (s.a + data[|data| - 1]) % Base;
      Sums(a, (s.b + a) % Base)
  }

  /** The checksum: B in the high 16 bits, A in the low 16 bits. */
  function Checksum(data: seq<Byte>): (r: nat)
    ensures r < 0x1_0000_0000
    ensures r % 0x1_0000 == Running(data).a
    ensures r / 0x1_0000 == Running(data).b
  {
    var s := Running(data);
    s.b * 0x1_0000 + s.a
  }

  /** D1 + D2 + ... + Dn, unreduced. */
  function Sum(data: seq<Byte>): int
    decreases |data|
  {
    if |data| == 0 then 0 else Sum(data[..|data| - 1]) + data[|data| - 1]
  }

  /** A = 1 + D1 + D2 + ... + Dn, before reduction. */
  function TotalA(data: seq<Byte>): int
  {
    1 + Sum(data)
  }

  /** B = (1 + D1) + (1 + D1 + D2) + ... + (1 + D1 + ... + Dn), before reduction. */
  function TotalB(data: seq<Byte>): int
    decreases |data|
  {
    if |data| == 0 then 0 else TotalB(data[..|data| - 1]) + TotalA(data)
  }

  lemma ModAddLeft(x: int, y: int)
    ensures (x % Base + y) % Base == (x + y) % Base
  {
    var q := x / Base;
    assert x == q * Base + x % Base;
    assert x % Base + y == (x + y) - q * Base;
  }

  /**
   * Reducing after every byte gives the sums that section 2.2 of RFC 1950
   * defines over the whole input, taken modulo 65521.
   */
  lemma {:induction false} RunningIsReduced(data: seq<Byte>)
    ensures Running(data) == Sums(TotalA(data) % Base, TotalB(data) % Base)
    decreases |data|
  {
    if |data| > 0 {
      var prefix := data[..|data| - 1];
      var d := data[|data| - 1];
      RunningIsReduced(prefix);
      assert TotalA(data) == TotalA(prefix) + d;
      ModAddLeft(TotalA(prefix), d);
      var a := (Running(prefix).a + d) % Base;
      assert a == TotalA(data) % Base;
      ModAddLeft(TotalB(prefix), a);
      assert (TotalB(prefix) + a) % Base == (a + TotalB(prefix)) % Base;
      ModAddLeft(TotalA(data), TotalB(prefix));
    }
  }

  /** The unreduced sums of n bytes: A <= 1 + 255n, and n <= B <= n + 255n(n+1)/2. */
  lemma {:induction false} TotalBBounds(data: seq<Byte>)
    ensures 1 <= TotalA(data) <= 1 + 255 * |data|
    ensures |data| <= TotalB(data)
    ensures 2 * TotalB(data) <= 2 * |data| + 255 * |data| * (|data| + 1)
    decreases |data|
  {
    if |data| > 0 {
      var n := |data|;
      TotalBBounds(data[..n - 1]);
      assert TotalA(data) == TotalA(data[..n - 1]) + data[n - 1];
      assert 255 * (n - 1) * n + 510 * n == 255 * n * (n + 1);
    }
  }

  /** Up to 22 bytes, B never reaches the modulus, and it is at least 1 for non-empty input. */
  lemma ShortInputSums(data: seq<Byte>)
    requires |data| <= 22
    ensures |data| <= TotalB(data) < Base
  {
    var n := |data|;
    TotalBBounds(data);
    MulLeftMono(n, 22, n + 1);
    var m := n * (n + 1);
    assert m <= 22 * 23;
    assert 2 * TotalB(data) <= 2 * 22 + 255 * 22 * 23;
  }

  lemma MulLeftMono(a: nat, b: nat, c: nat)
    requires a <= b
    ensures a * c <= b * c
  {
  }

  /** The checksum loop over the bytes. */
  method ComputeChecksum(data: seq<Byte>) returns (checksum: nat)
    ensures checksum == Checksum(data)
    ensures checksum % 0x1_0000 == TotalA(data) % Base
    ensures checksum / 0x1_0000 == TotalB(data) % Base
  {
    var a, b := 1, 0;
    var i := 0;
    while i < |data|
      invariant 0 <= i <= |data|
      invariant Sums(a, b) == Running(data[..i])
    {
      assert data[..i + 1][..i] == data[..i];
      a := (a + data[i]) % Base;
      b := (b + a) % Base;
      i := i + 1;
    }
    assert data[..|data|] == data;
    RunningIsReduced(data);
    checksum := b * 0x1_0000 + a;
  }

  /** One more byte advances the running sums by one step. */
  lemma RunningStep(data: seq<Byte>, k: nat, a: int, b: int, a': int, b': int)
    requires k < |data| && Running(data[..k]) == Sums(a, b)
    requires a' == (a + data[k]) % Base && b' == (b + a') % Base
    ensures Running(data[..k + 1]) == Sums(a', b')
  {
    assert data[..k + 1][..k] == data[..k];
  }

  lemma WikipediaBytes(s: string)
    requires s == "Wikipedia"
    ensures Utf8(s) == [87, 105, 107, 105, 112, 101, 100, 105, 97]
  {
    assert forall i :: 0 <= i < |s| ==> (s[i] as int) < 0x80;
    Utf8Ascii(s);
  }

  /** A widely published check value: adler32(b"Wikipedia") == 0x11E60398. */
  lemma WikipediaVector(data: seq<Byte>)
    requires data == [87, 105, 107, 105, 112, 101, 100, 105, 97]
    ensures Checksum(data) == 0x11E6_0398
  {
    assert data[..0] == [];
    RunningStep(data, 0, 1, 0, 88, 88);
    RunningStep(data, 1, 88, 88, 193, 281);
    RunningStep(data, 2, 193, 281, 300, 581);
    RunningStep(data, 3, 300, 581, 405, 986);
    RunningStep(data, 4, 405, 986, 517, 1503);
    RunningStep(data, 5, 517, 1503, 618, 2121);
    RunningStep(data, 6, 618, 2121, 718, 2839);
    RunningStep(data, 7, 718, 2839, 823, 3662);
    RunningStep(data, 8, 823, 3662, 920, 4582);
    assert data[..9] == data;
  }
}
