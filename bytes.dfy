/** Octets on the serial link, the frame markers, and the little-endian integer
    encodings shared by the firmware (which sends a packed struct from a
    little-endian core) and the host decoders (`int.from_bytes(raw, "little")`). */
module Bytes {

  /** One octet on the wire. */
  type Byte = x: int | 0 <= x < 256

  datatype Option<T> = None | Some(value: T)

  /** The ASCII start marker "head" and end marker "tail" of every telemetry frame. */
  const HEAD: seq<Byte> := [0x68, 0x65, 0x61, 0x64]
  const TAIL: seq<Byte> := [0x74, 0x61, 0x69, 0x6c]

  /** 256 to the power n: the number of values n bytes can hold. */
  function Pow256(n: nat): (r: nat)
    ensures r > 0
  {
    if n == 0 then 1 else 256 * Pow256(n - 1)
  }

  /** Little-endian unsigned value of bs. */
  function Unsigned(bs: seq<Byte>): (v: nat)
    ensures v < Pow256(|bs|)
  {
    if bs == [] then 0 else bs[0] + 256 * Unsigned(bs[1..])
  }

  /** Little-endian two's-complement value of bs: negative exactly when the top bit is set.
      The empty sequence has value 0, as in Python. */
  function Signed(bs: seq<Byte>): (v: int)
    ensures -(Pow256(|bs|) as int) <= 2 * v < Pow256(|bs|)
    ensures v >= 0 <==> 2 * Unsigned(bs) < Pow256(|bs|)
  {
    var u := Unsigned(bs);
    if 2 * u >= Pow256(|bs|) then u - Pow256(|bs|) else u
  }

  /** The n low-order bytes of v, least significant first (how a little-endian
      core lays out an unsigned field in memory). */
  function EncodeUnsigned(v: nat, n: nat): (bs: seq<Byte>)
    ensures |bs| == n
  {
    if n == 0 then [] else [v % 256] + EncodeUnsigned(v / 256, n - 1)
  }

  /** Two's-complement layout of v in n bytes: the bytes of v modulo 256^n. */
  function EncodeSigned(v: int, n: nat): (bs: seq<Byte>)
    ensures |bs| == n
  {
    EncodeUnsigned(v % Pow256(n), n)
  }

  /** m * d is at least m for a positive m and d. */
  lemma MulAtLeast(m: int, d: int)
    requires m > 0 && d >= 1
    ensures m * d >= m
  {
  }

  /** Division by m is determined by any quotient/remainder pair with 0 <= c < m. */
  lemma DivModUnique(v: int, m: int, a: int, c: int)
    requires m > 0 && 0 <= c < m && v == m * a + c
    ensures v / m == a && v % m == c
  {
    var q, r := v / m, v % m;
    assert m * (a - q) == r - c;
    if a - q >= 1 {
      MulAtLeast(m, a - q);
      assert false;
    }
    if q - a >= 1 {
      MulAtLeast(m, q - a);
      assert false;
    }
  }

  /** Reducing modulo 256 * p splits into the low byte and the rest modulo p. */
  lemma ModSplit(v: nat, p: nat)
    requires p > 0
    ensures v % (256 * p) == v % 256 + 256 * ((v / 256) % p)
  {
    var q, r := v / 256, v % 256;
    var a, b := q / p, q % p;
    assert q == p * a + b;
    assert v == (256 * p) * a + (256 * b + r) by {
      assert v == 256 * q + r;
      assert 256 * q == 256 * (p * a) + 256 * b;
      assert 256 * (p * a) == (256 * p) * a;
    }
    assert 256 * b + r < 256 * p by {
      assert b <= p - 1;
      assert 256 * b <= 256 * (p - 1) == 256 * p - 256;
    }
    DivModUnique(v, 256 * p, a, 256 * b + r);
  }

  /** Decoding the encoding of v gives v back, reduced to the width. */
  lemma {:induction false} UnsignedOfEncode(v: nat, n: nat)
    ensures Unsigned(EncodeUnsigned(v, n)) == v % Pow256(n)
  {
    if n == 0 {
      assert v % 1 == 0;
    } else {
      var bs := EncodeUnsigned(v, n);
      assert bs[0] == v % 256;
      assert bs[1..] == EncodeUnsigned(v / 256, n - 1);
      UnsignedOfEncode(v / 256, n - 1);
      ModSplit(v, Pow256(n - 1));
    }
  }

  /** Round trip on integers: every value that fits in n bytes survives encode/decode. */
  lemma RoundTripUnsigned(v: nat, n: nat)
    requires v < Pow256(n)
    ensures Unsigned(EncodeUnsigned(v, n)) == v
  {
    UnsignedOfEncode(v, n);
    DivModUnique(v, Pow256(n), 0, v);
  }

  /** Round trip on bytes: re-encoding a decoded sequence gives the same bytes. */
  lemma {:induction false} EncodeOfUnsigned(bs: seq<Byte>)
    ensures EncodeUnsigned(Unsigned(bs), |bs|) == bs
  {
    if bs != [] {
      var u := Unsigned(bs);
      DivModUnique(u, 256, Unsigned(bs[1..]), bs[0]);
      EncodeOfUnsigned(bs[1..]);
    }
  }

  /** Round trip for two's complement: every value in [-256^n/2, 256^n/2) survives. */
  lemma RoundTripSigned(v: int, n: nat)
    requires -(Pow256(n) as int) <= 2 * v < Pow256(n)
    ensures Signed(EncodeSigned(v, n)) == v
  {
    var p := Pow256(n);
    if v >= 0 {
      DivModUnique(v, p, 0, v);
    } else {
      DivModUnique(v, p, -1, v + p);
    }
    RoundTripUnsigned(v % p, n);
  }

  /** A slice of a sequence that sits at offset k of s is the same slice of s, shifted by k. */
  lemma SliceOfSlice<T>(s: seq<T>, k: nat, t: seq<T>, a: nat, b: nat)
    requires k + |t| <= |s| && s[k..k + |t|] == t && a <= b <= |t|
    ensures s[k + a..k + b] == t[a..b]
  {
    forall i | 0 <= i < b - a
      ensures s[k + a..k + b][i] == t[a..b][i]
    {
      assert t[a + i] == s[k..k + |t|][a + i];
    }
  }
}
