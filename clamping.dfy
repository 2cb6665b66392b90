/** Turning 32 bytes into a scalar the way Ed25519 does.

    `SetBytesWithClamping` of the curve library prunes the buffer as step 2
    of section 5.1.5 of RFC 8032 asks (clear the three lowest bits of the
    first octet, clear the highest bit of the last octet, set the second
    highest bit of the last octet), reads it as a little-endian integer and
    reduces that integer mod L.
 */
module Clamping {
  import opened Group
  import opened Arithmetic

  type Byte = bv8

  /** 2^n. */
  function Pow2(n: nat): (r: nat)
    ensures r > 0
  {
    if n == 0 then 1 else 2 * Pow2(n - 1)
  }

  /** The value of one byte. */
  function ByteValue(b: Byte): (n: nat)
    ensures n < 256
  {
    b as nat
  }

  /** The unsigned integer whose little-endian encoding is `s`. */
  function LittleEndian(s: seq<Byte>): nat
  {
    if s == [] then 0 else ByteValue(s[0]) + 256 * LittleEndian(s[1..])
  }

  /** The pruned buffer of section 5.1.5 of RFC 8032. */
  function Clamp(b: seq<Byte>): (c: seq<Byte>)
    requires |b| == 32
    ensures |c| == 32
    ensures c[0] & 7 == 0 && c[0] & 248 == b[0] & 248
    ensures c[31] & 128 == 0 && c[31] & 64 == 64 && c[31] & 63 == b[31] & 63
    ensures forall i :: 0 < i < 31 ==> c[i] == b[i]
  {
    b[0 := b[0] & 248][31 := (b[31] & 127) | 64]
  }

  /** The scalar the curve library makes of 32 bytes: the pruned integer,
      a multiple of the cofactor with bit 254 set and bit 255 clear, reduced
      mod L. Its length error cannot arise here: every caller passes the
      first 32 bytes of a digest. */
  function SetBytesWithClamping(b: seq<Byte>): (r: Scalar)
    requires |b| == 32
    ensures var k := LittleEndian(Clamp(b));
      k % Cofactor == 0 && Pow2(254) <= k < Pow2(255) && r == k % L
  {
    ClampedInteger(b);
    LittleEndian(Clamp(b)) % L
  }

  // ---------------------------------------------------------------------

  lemma {:induction false} Pow2Add(a: nat, b: nat)
    ensures Pow2(a + b) == Pow2(a) * Pow2(b)
  {
    if a > 0 {
      Pow2Add(a - 1, b);
    }
  }

  /** Appending a byte adds it at the weight of its position. */
  lemma {:induction false} LittleEndianSnoc(p: seq<Byte>, x: Byte)
    ensures LittleEndian(p + [x]) == LittleEndian(p) + Pow2(8 * |p|) * ByteValue(x)
  {
    if p == [] {
      assert [x][1..] == [] && Pow2(0) == 1;
      assert LittleEndian([x]) == ByteValue(x);
    } else {
      var q := p[1..];
      var w, v, a := Pow2(8 * |q|), ByteValue(x), LittleEndian(q);
      assert (p + [x])[1..] == q + [x];
      assert LittleEndian(p + [x]) == ByteValue(p[0]) + 256 * LittleEndian(q + [x]);
      LittleEndianSnoc(q, x);
      Pow2Next(p);
      assert LittleEndian(p) == ByteValue(p[0]) + 256 * a;
      SnocArithmetic(ByteValue(p[0]), a, w, v);
    }
  }

  /** Each byte weighs 256 times the next lower one. */
  lemma Pow2Next(p: seq<Byte>)
    requires p != []
    ensures Pow2(8 * |p|) == 256 * Pow2(8 * |p[1..]|)
  {
    Pow2Add(8, 8 * |p[1..]|);
    assert Pow2(8) == 256;
    assert 8 * |p| == 8 + 8 * |p[1..]|;
  }

  lemma SnocArithmetic(b0: nat, a: nat, w: nat, v: nat)
    ensures b0 + 256 * (a + w * v) == (b0 + 256 * a) + (256 * w) * v
  {
    MulAssoc(256, w, v);
  }

  /** n bytes encode an integer below 2^(8n). */
  lemma {:induction false} LittleEndianBound(s: seq<Byte>)
    ensures LittleEndian(s) < Pow2(8 * |s|)
  {
    if s != [] {
      LittleEndianBound(s[1..]);
      Pow2Add(8, 8 * (|s| - 1));
      assert Pow2(8) == 256;
    }
  }

  /** A clamped buffer encodes a multiple of the cofactor with bit 254 set and
      bit 255 clear. */
  lemma ClampedInteger(b: seq<Byte>)
    requires |b| == 32
    ensures var k := LittleEndian(Clamp(b));
      k % 8 == 0 && Pow2(254) <= k < Pow2(255)
  {
    ClampedMultipleOfCofactor(b);
    ClampedRange(b);
  }

  lemma ClampedMultipleOfCofactor(b: seq<Byte>)
    requires |b| == 32
    ensures LittleEndian(Clamp(b)) % 8 == 0
  {
    var c := Clamp(b);
    assert ByteValue(c[0]) % 8 == 0 by { LowBitsClear(c[0]); }
    assert LittleEndian(c) == ByteValue(c[0]) + 8 * (32 * LittleEndian(c[1..]));
    ModAddMultiple(ByteValue(c[0]), 32 * LittleEndian(c[1..]), 8);
  }

  lemma ClampedRange(b: seq<Byte>)
    requires |b| == 32
    ensures Pow2(254) <= LittleEndian(Clamp(b)) < Pow2(255)
  {
    var c := Clamp(b);
    var p, top := c[..31], ByteValue(c[31]);
    assert c == p + [c[31]];
    LittleEndianSnoc(p, c[31]);
    LittleEndianBound(p);
    assert 64 <= top < 128 by { TopBits(c[31]); }
    TopByteRange(LittleEndian(p), Pow2(248), top);
    TopByteWeight();
  }

  /** The weights of bits 254 and 255, in terms of the weight of byte 31. */
  lemma TopByteWeight()
    ensures Pow2(254) == 64 * Pow2(248) && Pow2(255) == 128 * Pow2(248)
  {
    Pow2Add(6, 248);
    Pow2Add(7, 248);
    assert Pow2(6) == 64 && Pow2(7) == 128;
  }

  /** lo + w·top with lo < w and 64 <= top < 128 lies in [64·w, 128·w). */
  lemma TopByteRange(lo: nat, w: nat, top: nat)
    requires lo < w && 64 <= top < 128
    ensures 64 * w <= lo + w * top < 128 * w
  {
    MulMonotone(w, 64, top);
    MulMonotone(w, top, 127);
  }

  lemma LowBitsClear(x: Byte)
    requires x & 7 == 0
    ensures x as nat % 8 == 0
  {
  }

  lemma TopBits(x: Byte)
    requires x & 128 == 0 && x & 64 == 64
    ensures 64 <= x as nat < 128
  {
  }

  /** Clamping a clamped buffer changes nothing. A sanity fact about the
      pruning rule: neither the protocol nor the scalar derivation relies
      on it. */
  lemma ClampIdempotent(b: seq<Byte>)
    requires |b| == 32
    ensures Clamp(Clamp(b)) == Clamp(b)
  {
    var c := Clamp(b);
    assert Clamp(c)[0] == c[0] && Clamp(c)[31] == c[31];
  }
}
