/** What the protocol takes from Ed25519 and its libraries: SHA-512, the
    point encoding, private keys and the seed-to-scalar derivation.

    SHA-512 and the compressed point encoding are not modelled: they are
    parameters of every operation, bundled as `Primitives`. The one fact the
    protocol relies on about them is that decoding an encoded point gives the
    point back (`Sound`).
 */
module Ed25519 {
  import opened Group
  import opened Clamping

  datatype Option<T> = None | Some(value: T)

  /** A SHA-512 digest. */
  type Digest = d: seq<Byte> | |d| == 64 witness seq(64, _ => 0)

  /** A 32-byte compressed point encoding. */
  type Encoding = e: seq<Byte> | |e| == 32 witness seq(32, _ => 0)

  /** An Ed25519 private-key seed. */
  type Seed = s: seq<Byte> | |s| == 32 witness seq(32, _ => 0)

  /** The external primitives: SHA-512, point encoding (`Point.Bytes`) and
      point decoding (`Point.SetBytes`, which rejects some byte strings). */
  datatype Primitives = Primitives(
    sha512: seq<Byte> -> Digest,
    encode: Point -> Encoding,
    decode: seq<Byte> -> Option<Point>)

  /** Decoding inverts encoding. */
  ghost predicate Sound(p: Primitives)
  {
    forall P: Point :: p.decode(p.encode(P)) == Some(P)
  }

  /** An Ed25519 private key, reduced to the seed it is generated from. */
  datatype PrivateKey = PrivateKey(seed: Seed)

  /** A scalar derived from key material: SHA-512 of the input, first 32
      bytes, clamped and reduced mod L. Long-term, ephemeral and binding
      scalars are all made this way. The pruned integer is a multiple of the
      cofactor in [2^254, 2^255). */
  function DeriveScalar(sha512: seq<Byte> -> Digest, material: seq<Byte>): (r: Scalar)
    ensures var k := LittleEndian(Clamp(sha512(material)[..32]));
      k % Cofactor == 0 && Pow2(254) <= k < Pow2(255) && r == k % L
  {
    SetBytesWithClamping(sha512(material)[..32])
  }

  /** The Ed25519 public key of a private key: the encoding of s·B, where s
      is the key's secret scalar. It is the encoding of a point of the
      prime-order subgroup whose discrete log is s, and a sound decoder gives
      that point back. */
  function Public(p: Primitives, sk: PrivateKey): (pk: Encoding)
    ensures pk == p.encode(Point(DeriveScalar(p.sha512, sk.seed), 0))
    ensures Sound(p) ==> p.decode(pk) == Some(Point(DeriveScalar(p.sha512, sk.seed), 0))
  {
    BaseMultiple(DeriveScalar(p.sha512, sk.seed));
    p.encode(ScalarMult(DeriveScalar(p.sha512, sk.seed), BasePoint))
  }
}
