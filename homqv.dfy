/** One-pass HMQV-style key agreement over edwards25519, reusing Ed25519 key
    pairs as long-term keys.

    The client knows its own long-term scalar b, the recipient's identifier
    and public key A, and draws an ephemeral key (y, Y). It sends B and Y and
    computes [8]·((b·e + y)·A). The server knows its identifier and its
    long-term scalar a, receives B and Y, and computes [8]·(a·(e·B + Y)).
    Both bind the ephemeral key to the server's identifier through
    e = H(id ++ Y). Clients, servers, senders and recipients are immutable
    values; Connect and Accept change nothing and build their result in a
    local point.
 */
module Homqv {
  import opened Arithmetic
  import opened Group
  import opened Clamping
  import opened Ed25519

  /** A party identifier, such as an e-mail address. */
  type ID = seq<Byte>

  /** The distinct failures of Connect and Accept. */
  datatype Error = InvalidRecipientKey | InvalidSenderKey | InvalidSenderNonce

  datatype Result<T> = Success(value: T) | Failure(error: Error)

  // ---------------------------------------------------------------------
  // Exponent binding.

  /** The byte string both sides hash: the identifier, then the bytes of the
      ephemeral public key. */
  function BindingInput(id: ID, Y: seq<Byte>): (m: seq<Byte>)
    ensures |m| == |id| + |Y| && m[..|id|] == id && m[|id|..] == Y
  {
    id + Y
  }

  /** e = H(id ++ Y), clamped and reduced like any other derived scalar: the
      pruned first half of the digest of the identifier followed by Y, a
      multiple of the cofactor in [2^254, 2^255), reduced mod L. */
  function BindExponent(sha512: seq<Byte> -> Digest, id: ID, Y: seq<Byte>): (e: Scalar)
    ensures var k := LittleEndian(Clamp(sha512(id + Y)[..32]));
      k % Cofactor == 0 && Pow2(254) <= k < Pow2(255) && e == k % L
  {
    DeriveScalar(sha512, BindingInput(id, Y))
  }

  /** With ephemeral keys of a fixed length, the hashed string determines both
      the identifier and the ephemeral key. */
  lemma BindingInputInjective(id1: ID, Y1: seq<Byte>, id2: ID, Y2: seq<Byte>)
    requires |Y1| == |Y2|
    ensures BindingInput(id1, Y1) == BindingInput(id2, Y2) <==> id1 == id2 && Y1 == Y2
  {
    if BindingInput(id1, Y1) == BindingInput(id2, Y2) {
      var m := BindingInput(id1, Y1);
      assert |id1| == |id2|;
      assert id1 == m[..|id1|] == id2;
      assert Y1 == m[|id1|..] == Y2;
    }
  }

  // ---------------------------------------------------------------------
  // The two shared-secret points.

  /** The client's secret point, [8]·((b·e + y)·A): it lies in the
      prime-order subgroup whatever A is. */
  function ClientSigma(b: Scalar, e: Scalar, y: Scalar, A: Point): (sigma: Point)
    ensures sigma.InPrimeOrderSubgroup()
  {
    MultByCofactor(ScalarMult(MultiplyAdd(b, e, y), A))
  }

  /** The server's secret point, [8]·(a·(e·B + Y)): it lies in the
      prime-order subgroup whatever B and Y are. */
  function ServerSigma(a: Scalar, e: Scalar, B: Point, Y: Point): (sigma: Point)
    ensures sigma.InPrimeOrderSubgroup()
  {
    MultByCofactor(ScalarMult(a, Add(ScalarMult(e, B), Y)))
  }

  /** The two sides meet whenever A, B and Y have discrete logs a, b and y,
      whatever small-order components the three points carry. */
  lemma SigmaAgreement(a: Scalar, b: Scalar, y: Scalar, e: Scalar, A: Point, B: Point, Y: Point)
    requires A.log == a && B.log == b && Y.log == y
    ensures ClientSigma(b, e, y, A) == ServerSigma(a, e, B, Y)
  {
    var t := MultiplyAdd(b, e, y);
    // Client: 8·((b·e + y mod L)·a mod L) mod L, with (b·e + y)·a folded.
    var client := (t * a) % L;
    assert client == ((b * e + y) * a) % L by {
      ModMulLeft(b * e + y, a, L);
    }
    // Server: 8·(a·(e·b mod L + y mod L) mod L) mod L.
    var inner := Add(ScalarMult(e, B), Y).log;
    assert inner == (e * b + y) % L by {
      ModAddLeft(e * b, y, L);
    }
    var server := (a * inner) % L;
    assert server == ((b * e + y) * a) % L by {
      ModMulLeft(e * b + y, a, L);
      assert a * inner == inner * a;
      assert (e * b + y) * a == (b * e + y) * a;
    }
    assert ClientSigma(b, e, y, A).log == ServerSigma(a, e, B, Y).log;
  }

  // ---------------------------------------------------------------------
  // The client.

  /** The party the client connects to. */
  datatype Recipient = Recipient(id: ID, pk: seq<Byte>)

  /** A recipient keeps its identifier and key bytes as given; the key is
      decoded only when a client connects. */
  function NewRecipient(id: ID, pk: seq<Byte>): (r: Recipient)
    ensures r.id == id && r.pk == pk
  {
    Recipient(id, pk)
  }

  /** The initiating party, holding its long-term scalar b. */
  datatype Client = Client(s: Scalar) {

    /** What Connect returns: an error exactly when the recipient's key does
        not decode, otherwise the encoding of the client's secret point. */
    function Outcome(p: Primitives, r: Recipient, nonce: PrivateKey): (out: Result<Encoding>)
      ensures out.Failure? <==> p.decode(r.pk).None?
      ensures out.Failure? ==> out.error == InvalidRecipientKey
    {
      match p.decode(r.pk)
      case None => Failure(InvalidRecipientKey)
      case Some(A) =>
        var y := DeriveScalar(p.sha512, nonce.seed);
        var e := BindExponent(p.sha512, r.id, Public(p, nonce));
        Success(p.encode(ClientSigma(s, e, y, A)))
    }

    /** Starts an exchange with `r`, using the ephemeral key `nonce`. */
    method Connect(p: Primitives, r: Recipient, nonce: PrivateKey) returns (out: Result<Encoding>)
      ensures out == Outcome(p, r, nonce)
    {
      var A := p.decode(r.pk);
      if A.None? {
        return Failure(InvalidRecipientKey);
      }
      var y := DeriveScalar(p.sha512, nonce.seed);
      var Y := Public(p, nonce);
      var e := BindExponent(p.sha512, r.id, Y);
      var b := s;
      var t := MultiplyAdd(b, e, y);
      var result := ScalarMult(t, A.value);
      result := MultByCofactor(result);
      return Success(p.encode(result));
    }
  }

  /** A client holds the secret scalar of its Ed25519 key: the discrete log
      of that key's public key. */
  function NewClient(p: Primitives, sk: PrivateKey): (c: Client)
    ensures p.encode(Point(c.s, 0)) == Public(p, sk)
    ensures Sound(p) ==> p.decode(Public(p, sk)) == Some(Point(c.s, 0))
  {
    Client(DeriveScalar(p.sha512, sk.seed))
  }

  // ---------------------------------------------------------------------
  // The server.

  /** The party that started the exchange, as the server sees it. */
  datatype Sender = Sender(pk: seq<Byte>)

  /** A sender keeps its key bytes as given; they are decoded only when the
      server accepts. */
  function NewSender(pk: seq<Byte>): (sender: Sender)
    ensures sender.pk == pk
  {
    Sender(pk)
  }

  /** The accepting party, holding its identifier and long-term scalar a. */
  datatype Server = Server(id: ID, s: Scalar) {

    /** What Accept returns. The sender's key is decoded before the nonce, so
        a bad key is reported even when the nonce is bad too; the secret is
        returned exactly when both decode. */
    function Outcome(p: Primitives, sender: Sender, nonce: seq<Byte>): (out: Result<Encoding>)
      ensures p.decode(sender.pk).None? ==> out == Failure(InvalidSenderKey)
      ensures p.decode(sender.pk).Some? && p.decode(nonce).None? ==> out == Failure(InvalidSenderNonce)
      ensures out.Success? <==> p.decode(sender.pk).Some? && p.decode(nonce).Some?
    {
      match (p.decode(sender.pk), p.decode(nonce))
      case (None, _) => Failure(InvalidSenderKey)
      case (Some(_), None) => Failure(InvalidSenderNonce)
      case (Some(B), Some(Y)) =>
        var e := BindExponent(p.sha512, id, nonce);
        Success(p.encode(ServerSigma(s, e, B, Y)))
    }

    /** Completes an exchange started by `sender`, whose ephemeral public key
        is `nonce`. */
    method Accept(p: Primitives, sender: Sender, nonce: seq<Byte>) returns (out: Result<Encoding>)
      ensures out == Outcome(p, sender, nonce)
    {
      var B := p.decode(sender.pk);
      if B.None? {
        return Failure(InvalidSenderKey);
      }
      var Y := p.decode(nonce);
      if Y.None? {
        return Failure(InvalidSenderNonce);
      }
      var e := BindExponent(p.sha512, id, nonce);
      var a := s;
      var result := ScalarMult(e, B.value);
      result := Add(result, Y.value);
      result := ScalarMult(a, result);
      result := MultByCofactor(result);
      return Success(p.encode(result));
    }
  }

  /** A server keeps its identifier and holds the secret scalar of its
      Ed25519 key: the discrete log of that key's public key. */
  function NewServer(p: Primitives, id: ID, sk: PrivateKey): (s: Server)
    ensures s.id == id
    ensures p.encode(Point(s.s, 0)) == Public(p, sk)
    ensures Sound(p) ==> p.decode(Public(p, sk)) == Some(Point(s.s, 0))
  {
    Server(id, DeriveScalar(p.sha512, sk.seed))
  }

  // ---------------------------------------------------------------------
  // Properties of the protocol.

  /** Client and server turn a private key into the same long-term scalar,
      the one its Ed25519 public key is made from. */
  lemma LongTermScalars(p: Primitives, id: ID, sk: PrivateKey)
    requires Sound(p)
    ensures NewClient(p, sk).s == NewServer(p, id, sk).s
    ensures p.decode(Public(p, sk)) == Some(Point(NewClient(p, sk).s, 0))
  {
  }

  /** The exponents Connect and Accept use: the client hashes the recipient's
      identifier and its ephemeral public key, the server its own identifier
      and the nonce it received. Both hash the same string, and so get the
      same exponent, when the server's identifier is the recipient's and the
      nonce is the client's ephemeral public key; for a 32-byte nonce, that is
      the only way they hash the same string. */
  lemma SameExponent(p: Primitives, r: Recipient, nonce: PrivateKey, s: Server, received: seq<Byte>)
    ensures s.id == r.id && received == Public(p, nonce) ==>
      BindExponent(p.sha512, r.id, Public(p, nonce)) == BindExponent(p.sha512, s.id, received)
    ensures |received| == 32 ==>
      (BindingInput(r.id, Public(p, nonce)) == BindingInput(s.id, received) <==>
       s.id == r.id && received == Public(p, nonce))
  {
    if |received| == 32 {
      BindingInputInjective(r.id, Public(p, nonce), s.id, received);
    }
  }

  /** Agreement: a client whose recipient is the server (same identifier,
      the server's public key), and a server whose sender is the client
      (the client's public key, the client's ephemeral public key), derive
      the same secret, and neither fails. */
  lemma Agreement(p: Primitives, c: Client, r: Recipient, nonce: PrivateKey, s: Server, sender: Sender)
    requires Sound(p)
    requires r.id == s.id && r.pk == p.encode(ScalarMult(s.s, BasePoint))
    requires sender.pk == p.encode(ScalarMult(c.s, BasePoint))
    ensures c.Outcome(p, r, nonce).Success?
    ensures c.Outcome(p, r, nonce) == s.Outcome(p, sender, Public(p, nonce))
  {
    var y := DeriveScalar(p.sha512, nonce.seed);
    BaseMultiple(s.s);
    BaseMultiple(c.s);
    BaseMultiple(y);
    var A, B, Y := ScalarMult(s.s, BasePoint), ScalarMult(c.s, BasePoint), ScalarMult(y, BasePoint);
    assert p.decode(r.pk) == Some(A);
    assert p.decode(sender.pk) == Some(B);
    assert p.decode(Public(p, nonce)) == Some(Y);
    var e := BindExponent(p.sha512, r.id, Public(p, nonce));
    SigmaAgreement(s.s, c.s, y, e, A, B, Y);
  }

  /** The exchange of the repository's own test: Ed25519 key pairs (A, a),
      (B, b) and (Y, y), a client made of b connecting to (id, A) with y,
      and a server made of (id, a) accepting B and Y. */
  lemma KeyPairAgreement(p: Primitives, id: ID, a: PrivateKey, b: PrivateKey, y: PrivateKey)
    requires Sound(p)
    ensures NewClient(p, b).Outcome(p, NewRecipient(id, Public(p, a)), y).Success?
    ensures NewClient(p, b).Outcome(p, NewRecipient(id, Public(p, a)), y)
         == NewServer(p, id, a).Outcome(p, NewSender(Public(p, b)), Public(p, y))
  {
    Agreement(p, NewClient(p, b), NewRecipient(id, Public(p, a)), y, NewServer(p, id, a), NewSender(Public(p, b)));
  }

  /** Adding a small-order point to the recipient's key does not change what
      Connect derives: the key's bytes are not hashed and the cofactor
      multiplication removes the small-order part. */
  lemma ConnectIgnoresSmallOrder(p: Primitives, c: Client, id: ID, A: Point, T: Point, nonce: PrivateKey)
    requires Sound(p) && T.SmallOrder()
    ensures c.Outcome(p, NewRecipient(id, p.encode(Add(A, T))), nonce).Success?
    ensures c.Outcome(p, NewRecipient(id, p.encode(Add(A, T))), nonce)
         == c.Outcome(p, NewRecipient(id, p.encode(A)), nonce)
  {
    var y := DeriveScalar(p.sha512, nonce.seed);
    var e := BindExponent(p.sha512, id, Public(p, nonce));
    var AT := Add(A, T);
    assert p.decode(p.encode(AT)) == Some(AT) && p.decode(p.encode(A)) == Some(A);
    // A + T and A have the same log, so t·(A + T) and t·A differ by a
    // small-order point, which [8] removes.
    var t := MultiplyAdd(c.s, e, y);
    ModUnique(A.log + T.log, L, 0, A.log);
    var T' := SmallOrderDifference(ScalarMult(t, A), ScalarMult(t, AT));
    CofactorClearsTorsion(ScalarMult(t, A), T');
  }

  /** Adding a small-order point to the sender's key does not change what
      Accept derives. */
  lemma AcceptIgnoresSmallOrder(p: Primitives, s: Server, B: Point, T: Point, nonce: seq<Byte>)
    requires Sound(p) && T.SmallOrder()
    ensures s.Outcome(p, NewSender(p.encode(Add(B, T))), nonce)
         == s.Outcome(p, NewSender(p.encode(B)), nonce)
  {
    var BT := Add(B, T);
    assert p.decode(p.encode(BT)) == Some(BT) && p.decode(p.encode(B)) == Some(B);
    match p.decode(nonce)
    case None =>
    case Some(Y) =>
      ServerSigmaIgnoresSmallOrder(s.s, BindExponent(p.sha512, s.id, nonce), B, T, Y);
  }

  /** B + T and B have the same log, so a·(e·(B + T) + Y) and a·(e·B + Y)
      differ by a small-order point, which [8] removes. */
  lemma ServerSigmaIgnoresSmallOrder(a: Scalar, e: Scalar, B: Point, T: Point, Y: Point)
    requires T.SmallOrder()
    ensures ServerSigma(a, e, Add(B, T), Y) == ServerSigma(a, e, B, Y)
  {
    ModUnique(B.log + T.log, L, 0, B.log);
    var inner, innerT := Add(ScalarMult(e, B), Y), Add(ScalarMult(e, Add(B, T)), Y);
    assert inner.log == innerT.log;
    var T' := SmallOrderDifference(ScalarMult(a, inner), ScalarMult(a, innerT));
    CofactorClearsTorsion(ScalarMult(a, inner), T');
  }
}
