# homqv — a Dafny model of one-pass HMQV over edwards25519

This project models `homqv.go`, a one-pass, implicitly authenticated
Diffie–Hellman key agreement in the HMQV style. It reuses Ed25519 key pairs as
long-term keys.

- The client holds a long-term scalar b. It knows the recipient's identifier
  `id` and public key A, and draws an ephemeral Ed25519 key (Y, y).
- The client computes e = H(id ++ Y) and t = b·e + y mod L. Its secret is [8]·(t·A).
- The server holds an identifier and a long-term scalar a. It receives the
  client's public key B and the nonce Y.
- The server computes the same e. Its secret is [8]·(a·(e·B + Y)).
- Every scalar (long-term, ephemeral, and the exponent e) is made the same way,
  as in Ed25519: SHA-512 of the input, first 32 bytes, pruned per step 2 of
  section 5.1.5 of RFC 8032, read little-endian and reduced mod L.

Files and modules:

- `arithmetic.dfy` (`Arithmetic`): facts about `*` and Euclidean `%`.
- `group.dfy` (`Group`): the edwards25519 group as Z_L × Z_8. A point is
  (discrete log mod L, torsion mod 8) and the base point is (1, 0).
  `ScalarMult`, `Add` and `MultByCofactor` act on the two components.
  `MultiplyAdd` is the scalar operation x·y + z mod L.
- `clamping.dfy` (`Clamping`): RFC 8032 pruning on bytes, the little-endian
  value, and `SetBytesWithClamping`.
- `ed25519.dfy` (`Ed25519`): the external primitives, private keys, `Public`
  and `DeriveScalar`.
  - SHA-512, point encoding and point decoding are fields of a `Primitives`
    value that every operation takes as a parameter.
  - `Sound` states the one fact assumed about them: decode(encode(P)) == P.
- `homqv.dfy` (`Homqv`): the exponent binding, the four types of the source
  and their constructor functions, `Client.Connect`, `Server.Accept` and the
  protocol properties.
  - The types are `Recipient`, `Client`, `Sender` and `Server`.
  - The constructor functions are `NewRecipient`, `NewClient`, `NewSender` and
    `NewServer`. `NewRecipient` and `NewSender` only wrap their arguments.

`Client`, `Server`, `Recipient` and `Sender` are immutable datatypes. The Go
methods never write a field of their receiver. `Connect` and `Accept` are
methods that build the secret step by step in a local `result` point, as the
source does. Each is proved equal to a pure function (`Client.Outcome`,
`Server.Outcome`), and the protocol lemmas are stated about those functions.
Because each method's result is a function of its inputs, repeated calls with
the same inputs return the same output.

The code hashes the identifier first and the ephemeral public key second:
`append(r.id, Y...)` at homqv.go:49 and `append(s.id, nonce...)` at
homqv.go:99. The source's own comments, `// e := h(Y, idA)` at homqv.go:50
and homqv.go:98, put the ephemeral key first. The model follows the code.

Pruning alone does not give the scalar. `SetBytesWithClamping` also reduces
the pruned integer mod L, and the model does the same.

The code's error messages name three failures: the recipient key (homqv.go:41),
the sender key (homqv.go:90) and the sender nonce (homqv.go:95). The model has
one error kind for each.

## Model

| member | source | states |
|---|---|---|
| `Clamping.Clamp` | homqv.go:32 | the pruned buffer keeps all 32 bytes. The three low bits of byte 0 are clear and bit 7 of byte 31 is clear. Bit 6 of byte 31 is set. Every other bit is the input's. |
| `Clamping.ClampedInteger` | homqv.go:31-32 | the pruned integer is a multiple of 8 in [2^254, 2^255) |
| `Clamping.SetBytesWithClamping` | homqv.go:32 | the library's scalar of 32 bytes is the pruned little-endian integer reduced mod L, and that integer is a multiple of 8 in [2^254, 2^255) |
| `Clamping.ClampIdempotent` | homqv.go:32 | pruning an already pruned buffer changes nothing. This is a sanity fact about the pruning rule; nothing in the protocol relies on it. |
| `Ed25519.DeriveScalar` | homqv.go:45-46 | the scalar of any key material is the pruned first half of its SHA-512 digest, reduced mod L, so it lies in [0, L). The pruned integer is a multiple of 8 in [2^254, 2^255). The same function serves homqv.go:31-32 and homqv.go:80-81. |
| `Ed25519.Public` | homqv.go:48 | an Ed25519 public key is the encoding of (s, 0), where s is the key's derived scalar, so public = s·B. A sound decoder gives that point back. |
| `Group.BaseMultiple` | homqv.go:48 | x·B is (x, 0) for every canonical scalar x: the base point generates the order-L subgroup and distinct scalars give distinct points |
| `Group.CofactorClearsTorsion` | homqv.go:58 | [8]P lies in the order-L subgroup, and [8](P + T) == [8]P for every small-order T |
| `Homqv.BindExponent` | homqv.go:49-51 | e is the pruned first half of SHA-512(id ++ Y), a multiple of 8 in [2^254, 2^255), reduced mod L. The server's exponent at homqv.go:99-100 is the same function. |
| `Homqv.BindingInput` | homqv.go:49 | the hashed string is the identifier followed by the ephemeral public key: its first \|id\| bytes are `id` and the rest is Y |
| `Homqv.BindingInputInjective` | homqv.go:99 | with ephemeral keys of one length, equal hash inputs mean equal identifiers and equal keys, and conversely |
| `Homqv.SameExponent` | homqv.go:48-51 | the exponent Connect uses (recipient id, the client's `nonce.Public()`) equals the one Accept uses (its own id, the received nonce) when the ids match and the nonce is that public key. For a 32-byte nonce the two hash inputs are equal exactly in that case. |
| `Homqv.ClientSigma` | homqv.go:53-58 | the client's point [8]·((b·e + y)·A) lies in the order-L subgroup for every A |
| `Homqv.ServerSigma` | homqv.go:102-107 | the server's point [8]·(a·(e·B + Y)) lies in the order-L subgroup for every B and Y |
| `Homqv.SigmaAgreement` | homqv.go:102-107 | if A, B and Y have discrete logs a, b and y, then [8]((b·e+y)·A) == [8](a·(e·B+Y)), whatever small-order parts the three points carry |
| `Homqv.NewRecipient` | homqv.go:20-22 | the recipient keeps the identifier and key bytes as given, without decoding the key |
| `Homqv.NewClient` | homqv.go:30-34 | the client's scalar s satisfies encode((s, 0)) == Public(sk): it is the discrete log of the key's public key, which a sound decoder gives back as (s, 0) |
| `Homqv.Client.Outcome` | homqv.go:38-60 | Connect fails exactly when the recipient key does not decode, and then with the recipient-key error. Otherwise it returns the encoded client point. |
| `Homqv.Client.Connect` | homqv.go:38-60 | the step-by-step computation (decode A, derive y, Y = Public(nonce), e, t = MultiplyAdd(b, e, y), result = t·A, result = [8]result) returns exactly `Client.Outcome` |
| `Homqv.NewSender` | homqv.go:68-70 | the sender keeps the key bytes as given, without decoding them |
| `Homqv.NewServer` | homqv.go:79-83 | the server keeps its identifier, and its scalar s satisfies encode((s, 0)) == Public(sk), which a sound decoder gives back as (s, 0) |
| `Homqv.Server.Outcome` | homqv.go:87-110 | an undecodable sender key gives the sender-key error even when the nonce is also bad. The nonce error occurs only when the key decodes. A secret is returned exactly when both decode. |
| `Homqv.Server.Accept` | homqv.go:87-110 | the step-by-step computation (decode B, then Y, e from `s.id ++ nonce`, result = e·B, result += Y, result = a·result, result = [8]result) returns exactly `Server.Outcome` |
| `Homqv.LongTermScalars` | homqv.go:79-83 | NewClient and NewServer derive the same scalar from one private key, and that key's public key decodes to (scalar, 0) |
| `Homqv.Agreement` | homqv.go:53-58 | given a sound encoding, suppose the recipient is the server (same id, A = a·B) and the sender is the client (its key is b·B). Then Connect succeeds, and Accept on the client's `nonce.Public()` returns the same secret. |
| `Homqv.KeyPairAgreement` | homqv_test.go:12-40 | the repository's test scenario: for any Ed25519 keys a, b, y and identifier id, `NewClient(b).Connect(NewRecipient(id, A), y)` succeeds and equals `NewServer(id, a).Accept(NewSender(B), Y)` |
| `Homqv.ConnectIgnoresSmallOrder` | homqv.go:57-58 | replacing the recipient key A by A + T, with T of small order, leaves Connect's result unchanged and successful |
| `Homqv.ServerSigmaIgnoresSmallOrder` | homqv.go:104-107 | [8]·(a·(e·(B + T) + Y)) == [8]·(a·(e·B + Y)) for every small-order T. The proof goes through `Group.CofactorClearsTorsion`. |
| `Homqv.AcceptIgnoresSmallOrder` | homqv.go:104-107 | replacing the sender key B by B + T, with T of small order, leaves Accept's result unchanged |

## Left out

- SHA-512 is not modelled. It is a parameter: any function from byte strings
  to 64-byte digests.
- The compressed point encoding and the library's exact decode-rejection rules
  are not modelled. Encoding and decoding are parameters, and the agreement and
  cofactor lemmas assume only that decoding inverts encoding (`Sound`).
- The edwards25519 field arithmetic is not modelled. Points are their
  (discrete log, torsion) pairs in Z_L × Z_8, which nothing can compute from
  real bytes. This is a model, not an implementation.
- `Ed25519.Public`: in Go, `PrivateKey.Public()` returns the second half of the
  stored 64-byte key. The model derives it from the seed, as `GenerateKey`
  does. A private key whose stored half does not match its seed is not
  modelled.
- `Clamping.SetBytesWithClamping` requires 32 bytes. The library returns an
  error for other lengths, which homqv.go discards. Every call site passes
  `h[:32]`, so that error cannot arise.
- `Ed25519.PrivateKey` always holds a 32-byte seed. In Go, `Seed()` slices
  `priv[:32]` and `Public()` slices `priv[32:]`, so a private key shorter than
  32 bytes panics. This happens in `NewClient` (homqv.go:31) and `NewServer`
  (homqv.go:80). In `Connect` it happens at homqv.go:45 and homqv.go:48, after
  the recipient key has decoded, so a bad recipient key still reports its
  error first. The model treats a wrong key length as a caller error and does
  not represent the panic.
- `Homqv.Client` and `Homqv.Server` always hold a scalar. A zero-value Go
  `Client{}` or `Server{}` has a nil `s`. `Connect` then dereferences nil in
  `MultiplyAdd` at homqv.go:55, after the recipient key has decoded. `Accept`
  dereferences it in `ScalarMult` at homqv.go:106, after both decodes have
  succeeded. Values not built by `NewClient` or `NewServer` are not modelled.
- The library's error text and the wrapped decode error (`fmt.Errorf` with
  `%w`) are not modelled. Only the three error kinds are.
- Go's `append(r.id, Y...)` may write into spare capacity of the caller's
  identifier slice. The model treats the hash input as a fresh concatenation.
- Identifier sensitivity and tamper sensitivity are not modelled. These are
  the claims that a different id or a flipped key bit changes the secret, and
  they hold only under collision resistance of SHA-512, a computational
  assumption. `Homqv.BindingInputInjective` is the part that holds without it:
  different identifiers give different hash inputs.
- The benchmark and the X25519 comparison in homqv_test.go are timing code and
  are not modelled.
