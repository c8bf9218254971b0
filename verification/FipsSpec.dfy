/** packages/pqc/src/slh-dsa-128s-ref.ts as values: addresses, the 128s parameters, digests and acceptance. */
module FipsSpec {
  import opened ByteStrings
  import opened Bits
  import opened Tweaks
  import opened Schemes
  import opened Digits
  import opened Binding
  import opened Layout

  // ---- addresses ----------------------------------------------------------------------------------

  /** The 22 bytes of a compressed address: layer (1), tree (8), type (1) and three 4-byte words. */
  function Compressed(layer: nat, tree: nat, typ: nat, keypair: nat, height: nat, index: nat): (r: Bytes)
    ensures |r| == 22
  {
    BytesOf(layer, 1) + U64(tree) + BytesOf(typ, 1) + U32(keypair) + U32(height) + U32(index)
  }

  // In a WOTS+ hash address the height word is the chain and the index word the position in it.
  function FipsEnc(): Address -> Bytes {
    (a: Address) =>
      match a
      case WotsHash(key, c, j) => Compressed(key.layer, key.tree, 0, key.leaf, c, j)
      case WotsPk(key) => Compressed(key.layer, key.tree, 1, key.leaf, 0, 0)
      case TreeNode(layer, tree, h, i) => Compressed(layer, tree, 2, 0, h, i)
      case ForsNode(key, h, i) => Compressed(key.layer, key.tree, 3, key.leaf, h, i)
      case ForsRoots(key) => Compressed(key.layer, key.tree, 4, key.leaf, 0, 0)
  }

  // ---- the scheme ---------------------------------------------------------------------------------

  /** What thash hands to SHA-256: the seed filled up to a block, the address, the message. */
  function ThashInput(seed: Bytes, adrs: Bytes, msg: Bytes): Bytes {
    seed + Zeros(48) + adrs + msg
  }

  function Truncated(sha: Hash, seed: Bytes): Tweak {
    (a: Address, m: Bytes) => sha(ThashInput(seed, FipsEnc()(a), m))[..16]
  }

  /** n = 16, w = 16, len = 35, h' = 9, d = 7, a = 12, k = 14. */
  function FipsScheme(sha: Hash, seed: Bytes): Scheme {
    Scheme(16, 16, 35, 9, 7, 12, 14, Truncated(sha, seed), ChainDigits)
  }

  lemma {:induction false} Powers()
    ensures Pow2(9) == 512 && Pow2(12) == 4096
  {
    assert Pow2(4) == 16 && Pow2(8) == 2 * 2 * 2 * 2 * Pow2(4) && Pow2(12) == 2 * 2 * 2 * 2 * Pow2(8);
  }

  lemma {:induction false} TruncatedOutputs(sha: Hash, seed: Bytes)
    ensures Outputs(Truncated(sha, seed), 16)
  {
    forall a, m
      ensures |Truncated(sha, seed)(a, m)| == 16
    {
      var digest := sha(ThashInput(seed, FipsEnc()(a), m));
      assert Truncated(sha, seed)(a, m) == digest[..16];
    }
  }

  lemma {:induction false} FipsSchemeValid(sha: Hash, seed: Bytes)
    ensures Valid(FipsScheme(sha, seed))
  {
    TruncatedOutputs(sha, seed);
    var s := FipsScheme(sha, seed);
    forall m: Bytes | |m| == s.n
      ensures DigitsOk(s, s.digits(m))
    {
      assert Below(ChainDigits(m), 16);
    }
  }

  /** The sixteen bytes the digit functions read of a message: missing ones as zero, those past them not at all. */
  function Exactly16(msg: Bytes): (r: Bytes)
    ensures |r| == 16 && (|msg| == 16 ==> r == msg)
    ensures forall i :: 0 <= i < 16 ==> r[i] == ByteAt(msg, i)
  {
    PadTo(Slice(msg, 0, 16), 16)
  }

  // ---- message digests ----------------------------------------------------------------------------

  function Blocks(sha: Hash, seed: Bytes, m: nat): (r: Bytes)
    ensures |r| == 32 * m
  {
    if m == 0 then [] else Blocks(sha, seed, m - 1) + sha(seed + U32(m - 1))
  }

  /** MGF1 of appendix B.2.1 of RFC 8017 over SHA-256. */
  function Mgf1(sha: Hash, seed: Bytes, outLen: nat): (r: Bytes)
    ensures |r| == outLen
  {
    Blocks(sha, seed, (outLen + 31) / 32)[..outLen]
  }

  function MessageDigest(sha: Hash, r: Bytes, seed: Bytes, root: Bytes, m: Bytes): (digest: Bytes)
    ensures |digest| == 30
  {
    Mgf1(sha, r + seed + sha(r + seed + root + m), 30)
  }

  /** The pure (not pre-hashed) message wrapping: a zero byte, the context length, the context, the message. */
  function Wrapped(ctx: Bytes, msg: Bytes): Bytes
    requires |ctx| <= 255
  {
    var size: byte := |ctx|;
    [0, size] + ctx + msg
  }

  datatype Split = Split(md: Bytes, tree: nat, leaf: nat)

  /** 21 bytes for FORS, 54 bits of the next seven for the tree, nine bits of the last two for the leaf. */
  function SplitOf(digest: Bytes): Split {
    Split(Slice(digest, 0, 21), ValueOf(Slice(digest, 21, 28)) % Pow2(54),
          (ByteAt(digest, 28) * 256 + ByteAt(digest, 29)) % 512)
  }

  // ---- signatures ---------------------------------------------------------------------------------

  function ForsKey(sp: Split): Key {
    Key(0, sp.tree, sp.leaf)
  }

  function Indices(md: Bytes): (r: seq<nat>)
    ensures |r| == 14
  {
    Fields(md, 12, 14)
  }

  /** Fourteen parts of 208 bytes: a secret and twelve siblings each. */
  function ParsedFors(fors: Bytes): (r: seq<ForsPart>)
    ensures |r| == 14 && forall t :: 0 <= t < 14 ==> |r[t].auth| == 12
  {
    PartsOf(fors, 16, 12, 208, 14)
  }

  /** 35 chunks and nine siblings. */
  function ParsedXmss(sig: Bytes): (r: XmssSig)
    ensures |r.wots| == 35 && |r.auth| == 9
  {
    XmssOf(sig, 16, 35, 9, 560, 704)
  }

  function ParsedHt(ht: Bytes): (r: seq<XmssSig>)
    ensures |r| == 7 && forall j :: 0 <= j < 7 ==> |r[j].wots| == 35 && |r[j].auth| == 9
  {
    seq(7, j requires 0 <= j < 7 => ParsedXmss(Slice(ht, j * 704, (j + 1) * 704)))
  }

  /** A whole signature: 16 + 2912 + 4928 bytes. */
  function ForsOf(sig: Bytes): Bytes {
    Slice(sig, 16, 2928)
  }

  function HtOf(sig: Bytes): Bytes {
    Slice(sig, 2928, |sig|)
  }

  function DigestOf(sha: Hash, pk: Bytes, msg: Bytes, sig: Bytes, ctx: Bytes): (digest: Bytes)
    requires |pk| == 32 && |sig| == 7856 && |ctx| <= 255
    ensures |digest| == 30
  {
    MessageDigest(sha, sig[..16], pk[..16], pk[16..], Wrapped(ctx, msg))
  }

  function RecoveredFors(sha: Hash, seed: Bytes, sp: Split, fors: Bytes): Bytes {
    ForsRecovered(FipsScheme(sha, seed), ForsKey(sp), Indices(sp.md), ParsedFors(fors))
  }

  predicate SizesOk(pk: Bytes, sig: Bytes, ctx: Bytes) {
    |pk| == 32 && |sig| == 7856 && |ctx| <= 255
  }

  /** The root a verifier derives. */
  function DerivedRoot(sha: Hash, pk: Bytes, msg: Bytes, sig: Bytes, ctx: Bytes): Bytes
    requires SizesOk(pk, sig, ctx)
  {
    var sp := SplitOf(DigestOf(sha, pk, msg, sig, ctx));
    FipsSchemeValid(sha, pk[..16]);
    Payload(FipsScheme(sha, pk[..16]), RecoveredFors(sha, pk[..16], sp, ForsOf(sig)), sp.tree, sp.leaf,
            ParsedHt(HtOf(sig)), 7)
  }

  predicate Accepts(sha: Hash, pk: Bytes, msg: Bytes, sig: Bytes, ctx: Bytes) {
    SizesOk(pk, sig, ctx) && DerivedRoot(sha, pk, msg, sig, ctx) == pk[16..]
  }

  function VerifyCalls(sha: Hash, pk: Bytes, msg: Bytes, sig: Bytes, ctx: Bytes): seq<Call>
    requires SizesOk(pk, sig, ctx)
  {
    var sp := SplitOf(DigestOf(sha, pk, msg, sig, ctx));
    FipsSchemeValid(sha, pk[..16]);
    VerificationCalls(FipsScheme(sha, pk[..16]), sp.tree, sp.leaf, ForsKey(sp), Indices(sp.md), ParsedFors(ForsOf(sig)),
                      ParsedHt(HtOf(sig)))
  }

  // ---- the signer of section 9.2 of FIPS 205 --------------------------------------------------------

  /** The public key over arbitrary secrets: the seed and the root of the one tree of layer 6. */
  function SpecPublicKey(sha: Hash, seed: Bytes, sk: Secrets): Bytes {
    seed + XmssRoot(FipsScheme(sha, seed), sk, 6, 0)
  }

  /** Randomizer, FORS signature of the digest, hypertree signature of the FORS key. */
  function SpecSignature(sha: Hash, seed: Bytes, sk: Secrets, r: Bytes, msg: Bytes, ctx: Bytes): Bytes
    requires |ctx| <= 255
  {
    var s, root := FipsScheme(sha, seed), XmssRoot(FipsScheme(sha, seed), sk, 6, 0);
    var sp := SplitOf(MessageDigest(sha, r, seed, root, Wrapped(ctx, msg)));
    FipsSchemeValid(sha, seed);
    r + Flatten(FlatParts(ForsSign(s, sk, ForsKey(sp), Indices(sp.md))))
      + Flatten(FlatXmssAll(HtSign(s, sk, ForsPk(s, sk, ForsKey(sp)), sp.tree, sp.leaf, 7)))
  }
}
