/** packages/pqc/src/slh-dsa-ref.ts as values: its addresses, parameters, secrets and acceptance condition. */
module LiteSpec {
  import opened ByteStrings
  import opened Words
  import opened Bits
  import opened Tweaks
  import opened Schemes
  import opened Layout
  import opened Digits
  import WotsRef

  // ---- addresses ----------------------------------------------------------------------------------

  // A FORS address has no key pair word: the forest belongs to the tree index alone.
  function LiteWords(a: Address): (ws: seq<nat>)
    ensures |ws| == 8
  {
    match a
    case WotsHash(key, c, j) => AdrsWords(key.layer, key.tree, 0, key.leaf, c, j)
    case WotsPk(key) => AdrsWords(key.layer, key.tree, 1, key.leaf, 0, 0)
    case TreeNode(layer, tree, h, i) => AdrsWords(layer, tree, 2, h, i, 0)
    case ForsNode(key, h, i) => AdrsWords(key.layer, key.tree, 3, h, i, 0)
    case ForsRoots(key) => AdrsWords(key.layer, key.tree, 4, 0, 0, 0)
  }

  function LiteEnc(): Address -> Bytes {
    (a: Address) => WordBytes(LiteWords(a))
  }

  // ---- the scheme ---------------------------------------------------------------------------------

  /** n = 32, w = 16, len = 67, h' = 4, d = 2, a = 3, k = 4. */
  function LiteScheme(sha: Hash, seed: Bytes): Scheme {
    Scheme(32, 16, 67, 4, 2, 3, 4, Keyed(sha, seed, LiteEnc()), ChainDigits)
  }

  lemma {:induction false} LiteSchemeValid(sha: Hash, seed: Bytes)
    ensures Valid(LiteScheme(sha, seed))
  {
    KeyedOutputs(sha, seed, LiteEnc());
    var s := LiteScheme(sha, seed);
    forall m: Bytes | |m| == s.n
      ensures DigitsOk(s, s.digits(m))
    {
      assert Below(ChainDigits(m), 16);
    }
  }

  /** One evaluation of the hash under a buffer that holds the words of an address. */
  lemma {:induction false} HashedAt(sha: Hash, seed: Bytes, at: Address, adrs: Bytes, msg: Bytes)
    requires adrs == WordBytes(LiteWords(at))
    ensures adrs == LiteEnc()(at) && sha(seed + adrs + msg) == LiteScheme(sha, seed).th(at, msg)
  {
  }

  // TextEncoder().encode('fors-sk')
  const FORS_SK_TAG: Bytes := [102, 111, 114, 115, 45, 115, 107]

  function WotsSecret(sha: Hash, skSeed: Bytes, keyPair: nat, chain: nat): Digest {
    sha(skSeed + WotsRef.WOTS_SK_TAG + WordBytes([keyPair, chain]))
  }

  function ForsSecret(sha: Hash, skSeed: Bytes, tree: nat, treeNum: nat, leafNum: nat): Digest {
    sha(skSeed + FORS_SK_TAG + WordBytes([HighWord(tree), LowWord(tree), treeNum, leafNum]))
  }

  /** WOTS+ secrets depend on the key pair but not on layer or tree; FORS leaf g is leaf g % 8 of tree g / 8. */
  function LiteSecrets(sha: Hash, skSeed: Bytes): Secrets {
    Secrets((key: Key, i: nat) => WotsSecret(sha, skSeed, key.leaf, i),
            (key: Key, g: nat) => ForsSecret(sha, skSeed, key.tree, g / 8, g % 8))
  }

  lemma {:induction false} LiteSecretsOk(sha: Hash, seed: Bytes, skSeed: Bytes)
    ensures SecretsOk(LiteScheme(sha, seed), LiteSecrets(sha, skSeed))
  {
  }

  // ---- digest splitting ---------------------------------------------------------------------------

  datatype Split = Split(fors: seq<nat>, tree: nat, leaf: nat)

  /** Three bits per FORS index from the low 12 bits of the first two bytes; the third byte is tree and leaf. */
  function SplitOf(digest: Bytes): Split {
    var v := ByteAt(digest, 0) * 256 + ByteAt(digest, 1);
    Split([v / 512 % 8, v / 64 % 8, v / 8 % 8, v % 8], ByteAt(digest, 2) / 16, ByteAt(digest, 2) % 16)
  }

  /** Every split addresses leaves that exist: FORS leaves below 2^a, a tree and a leaf below 2^h'. */
  lemma {:induction false} SplitInRange(digest: Bytes)
    ensures var sp := SplitOf(digest);
            && |sp.fors| == 4 && (forall t :: 0 <= t < 4 ==> sp.fors[t] < Pow2(3))
            && sp.tree < Pow2(4) && sp.leaf < Pow2(4)
  {
    assert Pow2(3) == 8 && Pow2(4) == 16;
  }

  // ---- keys, signatures, acceptance -----------------------------------------------------------------

  datatype PublicKey = PublicKey(seed: Bytes, root: Bytes)
  datatype SecretKey = SecretKey(seed: Bytes, skSeed: Bytes)
  datatype LayerSig = LayerSig(wotsSig: Bytes, authPath: Bytes)
  datatype Signature = Signature(fors: Bytes, layers: seq<LayerSig>)

  /** An XMSS signature as its 32-byte chunks. */
  function Parsed(sig: LayerSig): (r: XmssSig)
    ensures |r.wots| == 67 && |r.auth| == 4
  {
    XmssSig(Chunks(sig.wotsSig, 32, 67), Chunks(sig.authPath, 32, 4))
  }

  function Flat(sig: XmssSig): LayerSig {
    LayerSig(Flatten(sig.wots), Flatten(sig.auth))
  }

  function FlatLayers(sigs: seq<XmssSig>): (r: seq<LayerSig>)
    ensures |r| == |sigs|
  {
    seq(|sigs|, i requires 0 <= i < |sigs| => Flat(sigs[i]))
  }

  function ParsedLayers(layers: seq<LayerSig>): (r: seq<XmssSig>)
    requires |layers| >= 2
    ensures |r| == 2 && forall j :: 0 <= j < 2 ==> |r[j].wots| == 67 && |r[j].auth| == 4
  {
    [Parsed(layers[0]), Parsed(layers[1])]
  }

  /** A FORS signature as four parts of 128 bytes: a secret and three siblings each. */
  function ParsedFors(fors: Bytes): (r: seq<ForsPart>)
    ensures |r| == 4 && forall t :: 0 <= t < 4 ==> |r[t].auth| == 3
  {
    PartsOf(fors, 32, 3, 128, 4)
  }

  function ForsKey(sp: Split): Key {
    Key(0, sp.tree, 0)
  }

  function ForsRootOf(sha: Hash, seed: Bytes, sp: Split, fors: Bytes): Bytes
    requires |sp.fors| == 4
  {
    ForsRecovered(LiteScheme(sha, seed), ForsKey(sp), sp.fors, ParsedFors(fors))
  }

  /** The root a verifier derives from a whole signature. */
  function DerivedRoot(sha: Hash, seed: Bytes, digest: Bytes, sig: Signature): Bytes
    requires |sig.layers| >= 2
  {
    var sp := SplitOf(digest);
    LiteSchemeValid(sha, seed);
    Payload(LiteScheme(sha, seed), ForsRootOf(sha, seed, sp, sig.fors), sp.tree, sp.leaf, ParsedLayers(sig.layers), 2)
  }

  predicate Accepts(sha: Hash, pk: PublicKey, message: Bytes, sig: Signature)
    requires |sig.layers| >= 2
  {
    DerivedRoot(sha, pk.seed, sha(pk.seed + message), sig) == pk.root
  }

  /** The published root: the single tree of layer 1. */
  function PublicKeyOf(sha: Hash, seed: Bytes, skSeed: Bytes): PublicKey {
    PublicKey(seed, XmssRoot(LiteScheme(sha, seed), LiteSecrets(sha, skSeed), 1, 0))
  }

  function SignatureOf(sha: Hash, sk: SecretKey, message: Bytes): Signature {
    var sp := SplitOf(sha(sk.seed + message));
    var (s, secrets) := (LiteScheme(sha, sk.seed), LiteSecrets(sha, sk.skSeed));
    LiteSchemeValid(sha, sk.seed);
    var sigs := HtSign(s, secrets, ForsPk(s, secrets, ForsKey(sp)), sp.tree, sp.leaf, 2);
    Signature(Flatten(FlatParts(ForsSign(s, secrets, ForsKey(sp), sp.fors))), FlatLayers(sigs))
  }

  // ---- the calls -------------------------------------------------------------------------------------

  function KeygenCalls(sha: Hash, seed: Bytes, skSeed: Bytes): seq<Call> {
    XmssTreeCalls(LiteScheme(sha, seed), LiteSecrets(sha, skSeed), 1, 0)
  }

  function SignCalls(sha: Hash, sk: SecretKey, message: Bytes): seq<Call> {
    var sp := SplitOf(sha(sk.seed + message));
    var (s, secrets) := (LiteScheme(sha, sk.seed), LiteSecrets(sha, sk.skSeed));
    LiteSchemeValid(sha, sk.seed);
    ForsSignCalls(s, secrets, ForsKey(sp), 4)
    + ForsRecoveredCalls(s, ForsKey(sp), sp.fors, ForsSign(s, secrets, ForsKey(sp), sp.fors))
    + HtSignCalls(s, secrets, ForsPk(s, secrets, ForsKey(sp)), sp.tree, sp.leaf, 2)
  }

  function VerifyCalls(sha: Hash, seed: Bytes, digest: Bytes, sig: Signature): seq<Call>
    requires |sig.layers| >= 2
  {
    var sp := SplitOf(digest);
    LiteSchemeValid(sha, seed);
    ForsRecoveredCalls(LiteScheme(sha, seed), ForsKey(sp), sp.fors, ParsedFors(sig.fors))
    + PayloadCalls(LiteScheme(sha, seed), ForsRootOf(sha, seed, sp, sig.fors), sp.tree, sp.leaf,
                   ParsedLayers(sig.layers), 2)
  }
}
