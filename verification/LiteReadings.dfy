/**
 packages/pqc/src/slh-dsa-ref.ts down to bits and bytes: where in a digest, an address, a secret's hash
 input, a signature and the wire format everything stands, and what sign and verify do with it.
 */
module LiteReadings {
  import opened ByteStrings
  import opened Words
  import opened Bits
  import opened Tweaks
  import opened Schemes
  import opened Layout
  import opened Runs
  import opened LiteSpec
  import opened LiteWire
  import opened LiteTheorems
  import Lite

  // ---- addresses and hashes -------------------------------------------------------------------------

  /** The address bytes of every kind of place. */
  ghost predicate AddressReads(b: Bytes, a: Address) {
    match a
    case WotsHash(key, c, j) => Spells(b, key.layer, key.tree, 0, key.leaf, c, j)
    case WotsPk(key) => Spells(b, key.layer, key.tree, 1, key.leaf, 0, 0)
    case TreeNode(layer, tree, h, i) => Spells(b, layer, tree, 2, h, i, 0)
    case ForsNode(key, h, i) => Spells(b, key.layer, key.tree, 3, h, i, 0)
    case ForsRoots(key) => Spells(b, key.layer, key.tree, 4, 0, 0, 0)
  }

  lemma {:induction false} AddressSpelled(a: Address)
    ensures AddressReads(LiteEnc()(a), a)
  {
    match a {
      case WotsHash(key, c, j) => AdrsSpelled(key.layer, key.tree, 0, key.leaf, c, j);
      case WotsPk(key) => AdrsSpelled(key.layer, key.tree, 1, key.leaf, 0, 0);
      case TreeNode(layer, tree, h, i) => AdrsSpelled(layer, tree, 2, h, i, 0);
      case ForsNode(key, h, i) => AdrsSpelled(key.layer, key.tree, 3, h, i, 0);
      case ForsRoots(key) => AdrsSpelled(key.layer, key.tree, 4, 0, 0, 0);
    }
  }

  /** Some 32 address bytes of a place, between seed and message, are what is hashed there. */
  ghost predicate HashReads(sha: Hash, seed: Bytes, a: Address, msg: Bytes, h: Bytes) {
    exists b :: AddressReads(b, a) && h == sha(seed + b + msg)
  }

  lemma {:induction false} HashSpelled(sha: Hash, seed: Bytes, a: Address, msg: Bytes)
    ensures HashReads(sha, seed, a, msg, LiteScheme(sha, seed).th(a, msg))
  {
    AddressSpelled(a);
    assert LiteScheme(sha, seed).th(a, msg) == sha(seed + LiteEnc()(a) + msg);
  }

  // ---- digests ----------------------------------------------------------------------------------------

  function TreeBits(digest: Bytes): nat {
    ReadBits(digest, 16, 4)
  }

  function LeafBits(digest: Bytes): nat {
    ReadBits(digest, 20, 4)
  }

  function IndexBits(digest: Bytes): (r: seq<nat>)
    ensures |r| == 4
  {
    [ReadBits(digest, 4, 3), ReadBits(digest, 7, 3), ReadBits(digest, 10, 3), ReadBits(digest, 13, 3)]
  }

  /**
   Four bits of the digest are skipped, four indices of three bits follow, then four bits of tree and
   four bits of leaf; bits past the end are zero.
   */
  lemma {:induction false} SplitSpelled(digest: Bytes)
    ensures var sp := SplitOf(digest);
            && sp.tree == ReadBits(digest, 16, 4) && sp.leaf == ReadBits(digest, 20, 4)
            && sp.fors == [ReadBits(digest, 4, 3), ReadBits(digest, 7, 3), ReadBits(digest, 10, 3),
                           ReadBits(digest, 13, 3)]
            && FromMostFirst(sp.fors, 8) == ReadBits(digest, 4, 12)
  {
    IndicesSpelled(digest);
    PathSpelled(digest);
  }

  lemma {:induction false} IndicesSpelled(digest: Bytes)
    ensures SplitOf(digest).fors == IndexBits(digest)
    ensures FromMostFirst(SplitOf(digest).fors, 8) == ReadBits(digest, 4, 12)
  {
    var v := ByteAt(digest, 0) * 256 + ByteAt(digest, 1);
    FirstBytes(digest);
    Powers();
    FieldIs(digest, 0, 16, v, 4, 3, 9, 4, 512, 8);
    FieldIs(digest, 0, 16, v, 7, 3, 6, 7, 64, 8);
    FieldIs(digest, 0, 16, v, 10, 3, 3, 10, 8, 8);
    FieldIs(digest, 0, 16, v, 13, 3, 0, 13, 1, 8);
    FieldIs(digest, 0, 16, v, 4, 12, 0, 4, 1, 4096);
    AllIndices(digest, v);
  }

  lemma {:induction false} AllIndices(digest: Bytes, v: nat)
    requires v == ByteAt(digest, 0) * 256 + ByteAt(digest, 1)
    ensures SplitOf(digest).fors == [v / 512 % 8, v / 64 % 8, v / 8 % 8, v % 8]
    ensures FromMostFirst(SplitOf(digest).fors, 8) == v % 4096
  {
    Lite.OctalValue(v);
  }

  lemma {:induction false} PathSpelled(digest: Bytes)
    ensures SplitOf(digest).tree == TreeBits(digest) && SplitOf(digest).leaf == LeafBits(digest)
  {
    NibbleBits(digest, 2, 16, 20);
  }

  lemma {:induction false} NibbleBits(digest: Bytes, m: nat, lo: nat, mid: nat)
    requires lo == 8 * m && mid == lo + 4
    ensures ReadBits(digest, lo, 4) == ByteAt(digest, m) / 16 && ReadBits(digest, mid, 4) == ByteAt(digest, m) % 16
  {
    Powers();
    ReadOneByte(digest, m);
    FieldIs(digest, lo, 8, ByteAt(digest, m), 0, 4, 4, lo, 16, 16);
    FieldIs(digest, lo, 8, ByteAt(digest, m), 4, 4, 0, mid, 1, 16);
    NibbleOf(ByteAt(digest, m));
  }

  lemma {:induction false} NibbleOf(b: byte)
    ensures b / 16 % 16 == b / 16 && b / 1 % 16 == b % 16
  {
  }

  lemma {:induction false} FieldIs(digest: Bytes, s: nat, whole: nat, v: nat, lo: nat, n: nat, rest: nat, at: nat,
                                   p: nat, q: nat)
    requires whole == lo + n + rest && v == ReadBits(digest, s, whole) && at == s + lo
    requires p == Pow2(rest) && q == Pow2(n)
    ensures ReadBits(digest, at, n) == v / p % q
  {
    BitsInside(digest, s, whole, lo, n, rest);
  }

  lemma {:induction false} Powers()
    ensures Pow2(0) == 1 && Pow2(3) == 8 && Pow2(4) == 16 && Pow2(6) == 64 && Pow2(9) == 512 && Pow2(12) == 4096
  {
    assert Pow2(3) == 8 && Pow2(4) == 16;
    Pow2Sum(3, 3);
    Pow2Sum(6, 3);
    Pow2Sum(6, 6);
  }

  lemma {:induction false} FirstBytes(digest: Bytes)
    ensures ReadBits(digest, 0, 16) == ByteAt(digest, 0) * 256 + ByteAt(digest, 1)
    ensures ReadBits(digest, 16, 8) == ByteAt(digest, 2)
  {
    ReadOneByte(digest, 0);
    ReadOneByte(digest, 1);
    ReadOneByte(digest, 2);
    ReadBitsSplit(digest, 0, 8, 8);
    ByteRange();
  }

  // ---- secrets ----------------------------------------------------------------------------------------

  /** SHA-256 of the seed, the letters wots-sk, four bytes of key pair and four of chain. */
  ghost predicate WotsSecretReads(sha: Hash, skSeed: Bytes, keyPair: nat, chain: nat, h: Bytes) {
    exists c: Bytes ::
      && |c| == 8 && ValueOf(c[0..4]) == keyPair % 0x1_0000_0000 && ValueOf(c[4..8]) == chain % 0x1_0000_0000
      && h == sha(skSeed + [119, 111, 116, 115, 45, 115, 107] + c)
  }

  /** What WotsSk returns, and which key pair and chain each secret of the signer belongs to. */
  lemma {:induction false} WotsSecretSpelled(sha: Hash, skSeed: Bytes, key: Key, i: nat)
    ensures WotsSecretReads(sha, skSeed, key.leaf, i, WotsSecret(sha, skSeed, key.leaf, i))
    ensures WotsSecretReads(sha, skSeed, key.leaf, i, LiteSecrets(sha, skSeed).wots(key, i))
  {
    var c := WordBytes([key.leaf, i]);
    WordValue([key.leaf, i], 0, 0, 4);
    WordValue([key.leaf, i], 1, 4, 8);
    assert WotsSecret(sha, skSeed, key.leaf, i) == sha(skSeed + [119, 111, 116, 115, 45, 115, 107] + c);
  }

  /** SHA-256 of the seed, the letters fors-sk, eight bytes of tree index, four of FORS tree and four of its leaf. */
  ghost predicate ForsSecretReads(sha: Hash, skSeed: Bytes, tree: nat, t: nat, i: nat, h: Bytes) {
    exists c: Bytes ::
      && |c| == 16 && ValueOf(c[0..8]) == tree % 0x1_0000_0000_0000_0000
      && ValueOf(c[8..12]) == t % 0x1_0000_0000 && ValueOf(c[12..16]) == i % 0x1_0000_0000
      && h == sha(skSeed + [102, 111, 114, 115, 45, 115, 107] + c)
  }

  /** What ForsSk returns, and which leaf of which FORS tree each secret of the signer belongs to. */
  lemma {:induction false} ForsSecretSpelled(sha: Hash, skSeed: Bytes, key: Key, t: nat, i: nat)
    ensures ForsSecretReads(sha, skSeed, key.tree, t, i, ForsSecret(sha, skSeed, key.tree, t, i))
    ensures i < 8 ==> ForsSecretReads(sha, skSeed, key.tree, t, i, LiteSecrets(sha, skSeed).fors(key, 8 * t + i))
  {
    var c := WordBytes([HighWord(key.tree), LowWord(key.tree), t, i]);
    CounterSpelled(key.tree, t, i);
    assert ForsSecret(sha, skSeed, key.tree, t, i) == sha(skSeed + [102, 111, 114, 115, 45, 115, 107] + c);
    assert i < 8 ==> (8 * t + i) / 8 == t && (8 * t + i) % 8 == i;
  }

  lemma {:induction false} CounterSpelled(tree: nat, t: nat, i: nat)
    ensures var c := WordBytes([HighWord(tree), LowWord(tree), t, i]);
            && |c| == 16 && ValueOf(c[0..8]) == tree % 0x1_0000_0000_0000_0000
            && ValueOf(c[8..12]) == t % 0x1_0000_0000 && ValueOf(c[12..16]) == i % 0x1_0000_0000
  {
    var ws := [HighWord(tree), LowWord(tree), t, i];
    WordValue(ws, 2, 8, 12);
    WordValue(ws, 3, 12, 16);
    TreeValue(ws, 0, 0, 8, tree);
  }

  // ---- signatures -------------------------------------------------------------------------------------

  function Bytes32(b: Bytes, at: nat): Bytes {
    Slice(b, at, at + 32)
  }

  /** 128 bytes per FORS tree: a secret and three siblings of 32 bytes each. */
  function PartsAt(fors: Bytes): (parts: seq<ForsPart>)
    ensures |parts| == 4
  {
    seq(4, t requires 0 <= t < 4 => PartFrom(fors, 128 * t))
  }

  function PartFrom(fors: Bytes, at: nat): ForsPart {
    ForsPart(Bytes32(fors, at), [Bytes32(fors, at + 32), Bytes32(fors, at + 64), Bytes32(fors, at + 96)])
  }

  /** 67 chunks and four siblings of 32 bytes each. */
  function LayerAt(sig: LayerSig): XmssSig {
    XmssSig(seq(67, i requires 0 <= i < 67 => Bytes32(sig.wotsSig, 32 * i)),
            seq(4, z requires 0 <= z < 4 => Bytes32(sig.authPath, 32 * z)))
  }

  lemma {:induction false} PartsReadAlike(fors: Bytes)
    ensures PartsAt(fors) == ParsedFors(fors)
  {
    forall t | 0 <= t < 4
      ensures PartsAt(fors)[t] == ParsedFors(fors)[t]
    {
      PartReadsAlike(fors, t, 128 * t);
    }
  }

  lemma {:induction false} PartReadsAlike(fors: Bytes, t: nat, off: nat)
    requires t < 4 && off == 128 * t
    ensures ParsedFors(fors)[t] == PartFrom(fors, off)
  {
    ThreeChunks(fors, off + 32, off + 128);
    assert ParsedFors(fors)[t] == PartAt(fors, 32, 3, 128, off);
  }

  lemma {:induction false} ThreeChunks(b: Bytes, from: nat, to: nat)
    requires to == from + 96
    ensures Chunks(Slice(b, from, to), 32, 3) == [Bytes32(b, from), Bytes32(b, from + 32), Bytes32(b, from + 64)]
  {
    var part := Slice(b, from, to);
    SliceOfSlice(b, from, to, 0, 32);
    SliceOfSlice(b, from, to, 32, 64);
    SliceOfSlice(b, from, to, 64, 96);
    assert Chunks(part, 32, 3) == [Slice(part, 0, 32), Slice(part, 32, 64), Slice(part, 64, 96)];
  }

  lemma {:induction false} LayerReadsAlike(sig: LayerSig)
    ensures LayerAt(sig) == Parsed(sig)
  {
    forall i | 0 <= i < 67
      ensures Chunks(sig.wotsSig, 32, 67)[i] == Bytes32(sig.wotsSig, 32 * i)
    {
      ChunkIsSlice(sig.wotsSig, 32, 67, i, 32 * i, 32 * i + 32);
    }
    forall z | 0 <= z < 4
      ensures Chunks(sig.authPath, 32, 4)[z] == Bytes32(sig.authPath, 32 * z)
    {
      ChunkIsSlice(sig.authPath, 32, 4, z, 32 * z, 32 * z + 32);
    }
  }

  /** The wire format: FORS bytes, then WOTS+ signature and path of layer 0 and of layer 1. */
  lemma {:induction false} PackedSpelled(sig: Signature)
    requires |sig.layers| == 2
    ensures Packed(sig) == sig.fors + sig.layers[0].wotsSig + sig.layers[0].authPath
                                    + sig.layers[1].wotsSig + sig.layers[1].authPath
  {
    var x, y := sig.layers[0], sig.layers[1];
    var l0, l1 := x.wotsSig + x.authPath, y.wotsSig + y.authPath;
    assert LayerBytes(sig.layers) == [l0, l1];
    FlattenTwo(l0, l1);
    FiveParts(sig.fors, x.wotsSig, x.authPath, y.wotsSig, y.authPath);
  }

  lemma {:induction false} FlattenTwo(x: Bytes, y: Bytes)
    ensures Flatten([x, y]) == x + y
  {
    FlattenAppend([], x);
    FlattenAppend([x], y);
    assert [] + [x] == [x] && [x] + [y] == [x, y];
  }

  lemma {:induction false} FiveParts(a: Bytes, b: Bytes, c: Bytes, d: Bytes, e: Bytes)
    ensures a + ((b + c) + (d + e)) == a + b + c + d + e
  {
  }

  // ---- keys, signing, verification ----------------------------------------------------------------------

  /** The published root tops the one tree of layer 1. */
  lemma {:induction false} PublicKeySpelled(sha: Hash, seed: Bytes, skSeed: Bytes)
    ensures PublicKeyOf(sha, seed, skSeed).seed == seed
    ensures RootRun(LiteScheme(sha, seed), LiteSecrets(sha, skSeed), 1, 0, PublicKeyOf(sha, seed, skSeed).root)
  {
    RootIsRun(LiteScheme(sha, seed), LiteSecrets(sha, skSeed), 1, 0);
  }

  /**
   What sign returns, in terms of the digest of seed and message: the FORS secrets and paths the digest
   bits select in the forest of its tree, and two layers certifying it from its leaf upwards.
   */
  lemma {:induction false} SignSpelled(sha: Hash, sk: SecretKey, message: Bytes)
    ensures var sig, digest := SignatureOf(sha, sk, message), sha(sk.seed + message);
            && |sig.layers| == 2
            && SignRun(LiteScheme(sha, sk.seed), LiteSecrets(sha, sk.skSeed), TreeBits(digest), LeafBits(digest),
                       Key(0, TreeBits(digest), 0), IndexBits(digest), PartsAt(sig.fors),
                       [LayerAt(sig.layers[0]), LayerAt(sig.layers[1])])
  {
    var (s, secrets) := (LiteScheme(sha, sk.seed), LiteSecrets(sha, sk.skSeed));
    var digest, sig := sha(sk.seed + message), SignatureOf(sha, sk, message);
    var sp := SplitOf(digest);
    LiteSchemeValid(sha, sk.seed);
    SplitSpelled(digest);
    SigningIsRun(s, secrets, sp.tree, sp.leaf, ForsKey(sp), sp.fors);
    HonestLayers(sha, sk.seed, sk.skSeed, ForsPk(s, secrets, ForsKey(sp)), sp.tree, sp.leaf);
    Lite.HonestPartsFit(sha, sk.seed, sk.skSeed, sp.tree, sp.fors);
    PartsOfFlat(ForsSign(s, secrets, ForsKey(sp), sp.fors), 32, 3, 128, 4);
    PartsReadAlike(sig.fors);
    LayerReadsAlike(sig.layers[0]);
    LayerReadsAlike(sig.layers[1]);
  }

  /**
   What verify accepts: exactly the signatures whose FORS parts and layers, walked from the places the
   digest bits select, lead to the published root.
   */
  lemma {:induction false} VerifySpelled(sha: Hash, pk: PublicKey, message: Bytes, sig: Signature)
    requires |sig.layers| >= 2
    ensures var digest := sha(pk.seed + message);
            Accepts(sha, pk, message, sig)
            <==> VerifyRun(LiteScheme(sha, pk.seed), TreeBits(digest), LeafBits(digest), Key(0, TreeBits(digest), 0),
                           IndexBits(digest), PartsAt(sig.fors), [LayerAt(sig.layers[0]), LayerAt(sig.layers[1])],
                           pk.root)
  {
    var s, digest := LiteScheme(sha, pk.seed), sha(pk.seed + message);
    var sp := SplitOf(digest);
    LiteSchemeValid(sha, pk.seed);
    SplitSpelled(digest);
    SplitInRange(digest);
    PartsReadAlike(sig.fors);
    LayerReadsAlike(sig.layers[0]);
    LayerReadsAlike(sig.layers[1]);
    VerificationIsRun(s, sp.tree, sp.leaf, ForsKey(sp), sp.fors, ParsedFors(sig.fors), ParsedLayers(sig.layers),
                      pk.root);
  }
}
