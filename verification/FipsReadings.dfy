/**
 packages/pqc/src/slh-dsa-128s-ref.ts down to bits and bytes: where in a digest, an address, a hash
 input and a signature everything stands, and what verify does with it.
 */
module FipsReadings {
  import opened ByteStrings
  import opened Words
  import opened Bits
  import opened Tweaks
  import opened Schemes
  import opened Layout
  import opened Runs
  import opened FipsSpec
  import opened FipsTheorems

  // ---- addresses --------------------------------------------------------------------------------------

  /**
   The 22 bytes of an address: layer (byte 0), tree (1 to 8), type (9), key pair (10 to 13), then two
   words of four bytes each, all big-endian and cut to their width.
   */
  ghost predicate Spells22(b: Bytes, layer: nat, tree: nat, typ: nat, keypair: nat, y: nat, z: nat) {
    && |b| == 22
    && ValueOf(b[0..1]) == layer % 256 && ValueOf(b[1..9]) == tree % 0x1_0000_0000_0000_0000
    && ValueOf(b[9..10]) == typ % 256 && ValueOf(b[10..14]) == keypair % 0x1_0000_0000
    && ValueOf(b[14..18]) == y % 0x1_0000_0000 && ValueOf(b[18..22]) == z % 0x1_0000_0000
  }

  lemma {:induction false} SixFields(a: Bytes, b: Bytes, c: Bytes, d: Bytes, e: Bytes, f: Bytes)
    requires |a| == 1 && |b| == 8 && |c| == 1 && |d| == |e| == |f| == 4
    ensures var x := a + b + c + d + e + f;
            && |x| == 22 && x[0..1] == a && x[1..9] == b && x[9..10] == c && x[10..14] == d && x[14..18] == e
            && x[18..22] == f
  {
  }

  lemma {:induction false} CompressedSpelled(layer: nat, tree: nat, typ: nat, keypair: nat, y: nat, z: nat)
    ensures Spells22(Compressed(layer, tree, typ, keypair, y, z), layer, tree, typ, keypair, y, z)
  {
    SixFields(BytesOf(layer, 1), U64(tree), BytesOf(typ, 1), U32(keypair), U32(y), U32(z));
    PowersOf256();
    BytesOfValueCut(layer, 1);
    BytesOfValueCut(tree, 8);
    BytesOfValueCut(typ, 1);
    U32Value(keypair);
    U32Value(y);
    U32Value(z);
  }

  /** The address bytes of every kind of place; the chain, or else the height, stands at offset 14. */
  ghost predicate AddressReads(b: Bytes, a: Address) {
    match a
    case WotsHash(key, c, j) => Spells22(b, key.layer, key.tree, 0, key.leaf, c, j)
    case WotsPk(key) => Spells22(b, key.layer, key.tree, 1, key.leaf, 0, 0)
    case TreeNode(layer, tree, h, i) => Spells22(b, layer, tree, 2, 0, h, i)
    case ForsNode(key, h, i) => Spells22(b, key.layer, key.tree, 3, key.leaf, h, i)
    case ForsRoots(key) => Spells22(b, key.layer, key.tree, 4, key.leaf, 0, 0)
  }

  lemma {:induction false} AddressSpelled(a: Address)
    ensures AddressReads(FipsEnc()(a), a)
  {
    match a {
      case WotsHash(key, c, j) => CompressedSpelled(key.layer, key.tree, 0, key.leaf, c, j);
      case WotsPk(key) => CompressedSpelled(key.layer, key.tree, 1, key.leaf, 0, 0);
      case TreeNode(layer, tree, h, i) => CompressedSpelled(layer, tree, 2, 0, h, i);
      case ForsNode(key, h, i) => CompressedSpelled(key.layer, key.tree, 3, key.leaf, h, i);
      case ForsRoots(key) => CompressedSpelled(key.layer, key.tree, 4, key.leaf, 0, 0);
    }
  }

  // ---- hashes -----------------------------------------------------------------------------------------

  /** The seed, zeros up to a block of 64 bytes, 22 address bytes of the place and the message; 16 bytes are kept. */
  ghost predicate HashReads(sha: Hash, seed: Bytes, a: Address, msg: Bytes, h: Bytes) {
    exists x: Bytes ::
      && |x| == 86 + |msg| && x[..16] == seed && (forall k :: 16 <= k < 64 ==> x[k] == 0)
      && AddressReads(x[64..86], a) && x[86..] == msg && h == sha(x)[..16]
  }

  lemma {:induction false} HashSpelled(sha: Hash, seed: Bytes, a: Address, msg: Bytes)
    requires |seed| == 16
    ensures HashReads(sha, seed, a, msg, FipsScheme(sha, seed).th(a, msg))
  {
    var x := ThashInput(seed, FipsEnc()(a), msg);
    AddressSpelled(a);
    assert x[64..86] == FipsEnc()(a) && x[86..] == msg && x[..16] == seed;
  }

  /** Byte k of MGF1 is byte k mod 32 of the block whose counter is k div 32. */
  lemma {:induction false} Mgf1Spelled(sha: Hash, seed: Bytes, outLen: nat, k: nat)
    requires k < outLen
    ensures exists c: Bytes ::
              |c| == 4 && ValueOf(c) == k / 32 % 0x1_0000_0000 && Mgf1(sha, seed, outLen)[k] == sha(seed + c)[k % 32]
  {
    BlockAt(sha, seed, (outLen + 31) / 32, k);
    U32Value(k / 32);
  }

  lemma {:induction false} BlockAt(sha: Hash, seed: Bytes, m: nat, k: nat)
    requires k < 32 * m
    ensures Blocks(sha, seed, m)[k] == sha(seed + U32(k / 32))[k % 32]
  {
    if k < 32 * (m - 1) {
      BlockAt(sha, seed, m - 1, k);
    } else {
      assert k / 32 == m - 1 && k % 32 == k - 32 * (m - 1);
    }
  }

  /** Thirty bytes fit in the first block: randomizer, seed and inner hash under counter 0. */
  lemma {:induction false} DigestSpelled(sha: Hash, r: Bytes, seed: Bytes, root: Bytes, m: Bytes)
    ensures MessageDigest(sha, r, seed, root, m) == sha(r + seed + sha(r + seed + root + m) + [0, 0, 0, 0])[..30]
  {
    var inner := r + seed + sha(r + seed + root + m);
    BytesOfExplicit(0);
    forall k | 0 <= k < 30
      ensures Mgf1(sha, inner, 30)[k] == sha(inner + [0, 0, 0, 0])[k]
    {
      BlockAt(sha, inner, 1, k);
    }
  }

  // ---- the digest in bits -----------------------------------------------------------------------------

  function TreeBits(digest: Bytes): nat {
    ReadBits(digest, 170, 54)
  }

  function LeafBits(digest: Bytes): nat {
    ReadBits(digest, 231, 9)
  }

  function IndexBits(digest: Bytes): (r: seq<nat>)
    ensures |r| == 14
  {
    seq(14, t requires 0 <= t < 14 => ReadBits(digest, 12 * t, 12))
  }

  /**
   168 bits for FORS, then the tree in 54 bits after two, and the leaf in nine bits after seven, bits
   past the end being zero; for every digest the function does not throw on.
   */
  lemma {:induction false} SplitSpelled(digest: Bytes)
    requires |digest| >= 28
    ensures var sp := SplitOf(digest);
            && |sp.md| == 21 && ValueOf(sp.md) == ReadBits(digest, 0, 168)
            && sp.tree == ReadBits(digest, 170, 54) && sp.leaf == ReadBits(digest, 231, 9)
  {
    MdBits(digest);
    TreeBitsAre(digest);
    LeafBitsAre(digest);
  }

  lemma {:induction false} MdBits(digest: Bytes)
    requires |digest| >= 28
    ensures ValueOf(Slice(digest, 0, 21)) == ReadBits(digest, 0, 168)
  {
    ReadBytes(digest, 0, 21);
  }

  lemma {:induction false} TreeBitsAre(digest: Bytes)
    requires |digest| >= 28
    ensures ValueOf(Slice(digest, 21, 28)) % Pow2(54) == ReadBits(digest, 170, 54)
  {
    ReadBytes(digest, 21, 7);
    LastBits(digest, 168, 56, 2, 54, 170);
  }

  lemma {:induction false} LeafBitsAre(digest: Bytes)
    ensures (ByteAt(digest, 28) * 256 + ByteAt(digest, 29)) % 512 == ReadBits(digest, 231, 9)
  {
    FipsSpec.Powers();
    ReadOneByte(digest, 28);
    ReadOneByte(digest, 29);
    BitsThenByte(digest, 224, 8, 16, 232);
    LastBits(digest, 224, 16, 7, 9, 231);
  }

  lemma {:induction false} LastBits(b: Bytes, s: nat, whole: nat, lo: nat, n: nat, at: nat)
    requires whole == lo + n && at == s + lo
    ensures ReadBits(b, at, n) == ReadBits(b, s, whole) % Pow2(n)
  {
    BitsInside(b, s, whole, lo, n, 0);
  }

  lemma {:induction false} IndicesSpelled(digest: Bytes)
    requires |digest| == 30
    ensures Indices(SplitOf(digest).md) == IndexBits(digest)
  {
    var md := SplitOf(digest).md;
    assert md == digest[..21];
    forall t | 0 <= t < 14
      ensures Indices(md)[t] == ReadBits(digest, 12 * t, 12)
    {
      IndexSpelled(digest, md, t, 12 * t);
    }
  }

  lemma {:induction false} IndexSpelled(digest: Bytes, md: Bytes, t: nat, at: nat)
    requires |digest| == 30 && md == digest[..21] && t < 14 && at == t * 12
    ensures Indices(md)[t] == ReadBits(digest, at, 12)
  {
    FieldAt(md, 12, 14, t);
    ReadBitsPrefix(digest, 21, at, 12);
  }

  lemma {:induction false} FieldAt(b: Bytes, w: nat, k: nat, t: nat)
    requires t < k
    ensures Fields(b, w, k)[t] == ReadBits(b, t * w, w)
  {
    var j := k - 1;
    assert Fields(b, w, k) == Fields(b, w, j) + [ReadBits(b, j * w, w)];
    if t < j {
      FieldAt(b, w, j, t);
    }
  }

  // ---- signatures -------------------------------------------------------------------------------------

  function Bytes16(b: Bytes, at: nat): Bytes {
    Slice(b, at, at + 16)
  }

  /** From byte 16 on 208 bytes per FORS tree: a secret and twelve siblings of 16 bytes each. */
  function PartsAt(sig: Bytes): (parts: seq<ForsPart>)
    ensures |parts| == 14
  {
    seq(14, t requires 0 <= t < 14 => PartFrom(sig, 16 + 208 * t))
  }

  function PartFrom(sig: Bytes, at: nat): ForsPart {
    ForsPart(Bytes16(sig, at), seq(12, z requires 0 <= z < 12 => Bytes16(sig, at + 16 + 16 * z)))
  }

  /** From byte 2928 on 704 bytes per layer: 35 chunks and nine siblings of 16 bytes each. */
  function LayersAt(sig: Bytes): (sigs: seq<XmssSig>)
    ensures |sigs| == 7
  {
    seq(7, j requires 0 <= j < 7 => LayerFrom(sig, 2928 + 704 * j))
  }

  function LayerFrom(sig: Bytes, at: nat): XmssSig {
    XmssSig(seq(35, i requires 0 <= i < 35 => Bytes16(sig, at + 16 * i)),
            seq(9, z requires 0 <= z < 9 => Bytes16(sig, at + 560 + 16 * z)))
  }

  /** Chunk i of a stretch of the signature. */
  lemma {:induction false} ChunkFrom(sig: Bytes, from: nat, to: nat, count: nat, i: nat)
    requires i < count && from + 16 * count == to
    ensures Chunks(Slice(sig, from, to), 16, count)[i] == Bytes16(sig, from + 16 * i)
  {
    SliceOfSlice(sig, from, to, 16 * i, 16 * i + 16);
    ChunkIsSlice(Slice(sig, from, to), 16, count, i, 16 * i, 16 * i + 16);
  }

  lemma {:induction false} PartsReadAlike(sig: Bytes)
    ensures PartsAt(sig) == ParsedFors(ForsOf(sig))
  {
    forall t | 0 <= t < 14
      ensures PartsAt(sig)[t] == ParsedFors(ForsOf(sig))[t]
    {
      PartReadsAlike(sig, t, 208 * t, 16 + 208 * t);
    }
  }

  lemma {:induction false} PartReadsAlike(sig: Bytes, t: nat, off: nat, at: nat)
    requires t < 14 && off == 208 * t && at == 16 + off
    ensures ParsedFors(ForsOf(sig))[t] == PartFrom(sig, at)
  {
    SliceOfSlice(sig, 16, 2928, off, off + 16);
    SliceOfSlice(sig, 16, 2928, off + 16, off + 208);
    ChunksFrom(sig, at + 16, at + 208, 12);
    assert ParsedFors(ForsOf(sig))[t] == PartAt(ForsOf(sig), 16, 12, 208, off);
  }

  lemma {:induction false} LayersReadAlike(sig: Bytes)
    requires |sig| == 7856
    ensures LayersAt(sig) == ParsedHt(HtOf(sig))
  {
    forall j | 0 <= j < 7
      ensures LayersAt(sig)[j] == ParsedHt(HtOf(sig))[j]
    {
      SliceOfSlice(sig, 2928, 7856, 704 * j, 704 * j + 704);
      LayerReadsAlike(sig, 2928 + 704 * j);
    }
  }

  lemma {:induction false} LayerReadsAlike(sig: Bytes, at: nat)
    ensures ParsedXmss(Slice(sig, at, at + 704)) == LayerFrom(sig, at)
  {
    SliceOfSlice(sig, at, at + 704, 0, 560);
    SliceOfSlice(sig, at, at + 704, 560, 704);
    ChunksFrom(sig, at, at + 560, 35);
    ChunksFrom(sig, at + 560, at + 704, 9);
  }

  lemma {:induction false} ChunksFrom(sig: Bytes, from: nat, to: nat, count: nat)
    requires from + 16 * count == to
    ensures Chunks(Slice(sig, from, to), 16, count)
         == seq(count, i requires 0 <= i < count => Bytes16(sig, from + 16 * i))
  {
    forall i | 0 <= i < count
      ensures Chunks(Slice(sig, from, to), 16, count)[i] == Bytes16(sig, from + 16 * i)
    {
      ChunkFrom(sig, from, to, count, i);
    }
  }

  // ---- verification -----------------------------------------------------------------------------------

  /** The message digest: seed and root are the halves of the public key, the randomizer opens the signature. */
  function DigestFrom(sha: Hash, pk: Bytes, msg: Bytes, sig: Bytes, ctx: Bytes): (digest: Bytes)
    requires |pk| == 32 && |sig| == 7856 && |ctx| <= 255
    ensures |digest| == 30
  {
    var r, seed, root, size: byte := sig[..16], pk[..16], pk[16..], |ctx|;
    sha(r + seed + sha(r + seed + root + ([0, size] + ctx + msg)) + [0, 0, 0, 0])[..30]
  }

  /**
   What verify accepts, for all inputs: exactly the signatures of the right size whose FORS parts and
   seven layers, walked from the places the digest bits select, lead to the second half of the key.
   */
  lemma {:induction false} VerifySpelled(sha: Hash, pk: Bytes, msg: Bytes, sig: Bytes, ctx: Bytes)
    ensures Accepts(sha, pk, msg, sig, ctx)
       <==> && |pk| == 32 && |sig| == 7856 && |ctx| <= 255
            && var digest := DigestFrom(sha, pk, msg, sig, ctx);
               VerifyRun(FipsScheme(sha, pk[..16]), TreeBits(digest), LeafBits(digest),
                         Key(0, TreeBits(digest), LeafBits(digest)), IndexBits(digest), PartsAt(sig), LayersAt(sig),
                         pk[16..])
  {
    if |pk| == 32 && |sig| == 7856 && |ctx| <= 255 {
      var digest := DigestFrom(sha, pk, msg, sig, ctx);
      DigestSpelled(sha, sig[..16], pk[..16], pk[16..], Wrapped(ctx, msg));
      assert digest == DigestOf(sha, pk, msg, sig, ctx);
      RunSpelled(sha, pk[..16], digest, sig, pk[16..]);
    }
  }

  lemma {:induction false} RunSpelled(sha: Hash, seed: Bytes, digest: Bytes, sig: Bytes, root: Bytes)
    requires |digest| == 30 && |sig| == 7856
    ensures Valid(FipsScheme(sha, seed))
    ensures VerifyRun(FipsScheme(sha, seed), TreeBits(digest), LeafBits(digest),
                      Key(0, TreeBits(digest), LeafBits(digest)), IndexBits(digest), PartsAt(sig), LayersAt(sig), root)
       <==> root == RootFrom(sha, seed, SplitOf(digest), sig)
  {
    var s, sp := FipsScheme(sha, seed), SplitOf(digest);
    FipsSchemeValid(sha, seed);
    SplitSpelled(digest);
    IndicesSpelled(digest);
    PartsReadAlike(sig);
    LayersReadAlike(sig);
    FipsSpec.Powers();
    VerificationIsRun(s, sp.tree, sp.leaf, ForsKey(sp), Indices(sp.md), ParsedFors(ForsOf(sig)), ParsedHt(HtOf(sig)),
                      root);
  }
}
