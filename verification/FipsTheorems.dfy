/** What packages/pqc/src/slh-dsa-128s-ref.ts promises, for every key, message and context. */
module FipsTheorems {
  import opened ByteStrings
  import opened Bits
  import opened Tweaks
  import opened Schemes
  import opened Correctness
  import opened Binding
  import opened Naming
  import opened Distinctness
  import opened Layout
  import opened FipsSpec

  // ---- digests --------------------------------------------------------------------------------------

  /**
   The bit-by-bit loop is base_2b of section 4.4 of FIPS 205: fourteen digits below 4096 that spell
   the 21-byte number.
   */
  lemma {:induction false} IndicesSpellDigest(md: Bytes)
    requires |md| == 21
    ensures Below(Indices(md), 4096) && FromMostFirst(Indices(md), 4096) == ValueOf(md)
  {
    Powers();
    FieldsValue(md, 12, 14, 168);
    ReadAllBits(md, 21);
    assert md[..21] == md;
  }

  /** So the indices determine the digest. */
  lemma {:induction false} IndicesDetermineDigest(x: Bytes, y: Bytes)
    requires |x| == |y| == 21 && Indices(x) == Indices(y)
    ensures x == y
  {
    IndicesSpellDigest(x);
    IndicesSpellDigest(y);
    BytesOfValue(x);
    BytesOfValue(y);
  }

  lemma {:induction false} SplitRange(digest: Bytes)
    ensures SplitOf(digest).tree < Pow2(54) && SplitOf(digest).leaf < 512
  {
  }

  /** Wrapping keeps contexts and messages apart. */
  lemma {:induction false} WrappedInjective(ctx1: Bytes, msg1: Bytes, ctx2: Bytes, msg2: Bytes)
    requires |ctx1| <= 255 && |ctx2| <= 255 && Wrapped(ctx1, msg1) == Wrapped(ctx2, msg2)
    ensures ctx1 == ctx2 && msg1 == msg2
  {
    var x, y := Wrapped(ctx1, msg1), Wrapped(ctx2, msg2);
    assert x[1] == |ctx1| && y[1] == |ctx2|;
    assert x[2..] == ctx1 + msg1 && y[2..] == ctx2 + msg2;
    ConcatInjective(ctx1, msg1, ctx2, msg2);
  }

  /**
   The seven leaves of a hypertree path are the base-512 digits, least significant first, of
   tree * 512 + leaf, and the top tree is tree 0.
   */
  lemma {:induction false} PathIsPositional(sha: Hash, seed: Bytes, digest: Bytes)
    ensures var (s, sp) := (FipsScheme(sha, seed), SplitOf(digest));
            var leaves := PathLeaves(s, sp.tree, sp.leaf, 0, 7);
            && |leaves| == 7 && Below(leaves, 512) && FromLeastFirst(leaves, 512) == sp.tree * 512 + sp.leaf
            && KeyAt(s, sp.tree, sp.leaf, 6).tree == 0
  {
    var s, sp := FipsScheme(sha, seed), SplitOf(digest);
    Powers();
    SplitRange(digest);
    assert (s.d - 1) * s.hp == 54;
    TopTreeIsZero(s, sp.tree, sp.leaf);
    PathLeavesBelow(s, sp.tree, sp.leaf, 0, 7);
    PathDigits(s, sp.tree, sp.leaf, 0, 6, 7);
  }

  // ---- verify accepts signatures of section 9.2 of FIPS 205 -----------------------------------------

  lemma {:induction false} SpecForsFits(sha: Hash, seed: Bytes, sk: Secrets, key: Key, indices: seq<nat>)
    requires SecretsOk(FipsScheme(sha, seed), sk) && |indices| == 14
    ensures var parts := ForsSign(FipsScheme(sha, seed), sk, key, indices);
            && PartsFit(parts, 16, 12) && |Flatten(FlatParts(parts))| == 2912
            && ParsedFors(Flatten(FlatParts(parts))) == parts
  {
    var s := FipsScheme(sha, seed);
    var parts := ForsSign(s, sk, key, indices);
    FipsSchemeValid(sha, seed);
    forall t | 0 <= t < 14
      ensures PartFits(parts[t], 16, 12)
    {
      ForsSignTreeSized(s, sk, key, ForsLeaf(s, t, indices[t]));
    }
    FlatPartsSized(parts, 16, 12, 208);
    PartsOfFlat(parts, 16, 12, 208, 14);
  }

  lemma {:induction false} SpecLayerFits(sha: Hash, seed: Bytes, sk: Secrets, msg: Bytes, tree: nat, leaf: nat, j: nat)
    requires SecretsOk(FipsScheme(sha, seed), sk) && |msg| == 16
    ensures Valid(FipsScheme(sha, seed))
    ensures var sig := HtSignLayer(FipsScheme(sha, seed), sk, msg, tree, leaf, j);
            |FlatXmss(sig)| == 704 && ParsedXmss(FlatXmss(sig)) == sig
  {
    var s := FipsScheme(sha, seed);
    FipsSchemeValid(sha, seed);
    HonestPayloadSize(s, sk, msg, tree, leaf, j);
    XmssSignSized(s, sk, KeyAt(s, tree, leaf, j), HonestPayload(s, sk, msg, tree, leaf, j));
    XmssOfFlat(HtSignLayer(s, sk, msg, tree, leaf, j), 16, 35, 9, 560, 704);
  }

  lemma {:induction false} SpecHtFits(sha: Hash, seed: Bytes, sk: Secrets, msg: Bytes, tree: nat, leaf: nat)
    requires SecretsOk(FipsScheme(sha, seed), sk) && |msg| == 16
    ensures Valid(FipsScheme(sha, seed))
    ensures var sigs := HtSign(FipsScheme(sha, seed), sk, msg, tree, leaf, 7);
            |Flatten(FlatXmssAll(sigs))| == 4928 && ParsedHt(Flatten(FlatXmssAll(sigs))) == sigs
  {
    FipsSchemeValid(sha, seed);
    var sigs := HtSign(FipsScheme(sha, seed), sk, msg, tree, leaf, 7);
    forall j | 0 <= j < 7
      ensures |FlatXmss(sigs[j])| == 704 && ParsedXmss(FlatXmss(sigs[j])) == sigs[j]
    {
      SpecLayerFits(sha, seed, sk, msg, tree, leaf, j);
    }
    LayersParsed(sigs);
  }

  lemma {:induction false} LayersParsed(sigs: seq<XmssSig>)
    requires |sigs| == 7
    requires forall j :: 0 <= j < 7 ==> |FlatXmss(sigs[j])| == 704 && ParsedXmss(FlatXmss(sigs[j])) == sigs[j]
    ensures |Flatten(FlatXmssAll(sigs))| == 4928 && ParsedHt(Flatten(FlatXmssAll(sigs))) == sigs
  {
    var xs := FlatXmssAll(sigs);
    assert Sized(xs, 704);
    FlattenLength(xs, 704);
    forall j | 0 <= j < 7
      ensures ParsedHt(Flatten(xs))[j] == sigs[j]
    {
      FlattenAt(xs, 704, j);
    }
  }

  /** Taking a signature apart. */
  lemma {:induction false} Assembled(r: Bytes, fors: Bytes, ht: Bytes, sig: Bytes)
    requires |r| == 16 && |fors| == 2912 && |ht| == 4928 && sig == r + fors + ht
    ensures |sig| == 7856 && sig[..16] == r && ForsOf(sig) == fors && HtOf(sig) == ht
  {
    assert sig[16..2928] == fors && sig[2928..|sig|] == ht;
  }

  /**
   verify accepts every signature the signer of section 9.2 of FIPS 205 makes, for all secrets,
   randomizers, messages and contexts of at most 255 bytes: the FORS walk, the seven XMSS walks and
   the completed chains reproduce the recursively defined root.
   */
  lemma {:induction false} VerifyAcceptsSpecSignature(sha: Hash, seed: Bytes, sk: Secrets, r: Bytes, msg: Bytes,
                                                      ctx: Bytes)
    requires |seed| == 16 && |r| == 16 && |ctx| <= 255 && SecretsOk(FipsScheme(sha, seed), sk)
    ensures Accepts(sha, SpecPublicKey(sha, seed, sk), msg, SpecSignature(sha, seed, sk, r, msg, ctx), ctx)
  {
    var s, root := FipsScheme(sha, seed), XmssRoot(FipsScheme(sha, seed), sk, 6, 0);
    var sp := SplitOf(MessageDigest(sha, r, seed, root, Wrapped(ctx, msg)));
    var sig := SpecSignature(sha, seed, sk, r, msg, ctx);
    FipsSchemeValid(sha, seed);
    XmssRootSized(s, sk, 6, 0);
    SplitRange(MessageDigest(sha, r, seed, root, Wrapped(ctx, msg)));
    SpecRootDerived(sha, seed, sk, r, sp, sig);
    AcceptsParsed(sha, seed, root, msg, ctx, sig, sp);
  }

  /** The root a verifier derives from the bytes. */
  function RootFrom(sha: Hash, seed: Bytes, sp: Split, sig: Bytes): Bytes
    requires Valid(FipsScheme(sha, seed))
  {
    Payload(FipsScheme(sha, seed), RecoveredFors(sha, seed, sp, ForsOf(sig)), sp.tree, sp.leaf, ParsedHt(HtOf(sig)), 7)
  }

  lemma {:induction false} SpecRootDerived(sha: Hash, seed: Bytes, sk: Secrets, r: Bytes, sp: Split, sig: Bytes)
    requires |r| == 16 && SecretsOk(FipsScheme(sha, seed), sk) && Valid(FipsScheme(sha, seed)) && sp.tree < Pow2(54)
    requires sp.leaf < 512
    requires var s := FipsScheme(sha, seed);
             sig == r + Flatten(FlatParts(ForsSign(s, sk, ForsKey(sp), Indices(sp.md))))
                      + Flatten(FlatXmssAll(HtSign(s, sk, ForsPk(s, sk, ForsKey(sp)), sp.tree, sp.leaf, 7)))
    ensures |sig| == 7856 && sig[..16] == r && RootFrom(sha, seed, sp, sig) == XmssRoot(FipsScheme(sha, seed), sk, 6, 0)
  {
    SpecSignatureParses(sha, seed, sk, r, sp, sig);
    SpecRootRecovered(sha, seed, sk, sp);
  }

  lemma {:induction false} SpecSignatureParses(sha: Hash, seed: Bytes, sk: Secrets, r: Bytes, sp: Split, sig: Bytes)
    requires |r| == 16 && SecretsOk(FipsScheme(sha, seed), sk) && Valid(FipsScheme(sha, seed))
    requires var s := FipsScheme(sha, seed);
             sig == r + Flatten(FlatParts(ForsSign(s, sk, ForsKey(sp), Indices(sp.md))))
                      + Flatten(FlatXmssAll(HtSign(s, sk, ForsPk(s, sk, ForsKey(sp)), sp.tree, sp.leaf, 7)))
    ensures |sig| == 7856 && sig[..16] == r
    ensures var s := FipsScheme(sha, seed);
            && ParsedFors(ForsOf(sig)) == ForsSign(s, sk, ForsKey(sp), Indices(sp.md))
            && ParsedHt(HtOf(sig)) == HtSign(s, sk, ForsPk(s, sk, ForsKey(sp)), sp.tree, sp.leaf, 7)
  {
    var s := FipsScheme(sha, seed);
    var parts, pkFors := ForsSign(s, sk, ForsKey(sp), Indices(sp.md)), ForsPk(s, sk, ForsKey(sp));
    SpecForsFits(sha, seed, sk, ForsKey(sp), Indices(sp.md));
    SpecHtFits(sha, seed, sk, pkFors, sp.tree, sp.leaf);
    Assembled(r, Flatten(FlatParts(parts)), Flatten(FlatXmssAll(HtSign(s, sk, pkFors, sp.tree, sp.leaf, 7))), sig);
  }

  /** Acceptance in terms of the parsed signature. */
  lemma {:induction false} AcceptsParsed(sha: Hash, seed: Bytes, root: Bytes, msg: Bytes, ctx: Bytes, sig: Bytes,
                                         sp: Split)
    requires |seed| == 16 && |root| == 16 && |ctx| <= 255 && |sig| == 7856 && Valid(FipsScheme(sha, seed))
    requires sp == SplitOf(MessageDigest(sha, sig[..16], seed, root, Wrapped(ctx, msg)))
    requires RootFrom(sha, seed, sp, sig) == root
    ensures Accepts(sha, seed + root, msg, sig, ctx)
  {
    var pk := seed + root;
    assert pk[..16] == seed && pk[16..] == root;
  }

  lemma {:induction false} SpecRootRecovered(sha: Hash, seed: Bytes, sk: Secrets, sp: Split)
    requires SecretsOk(FipsScheme(sha, seed), sk) && sp.tree < Pow2(54) && sp.leaf < 512 && Valid(FipsScheme(sha, seed))
    ensures var s := FipsScheme(sha, seed);
            var parts := ForsSign(s, sk, ForsKey(sp), Indices(sp.md));
            var recovered := ForsRecovered(s, ForsKey(sp), Indices(sp.md), parts);
            recovered == ForsPk(s, sk, ForsKey(sp)) &&
            Payload(s, recovered, sp.tree, sp.leaf, HtSign(s, sk, recovered, sp.tree, sp.leaf, 7), 7)
            == XmssRoot(s, sk, 6, 0)
  {
    var s := FipsScheme(sha, seed);
    Powers();
    ForsKeyRecovered(s, sk, ForsKey(sp), Indices(sp.md));
    assert (s.d - 1) * s.hp == 54;
    HypertreeRecovered(s, sk, ForsPk(s, sk, ForsKey(sp)), sp.tree, sp.leaf);
  }

  // ---- one run, all addresses different ---------------------------------------------------------------

  /** Every field fits its bytes: one for the layer, eight for the tree, four for each word. */
  predicate InRange(a: Address) {
    Fits(a) && LayerOf(a) < 256
  }

  function LayerOf(a: Address): nat {
    match a
    case WotsHash(key, _, _) => key.layer
    case WotsPk(key) => key.layer
    case TreeNode(layer, _, _, _) => layer
    case ForsNode(key, _, _) => key.layer
    case ForsRoots(key) => key.layer
  }

  /** The 22 bytes determine the fields. */
  lemma {:induction false} CompressedInjective(l1: nat, t1: nat, y1: nat, k1: nat, h1: nat, i1: nat, l2: nat, t2: nat,
                                               y2: nat, k2: nat, h2: nat, i2: nat)
    requires l1 < 256 && t1 < 0x1_0000_0000_0000_0000 && y1 < 256 && k1 < 0x1_0000_0000 && h1 < 0x1_0000_0000
    requires i1 < 0x1_0000_0000
    requires l2 < 256 && t2 < 0x1_0000_0000_0000_0000 && y2 < 256 && k2 < 0x1_0000_0000 && h2 < 0x1_0000_0000
    requires i2 < 0x1_0000_0000
    requires Compressed(l1, t1, y1, k1, h1, i1) == Compressed(l2, t2, y2, k2, h2, i2)
    ensures l1 == l2 && t1 == t2 && y1 == y2 && k1 == k2 && h1 == h2 && i1 == i2
  {
    PowersOf256();
    ConcatInjective(BytesOf(l1, 1) + U64(t1) + BytesOf(y1, 1) + U32(k1) + U32(h1), U32(i1),
                    BytesOf(l2, 1) + U64(t2) + BytesOf(y2, 1) + U32(k2) + U32(h2), U32(i2));
    ConcatInjective(BytesOf(l1, 1) + U64(t1) + BytesOf(y1, 1) + U32(k1), U32(h1),
                    BytesOf(l2, 1) + U64(t2) + BytesOf(y2, 1) + U32(k2), U32(h2));
    ConcatInjective(BytesOf(l1, 1) + U64(t1) + BytesOf(y1, 1), U32(k1), BytesOf(l2, 1) + U64(t2) + BytesOf(y2, 1),
                    U32(k2));
    ConcatInjective(BytesOf(l1, 1) + U64(t1), BytesOf(y1, 1), BytesOf(l2, 1) + U64(t2), BytesOf(y2, 1));
    ConcatInjective(BytesOf(l1, 1), U64(t1), BytesOf(l2, 1), U64(t2));
    BytesOfInjective(l1, l2, 1);
    BytesOfInjective(t1, t2, 8);
    BytesOfInjective(y1, y2, 1);
    BytesOfInjective(k1, k2, 4);
    BytesOfInjective(h1, h2, 4);
    BytesOfInjective(i1, i2, 4);
  }

  lemma {:induction false} PowersOf256()
    ensures Pow256(1) == 256 && Pow256(4) == 0x1_0000_0000 && Pow256(8) == 0x1_0000_0000_0000_0000
  {
    assert Pow256(1) == 256 * Pow256(0);
    assert Pow256(4) == 256 * (256 * (256 * Pow256(1)));
    assert Pow256(6) == 256 * (256 * Pow256(4));
    assert Pow256(8) == 256 * (256 * Pow256(6));
  }

  lemma {:induction false} EncodingInjective(a: Address, b: Address)
    requires InRange(a) && InRange(b) && FipsEnc()(a) == FipsEnc()(b)
    ensures a == b
  {
    var (l1, t1, y1, k1, h1, i1) := FieldsOf(a);
    var (l2, t2, y2, k2, h2, i2) := FieldsOf(b);
    CompressedInjective(l1, t1, y1, k1, h1, i1, l2, t2, y2, k2, h2, i2);
  }

  function FieldsOf(a: Address): (f: (nat, nat, nat, nat, nat, nat))
    ensures FipsEnc()(a) == Compressed(f.0, f.1, f.2, f.3, f.4, f.5)
  {
    match a
    case WotsHash(key, c, j) => (key.layer, key.tree, 0, key.leaf, c, j)
    case WotsPk(key) => (key.layer, key.tree, 1, key.leaf, 0, 0)
    case TreeNode(layer, tree, h, i) => (layer, tree, 2, 0, h, i)
    case ForsNode(key, h, i) => (key.layer, key.tree, 3, key.leaf, h, i)
    case ForsRoots(key) => (key.layer, key.tree, 4, key.leaf, 0, 0)
  }

  ghost predicate AllInRange(calls: seq<Call>) {
    forall x :: x in calls ==> InRange(x.adrs)
  }

  lemma {:induction false} ForestInRange(s: Scheme, key: Key, indices: seq<nat>, fors: seq<ForsPart>)
    requires s.k == 14 && s.a == 12 && ForestShaped(s, indices, fors) && InRange(ForsRoots(key))
    ensures AllInRange(ForsRecoveredCalls(s, key, indices, fors))
  {
    var forest := ForsRecoveredCalls(s, key, indices, fors);
    Powers();
    ForsDistinct(s, key, indices, fors);
    forall x | x in forest
      ensures InRange(x.adrs)
    {
      assert InForest(s, x.adrs, key);
    }
  }

  lemma {:induction false} LayersInRange(s: Scheme, msg: Bytes, tree: nat, leaf: nat, sigs: seq<XmssSig>)
    requires Valid(s) && |msg| == s.n && HtShaped(s, sigs) && s.len == 35 && s.w == 16 && s.hp == 9 && s.d == 7
    requires tree < 0x1_0000_0000_0000_0000 && leaf < 512
    ensures AllInRange(PayloadCalls(s, msg, tree, leaf, sigs, s.d))
  {
    var layers := PayloadCalls(s, msg, tree, leaf, sigs, s.d);
    Powers();
    PayloadDistinct(s, msg, tree, leaf, sigs, s.d, tree + 1);
    assert BelowLayer(s, layers, s.d, tree + 1);
    forall x | x in layers
      ensures InRange(x.adrs)
    {
      var j: nat :| j < s.d && AtLayer(s, x.adrs, j, tree + 1);
    }
  }

  lemma {:induction false} RunInRange(sha: Hash, seed: Bytes, sp: Split, fors: seq<ForsPart>, sigs: seq<XmssSig>)
    requires Valid(FipsScheme(sha, seed)) && |fors| == 14 && (forall t :: 0 <= t < 14 ==> |fors[t].auth| == 12)
    requires HtShaped(FipsScheme(sha, seed), sigs) && sp.tree < 0x1_0000_0000_0000_0000 && sp.leaf < 512
    ensures var calls := VerificationCalls(FipsScheme(sha, seed), sp.tree, sp.leaf, ForsKey(sp), Indices(sp.md), fors,
                                           sigs);
            Distinct(calls) && AllInRange(calls)
  {
    var s, key, indices := FipsScheme(sha, seed), ForsKey(sp), Indices(sp.md);
    var msg := ForsRecovered(s, key, indices, fors);
    Powers();
    assert ForestShaped(s, indices, fors);
    VerificationDistinct(s, sp.tree, sp.leaf, key, indices, fors, msg, sigs);
    ForestInRange(s, key, indices, fors);
    LayersInRange(s, msg, sp.tree, sp.leaf, sigs);
  }

  lemma {:induction false} Pow54()
    ensures Pow2(54) <= 0x1_0000_0000_0000_0000
  {
    Powers();
    Pow2Sum(9, 9);
    Pow2Sum(18, 18);
    Pow2Sum(36, 18);
  }

  /** No two hash calls of one verification use the same compressed address. */
  lemma {:induction false} AddressesDistinct(sha: Hash, pk: Bytes, msg: Bytes, sig: Bytes, ctx: Bytes, i: nat, j: nat)
    requires SizesOk(pk, sig, ctx)
    requires var log := Encoded(FipsEnc(), VerifyCalls(sha, pk, msg, sig, ctx)); i < j < |log|
    ensures var log := Encoded(FipsEnc(), VerifyCalls(sha, pk, msg, sig, ctx)); log[i].adrs != log[j].adrs
  {
    var sp, calls := SplitOf(DigestOf(sha, pk, msg, sig, ctx)), VerifyCalls(sha, pk, msg, sig, ctx);
    FipsSchemeValid(sha, pk[..16]);
    SplitRange(DigestOf(sha, pk, msg, sig, ctx));
    Pow54();
    RunInRange(sha, pk[..16], sp, ParsedFors(ForsOf(sig)), ParsedHt(HtOf(sig)));
    EncodingsDiffer(calls, i, j);
  }

  lemma {:induction false} EncodingsDiffer(calls: seq<Call>, i: nat, j: nat)
    requires Distinct(calls) && AllInRange(calls) && i < j < |calls|
    ensures Encoded(FipsEnc(), calls)[i].adrs != Encoded(FipsEnc(), calls)[j].adrs
  {
    assert calls[i] in calls && calls[j] in calls;
    if FipsEnc()(calls[i].adrs) == FipsEnc()(calls[j].adrs) {
      EncodingInjective(calls[i].adrs, calls[j].adrs);
    }
  }

  // ---- binding --------------------------------------------------------------------------------------

  /** What thash hands to SHA-256 before the address: the seed, filled up to a block. */
  function SeedBlock(pk: Bytes): Bytes {
    Slice(pk, 0, 16) + Zeros(48)
  }

  /** The hash calls of verify. */
  function VerifyLog(sha: Hash, pk: Bytes, msg: Bytes, sig: Bytes, ctx: Bytes): seq<Sent>
    requires SizesOk(pk, sig, ctx)
  {
    Encoded(FipsEnc(), VerifyCalls(sha, pk, msg, sig, ctx))
  }

  lemma {:induction false} TruncatedHashes(sha: Hash, seed: Bytes)
    ensures HashesAs(FipsScheme(sha, seed).th, sha, seed + Zeros(48), 16, FipsEnc())
  {
    forall a, m
      ensures Truncated(sha, seed)(a, m) == sha(seed + Zeros(48) + FipsEnc()(a) + m)[..16]
    {
      var digest := sha(ThashInput(seed, FipsEnc()(a), m));
      assert Truncated(sha, seed)(a, m) == digest[..16];
    }
  }

  lemma {:induction false} LayersFit(sha: Hash, seed: Bytes, ht: Bytes)
    requires |ht| == 4928
    ensures HtFits(FipsScheme(sha, seed), ParsedHt(ht))
    ensures forall j :: 0 <= j < 7 ==> XmssSized(FipsScheme(sha, seed), ParsedHt(ht)[j])
  {
    forall j | 0 <= j < 7
      ensures XmssSized(FipsScheme(sha, seed), ParsedHt(ht)[j]) && XmssFits(FipsScheme(sha, seed), ParsedHt(ht)[j])
    {
      FieldInside(j, 704, 7);
      FlatOfXmss(Slice(ht, j * 704, (j + 1) * 704), 16, 35, 9, 560, 704);
    }
  }

  lemma {:induction false} HtOfParsed(ht: Bytes)
    requires |ht| == 4928
    ensures Flatten(FlatXmssAll(ParsedHt(ht))) == ht
  {
    forall j | 0 <= j < 7
      ensures FlatXmssAll(ParsedHt(ht))[j] == Chunks(ht, 704, 7)[j]
    {
      FieldInside(j, 704, 7);
      FlatOfXmss(Slice(ht, j * 704, (j + 1) * 704), 16, 35, 9, 560, 704);
    }
    assert FlatXmssAll(ParsedHt(ht)) == Chunks(ht, 704, 7);
    FlattenOfChunks(ht, 704, 7);
  }

  lemma {:induction false} ParsingInjective(sig1: Bytes, sig2: Bytes)
    requires |sig1| == |sig2| == 7856 && sig1[..16] == sig2[..16]
    requires ParsedFors(ForsOf(sig1)) == ParsedFors(ForsOf(sig2)) && ParsedHt(HtOf(sig1)) == ParsedHt(HtOf(sig2))
    ensures sig1 == sig2
  {
    FlatOfParts(ForsOf(sig1), 16, 12, 208, 14);
    FlatOfParts(ForsOf(sig2), 16, 12, 208, 14);
    HtOfParsed(HtOf(sig1));
    HtOfParsed(HtOf(sig2));
    assert sig1 == sig1[..16] + ForsOf(sig1) + HtOf(sig1) && sig2 == sig2[..16] + ForsOf(sig2) + HtOf(sig2);
  }

  /** Some layer certifies two different payloads with one WOTS+ key. */
  ghost predicate SomeKeyReused(sha: Hash, pk: Bytes, msg: Bytes, ctx: Bytes, sig1: Bytes, sig2: Bytes)
    requires SizesOk(pk, sig1, ctx) && SizesOk(pk, sig2, ctx)
  {
    var sp := SplitOf(DigestOf(sha, pk, msg, sig1, ctx));
    FipsSchemeValid(sha, pk[..16]);
    LayersFit(sha, pk[..16], HtOf(sig1));
    LayersFit(sha, pk[..16], HtOf(sig2));
    LayerReused(FipsScheme(sha, pk[..16]), sp.tree, sp.leaf,
                RecoveredFors(sha, pk[..16], sp, ForsOf(sig1)), ParsedHt(HtOf(sig1)),
                RecoveredFors(sha, pk[..16], sp, ForsOf(sig2)), ParsedHt(HtOf(sig2)), 7)
  }

  /**
   Two accepted signatures on one message with one randomizer are equal, or a layer's WOTS+ key was
   used for two payloads, or at some address the two runs hand SHA-256 different inputs whose
   digests share 16 bytes.
   */
  lemma {:induction false} AcceptedSignaturesAgree(sha: Hash, pk: Bytes, msg: Bytes, ctx: Bytes, sig1: Bytes,
                                                   sig2: Bytes)
    requires Accepts(sha, pk, msg, sig1, ctx) && Accepts(sha, pk, msg, sig2, ctx) && sig1[..16] == sig2[..16]
    ensures sig1 == sig2 || SomeKeyReused(sha, pk, msg, ctx, sig1, sig2)
            || ShaCollision(sha, SeedBlock(pk), 16, VerifyLog(sha, pk, msg, sig1, ctx),
                            VerifyLog(sha, pk, msg, sig2, ctx))
  {
    var seed, sp := pk[..16], SplitOf(DigestOf(sha, pk, msg, sig1, ctx));
    var s := FipsScheme(sha, seed);
    FipsSchemeValid(sha, seed);
    ChecksumDominates(s);
    LayersFit(sha, seed, HtOf(sig1));
    LayersFit(sha, seed, HtOf(sig2));
    var p1, h1 := ParsedFors(ForsOf(sig1)), ParsedHt(HtOf(sig1));
    var p2, h2 := ParsedFors(ForsOf(sig2)), ParsedHt(HtOf(sig2));
    WholeBinding(s, sp.tree, sp.leaf, ForsKey(sp), Indices(sp.md), p1, h1, p2, h2);
    if WholeAgrees(s, sp.tree, sp.leaf, ForsKey(sp), Indices(sp.md), p1, h1, p2, h2) {
      SizedLayers(s, sp.tree, sp.leaf, RecoveredFors(sha, seed, sp, ForsOf(sig1)), h1, h2);
      ParsingInjective(sig1, sig2);
    } else if !SomeKeyReused(sha, pk, msg, ctx, sig1, sig2) {
      TruncatedHashes(sha, seed);
      CollisionIsSha(s.th, sha, SeedBlock(pk), 16, FipsEnc(), VerifyCalls(sha, pk, msg, sig1, ctx),
                     VerifyCalls(sha, pk, msg, sig2, ctx));
    }
  }
}
