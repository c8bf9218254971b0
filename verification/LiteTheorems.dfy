/** What packages/pqc/src/slh-dsa-ref.ts promises, for every seed, secret and message. */
module LiteTheorems {
  import opened ByteStrings
  import opened Words
  import opened Bits
  import opened Tweaks
  import opened Merkle
  import opened Schemes
  import opened Layout
  import opened Digits
  import opened Correctness
  import opened Binding
  import opened Naming
  import opened LiteSpec
  import opened LiteWire
  import Trees = LiteTrees
  import Lite

  // ---- verify accepts what sign makes ---------------------------------------------------------------

  lemma {:induction false} HonestLayer(sha: Hash, seed: Bytes, skSeed: Bytes, msg: Bytes, tree: nat, leaf: nat, j: nat)
    requires |msg| == 32
    ensures Valid(LiteScheme(sha, seed))
    ensures var sig := HtSignLayer(LiteScheme(sha, seed), LiteSecrets(sha, skSeed), msg, tree, leaf, j);
            Parsed(Flat(sig)) == sig && LayerSized(LiteShape(), Flat(sig))
  {
    var s, secrets := LiteScheme(sha, seed), LiteSecrets(sha, skSeed);
    LiteSchemeValid(sha, seed);
    var key, payload := KeyAt(s, tree, leaf, j), HonestPayload(s, secrets, msg, tree, leaf, j);
    HonestPayloadSize(s, secrets, msg, tree, leaf, j);
    Trees.SignedSizes(sha, seed, skSeed, key, ChainDigits(payload));
    Trees.PathSizes(sha, seed, skSeed, key.layer, key.tree, key.leaf);
    ParsedOfFlat(HtSignLayer(s, secrets, msg, tree, leaf, j));
  }

  lemma {:induction false} HonestLayers(sha: Hash, seed: Bytes, skSeed: Bytes, msg: Bytes, tree: nat, leaf: nat)
    requires |msg| == 32
    ensures Valid(LiteScheme(sha, seed))
    ensures var sigs := HtSign(LiteScheme(sha, seed), LiteSecrets(sha, skSeed), msg, tree, leaf, 2);
            && ParsedLayers(FlatLayers(sigs)) == sigs
            && forall j :: 0 <= j < 2 ==> LayerSized(LiteShape(), FlatLayers(sigs)[j])
  {
    LiteSchemeValid(sha, seed);
    var sigs := HtSign(LiteScheme(sha, seed), LiteSecrets(sha, skSeed), msg, tree, leaf, 2);
    forall j | 0 <= j < 2
      ensures Parsed(Flat(sigs[j])) == sigs[j] && LayerSized(LiteShape(), Flat(sigs[j]))
    {
      HonestLayer(sha, seed, skSeed, msg, tree, leaf, j);
    }
    BothParsed(sigs);
  }

  lemma {:induction false} BothParsed(sigs: seq<XmssSig>)
    requires |sigs| == 2 && forall j :: 0 <= j < 2 ==> Parsed(Flat(sigs[j])) == sigs[j]
    ensures ParsedLayers(FlatLayers(sigs)) == sigs
  {
    assert ParsedLayers(FlatLayers(sigs)) == [sigs[0], sigs[1]];
  }

  /** Every signature sign makes has 512 FORS bytes and two layers of 2144 and 128 bytes. */
  lemma {:induction false} SignatureWellSized(sha: Hash, sk: SecretKey, message: Bytes)
    ensures WellSized(LiteShape(), SignatureOf(sha, sk, message))
  {
    var (s, secrets, sp) := (LiteScheme(sha, sk.seed), LiteSecrets(sha, sk.skSeed), SplitOf(sha(sk.seed + message)));
    LiteSchemeValid(sha, sk.seed);
    HonestLayers(sha, sk.seed, sk.skSeed, ForsPk(s, secrets, ForsKey(sp)), sp.tree, sp.leaf);
    Lite.HonestPartsFit(sha, sk.seed, sk.skSeed, sp.tree, sp.fors);
    FlatPartsSized(ForsSign(s, secrets, ForsKey(sp), sp.fors), 32, 3, 128);
  }

  /** The central law: whatever the seeds and the message, verify accepts sign's signature under keygen's key. */
  lemma {:induction false} VerifyAcceptsSign(sha: Hash, seed: Bytes, skSeed: Bytes, message: Bytes)
    ensures Accepts(sha, PublicKeyOf(sha, seed, skSeed), message, SignatureOf(sha, SecretKey(seed, skSeed), message))
  {
    var (s, secrets, sp) := (LiteScheme(sha, seed), LiteSecrets(sha, skSeed), SplitOf(sha(seed + message)));
    LiteSchemeValid(sha, seed);
    LiteSecretsOk(sha, seed, skSeed);
    SplitInRange(sha(seed + message));
    Lite.ForsRootFixed(sha, seed, skSeed, sp.tree, sp.fors);
    HonestLayers(sha, seed, skSeed, ForsPk(s, secrets, ForsKey(sp)), sp.tree, sp.leaf);
    assert (s.d - 1) * s.hp == 4;
    HypertreeRecovered(s, secrets, ForsPk(s, secrets, ForsKey(sp)), sp.tree, sp.leaf);
  }

  /** The same over the wire: 5056 bytes, unpacked and accepted. */
  lemma {:induction false} VerifyAcceptsWire(sha: Hash, seed: Bytes, skSeed: Bytes, message: Bytes)
    ensures var wire := Packed(SignatureOf(sha, SecretKey(seed, skSeed), message));
            |wire| == 5056 && Accepts(sha, PublicKeyOf(sha, seed, skSeed), message, Unpacked(LiteShape(), wire))
  {
    var sig := SignatureOf(sha, SecretKey(seed, skSeed), message);
    SignatureWellSized(sha, SecretKey(seed, skSeed), message);
    LiteRoundTrips(sig, Packed(sig));
    VerifyAcceptsSign(sha, seed, skSeed, message);
  }

  /** Verifying an honest signature makes no hash call signing did not make: same address, same message. */
  lemma {:induction false} VerifyRepeatsSign(sha: Hash, seed: Bytes, skSeed: Bytes, message: Bytes)
    ensures var sk := SecretKey(seed, skSeed);
            Within(VerifyCalls(sha, seed, sha(seed + message), SignatureOf(sha, sk, message)),
                   SignCalls(sha, sk, message))
  {
    var (s, secrets, sp) := (LiteScheme(sha, seed), LiteSecrets(sha, skSeed), SplitOf(sha(seed + message)));
    LiteSchemeValid(sha, seed);
    LiteSecretsOk(sha, seed, skSeed);
    SplitInRange(sha(seed + message));
    Lite.ForsRootFixed(sha, seed, skSeed, sp.tree, sp.fors);
    HonestLayers(sha, seed, skSeed, ForsPk(s, secrets, ForsKey(sp)), sp.tree, sp.leaf);
    HtRepeats(s, secrets, ForsPk(s, secrets, ForsKey(sp)), sp.tree, sp.leaf, 2, 2);
  }

  /**
   For every leaf the path xmssAuthPath returns leads xmssRootFromLeafChunk to the root xmssRoot
   computes, through hash calls (height and index words included) that building the tree made.
   */
  lemma {:induction false} AuthPathMeetsRoot(sha: Hash, seed: Bytes, skSeed: Bytes, layer: nat, tree: nat, leafIdx: nat)
    requires leafIdx < 16
    ensures var s, secrets, adr := LiteScheme(sha, seed), LiteSecrets(sha, skSeed), TreeAdr(layer, tree);
            var leaves := XmssLeaves(s, secrets, layer, tree);
            var path := Chunks(Flatten(AuthPath(s.th, adr, leaves, leafIdx, 4)), 32, 4);
            && Climb(s.th, adr, leafIdx, leaves(leafIdx), path) == XmssRoot(s, secrets, layer, tree)
            && Within(ClimbCalls(s.th, adr, leafIdx, leaves(leafIdx), path), XmssTreeCalls(s, secrets, layer, tree))
  {
    var s, secrets, adr := LiteScheme(sha, seed), LiteSecrets(sha, skSeed), TreeAdr(layer, tree);
    var leaves := XmssLeaves(s, secrets, layer, tree);
    Trees.PathSizes(sha, seed, skSeed, layer, tree, leafIdx);
    ChunksOfFlatten(AuthPath(s.th, adr, leaves, leafIdx, 4), 32);
    assert Pow2(4) == 16;
    ClimbMeetsRoot(s.th, adr, leaves, 0, leafIdx, 4, leafIdx, leaves(leafIdx));
    HonestClimbInTree(s.th, adr, leaves, 0, leafIdx, 4, leafIdx, 4);
  }

  // ---- one address, one input ---------------------------------------------------------------------

  /** All calls of key generation and of signing the given messages one after the other. */
  function History(sha: Hash, sk: SecretKey, messages: seq<Bytes>): seq<Call> {
    if messages == [] then KeygenCalls(sha, sk.seed, sk.skSeed)
    else History(sha, sk, messages[..|messages| - 1]) + SignCalls(sha, sk, messages[|messages| - 1])
  }

  lemma {:induction false} LiteSmall(sha: Hash, seed: Bytes)
    ensures Small(LiteScheme(sha, seed))
  {
    assert Pow2(4) == 16 && Pow2(3) == 8;
  }

  lemma {:induction false} SignNamed(sha: Hash, sk: SecretKey, message: Bytes)
    ensures AllNamed(LiteScheme(sha, sk.seed), LiteSecrets(sha, sk.skSeed), SignCalls(sha, sk, message))
  {
    var (s, secrets, sp) := (LiteScheme(sha, sk.seed), LiteSecrets(sha, sk.skSeed), SplitOf(sha(sk.seed + message)));
    LiteSchemeValid(sha, sk.seed);
    LiteSmall(sha, sk.seed);
    SplitInRange(sha(sk.seed + message));
    ForsSignNamed(s, secrets, ForsKey(sp), 4);
    ForsRecoveredNamed(s, secrets, ForsKey(sp), sp.fors);
    HtSignNamed(s, secrets, ForsPk(s, secrets, ForsKey(sp)), sp.tree, sp.leaf, 2);
  }

  lemma {:induction false} HistoryNamed(sha: Hash, sk: SecretKey, messages: seq<Bytes>)
    ensures AllNamed(LiteScheme(sha, sk.seed), LiteSecrets(sha, sk.skSeed), History(sha, sk, messages))
  {
    if messages == [] {
      LiteSmall(sha, sk.seed);
      XmssTreeNamed(LiteScheme(sha, sk.seed), LiteSecrets(sha, sk.skSeed), 1, 0);
    } else {
      HistoryNamed(sha, sk, messages[..|messages| - 1]);
      SignNamed(sha, sk, messages[|messages| - 1]);
    }
  }

  /** Equal up to the key pair of a FORS address, which the encoding leaves out. */
  predicate SamePlace(a: Address, b: Address) {
    match a
    case ForsNode(k, h, i) =>
      b.ForsNode? && b.key.layer == k.layer && b.key.tree == k.tree && b.height == h && b.index == i
    case ForsRoots(k) => b.ForsRoots? && b.key.layer == k.layer && b.key.tree == k.tree
    case _ => a == b
  }

  lemma {:induction false} WordsFitFields(a: Address)
    requires Fits(a)
    ensures WordsFit(LiteWords(a))
  {
  }

  /** The 32 bytes of an in-range address determine the place it names. */
  lemma {:induction false} EncodingNamesPlace(a: Address, b: Address)
    requires Fits(a) && Fits(b) && LiteEnc()(a) == LiteEnc()(b)
    ensures SamePlace(a, b)
  {
    WordsFitFields(a);
    WordsFitFields(b);
    WordBytesInjective(LiteWords(a), LiteWords(b));
    WordsNamePlace(a, b);
  }

  lemma {:induction false} WordsNamePlace(a: Address, b: Address)
    requires Fits(a) && Fits(b) && LiteWords(a) == LiteWords(b)
    ensures SamePlace(a, b)
  {
    var xs, ys := LiteWords(a), LiteWords(b);
    assert xs[0] == ys[0] && xs[2] == ys[2] && xs[3] == ys[3] && xs[4] == ys[4];
    assert xs[5] == ys[5] && xs[6] == ys[6] && xs[7] == ys[7];
    TwoHalves(TreeOf(a), TreeOf(b));
  }

  function TreeOf(a: Address): nat {
    match a
    case WotsHash(key, _, _) => key.tree
    case WotsPk(key) => key.tree
    case TreeNode(_, tree, _, _) => tree
    case ForsNode(key, _, _) => key.tree
    case ForsRoots(key) => key.tree
  }

  lemma {:induction false} TwoHalves(v: nat, w: nat)
    requires v < 0x1_0000_0000_0000_0000 && w < 0x1_0000_0000_0000_0000
    ensures HighWord(v) == HighWord(w) && LowWord(v) == LowWord(w) ==> v == w
  {
  }

  lemma {:induction false} ForsNodeBlind(sha: Hash, seed: Bytes, skSeed: Bytes, key: Key, key': Key, h: nat, i: nat)
    requires key.layer == key'.layer && key.tree == key'.tree
    ensures var s, secrets := LiteScheme(sha, seed), LiteSecrets(sha, skSeed);
            Node(s.th, ForsAdr(key), ForsLeaves(s, secrets, key), h, i)
            == Node(s.th, ForsAdr(key'), ForsLeaves(s, secrets, key'), h, i)
  {
    var s, secrets := LiteScheme(sha, seed), LiteSecrets(sha, skSeed);
    NodeCongruence(s.th, ForsAdr(key), ForsLeaves(s, secrets, key), ForsAdr(key'), ForsLeaves(s, secrets, key'), h, i);
  }

  lemma {:induction false} ForsChildrenBlind(sha: Hash, seed: Bytes, skSeed: Bytes, key: Key, key': Key, h: nat, i: nat)
    requires key.layer == key'.layer && key.tree == key'.tree
    ensures var s, secrets := LiteScheme(sha, seed), LiteSecrets(sha, skSeed);
            Children(s.th, ForsAdr(key), ForsLeaves(s, secrets, key), h, i)
            == Children(s.th, ForsAdr(key'), ForsLeaves(s, secrets, key'), h, i)
  {
    var s, secrets := LiteScheme(sha, seed), LiteSecrets(sha, skSeed);
    ChildrenCongruence(s.th, ForsAdr(key), ForsLeaves(s, secrets, key), ForsAdr(key'), ForsLeaves(s, secrets, key'), h,
                       i);
  }

  lemma {:induction false} ForsRootsBlind(sha: Hash, seed: Bytes, skSeed: Bytes, key: Key, key': Key)
    requires key.layer == key'.layer && key.tree == key'.tree
    ensures ForsTreeRoots(LiteScheme(sha, seed), LiteSecrets(sha, skSeed), key)
            == ForsTreeRoots(LiteScheme(sha, seed), LiteSecrets(sha, skSeed), key')
  {
    var s, secrets := LiteScheme(sha, seed), LiteSecrets(sha, skSeed);
    forall t | 0 <= t < s.k
      ensures ForsTreeRoot(s, secrets, key, t) == ForsTreeRoot(s, secrets, key', t)
    {
      ForsNodeBlind(sha, seed, skSeed, key, key', s.a, t);
    }
  }

  /** The forest does not depend on the key pair word its address lacks. */
  lemma {:induction false} SamePlaceSameInput(sha: Hash, seed: Bytes, skSeed: Bytes, a: Address, b: Address)
    requires SamePlace(a, b)
    ensures Preimage(LiteScheme(sha, seed), LiteSecrets(sha, skSeed), a)
            == Preimage(LiteScheme(sha, seed), LiteSecrets(sha, skSeed), b)
  {
    match a {
      case ForsNode(k, h, i) => ForsChildrenBlind(sha, seed, skSeed, k, b.key, h, i);
      case ForsRoots(k) => ForsRootsBlind(sha, seed, skSeed, k, b.key);
      case _ =>
    }
  }

  lemma {:induction false} OneInputPerCall(sha: Hash, sk: SecretKey, messages: seq<Bytes>, x: Call, y: Call)
    requires x in History(sha, sk, messages) && y in History(sha, sk, messages)
    requires LiteEnc()(x.adrs) == LiteEnc()(y.adrs)
    ensures x.msg == y.msg
  {
    var s, secrets := LiteScheme(sha, sk.seed), LiteSecrets(sha, sk.skSeed);
    HistoryNamed(sha, sk, messages);
    assert Named(s, secrets, x) && Named(s, secrets, y);
    EncodingNamesPlace(x.adrs, y.adrs);
    SamePlaceSameInput(sha, sk.seed, sk.skSeed, x.adrs, y.adrs);
  }

  /**
   Across key generation and any signings under one key, two hash calls with equal address bytes
   hash equal inputs: an address names one node, chain position or root list, whatever was signed.
   */
  lemma {:induction false} OneInputPerAddress(sha: Hash, sk: SecretKey, messages: seq<Bytes>, i: nat, j: nat)
    requires var log := Encoded(LiteEnc(), History(sha, sk, messages));
             i < |log| && j < |log| && log[i].adrs == log[j].adrs
    ensures var log := Encoded(LiteEnc(), History(sha, sk, messages)); log[i].msg == log[j].msg
  {
    var calls := History(sha, sk, messages);
    OneInputPerCall(sha, sk, messages, calls[i], calls[j]);
  }

  // ---- binding --------------------------------------------------------------------------------------

  /** Cut out of any bytes, a layer has as many chunks and siblings as the scheme, none too long. */
  lemma {:induction false} LayerFits(sha: Hash, seed: Bytes, sig: LayerSig)
    ensures XmssFits(LiteScheme(sha, seed), Parsed(sig))
  {
    ChunksAtMost(sig.wotsSig, 32, 67);
  }

  /** The hash calls of xmssRootFromSig. */
  function RootLog(sha: Hash, seed: Bytes, key: Key, payload: Bytes, sig: LayerSig): seq<Sent>
    requires |payload| == 32
  {
    LiteSchemeValid(sha, seed);
    Encoded(LiteEnc(), RecoveredRootCalls(LiteScheme(sha, seed), key, payload, Parsed(sig)))
  }

  /** Nothing xmssRootFromSig computes from them tells two signatures of a payload apart. */
  ghost predicate SeenAlike(sha: Hash, seed: Bytes, payload: Bytes, sig1: LayerSig, sig2: LayerSig)
    requires |payload| == 32
  {
    LiteSchemeValid(sha, seed);
    XmssAgrees(LiteScheme(sha, seed), payload, Parsed(sig1), Parsed(sig2))
  }

  /**
   Two XMSS signatures of one payload with one root, whatever their sizes: the siblings are equal and
   so are the chunks, up to zero bytes missing where nothing is hashed; or at some address the two
   runs of xmssRootFromSig hand SHA-256 different inputs with one digest.
   */
  lemma {:induction false} XmssSignaturesAgree(sha: Hash, seed: Bytes, key: Key, payload: Bytes, sig1: LayerSig,
                                               sig2: LayerSig)
    requires |payload| == 32 && Valid(LiteScheme(sha, seed))
    requires RecoveredRoot(LiteScheme(sha, seed), key, payload, Parsed(sig1))
             == RecoveredRoot(LiteScheme(sha, seed), key, payload, Parsed(sig2))
    ensures SeenAlike(sha, seed, payload, sig1, sig2)
            || ShaCollision(sha, seed, 32, RootLog(sha, seed, key, payload, sig1),
                            RootLog(sha, seed, key, payload, sig2))
    ensures LayerSized(LiteShape(), sig1) && LayerSized(LiteShape(), sig2)
            ==> (SeenAlike(sha, seed, payload, sig1, sig2) <==> sig1 == sig2)
  {
    var s := LiteScheme(sha, seed);
    ChecksumDominates(s);
    LayerFits(sha, seed, sig1);
    LayerFits(sha, seed, sig2);
    XmssBinding(s, key, payload, Parsed(sig1), payload, Parsed(sig2));
    if !SeenAlike(sha, seed, payload, sig1, sig2) {
      KeyedHashes(sha, seed, LiteEnc());
      CollisionIsSha(s.th, sha, seed, 32, LiteEnc(), RecoveredRootCalls(s, key, payload, Parsed(sig1)),
                     RecoveredRootCalls(s, key, payload, Parsed(sig2)));
    }
    if LayerSized(LiteShape(), sig1) && LayerSized(LiteShape(), sig2) {
      FlatOfParsed(sig1);
      FlatOfParsed(sig2);
      SizedAgreeing(s, payload, Parsed(sig1), Parsed(sig2));
    }
  }

  /** The hash calls of verify. */
  function VerifyLog(sha: Hash, seed: Bytes, message: Bytes, sig: Signature): seq<Sent>
    requires |sig.layers| >= 2
  {
    Encoded(LiteEnc(), VerifyCalls(sha, seed, sha(seed + message), sig))
  }

  lemma {:induction false} LayersFit(sha: Hash, seed: Bytes, sig: Signature)
    requires |sig.layers| >= 2
    ensures HtFits(LiteScheme(sha, seed), ParsedLayers(sig.layers))
    ensures ForsFits(LiteScheme(sha, seed), ParsedFors(sig.fors))
  {
    LayerFits(sha, seed, sig.layers[0]);
    LayerFits(sha, seed, sig.layers[1]);
  }

  /**
   What verify reads of two signatures of one message is the same: the secrets and siblings of the
   four FORS trees, the siblings of both layers, and the chunks of both up to zero bytes missing
   where nothing is hashed.
   */
  ghost predicate Indistinguishable(sha: Hash, seed: Bytes, message: Bytes, sig1: Signature, sig2: Signature)
    requires |sig1.layers| >= 2 && |sig2.layers| >= 2
  {
    var sp := SplitOf(sha(seed + message));
    LiteSchemeValid(sha, seed);
    LayersFit(sha, seed, sig1);
    LayersFit(sha, seed, sig2);
    WholeAgrees(LiteScheme(sha, seed), sp.tree, sp.leaf, ForsKey(sp), sp.fors, ParsedFors(sig1.fors),
                ParsedLayers(sig1.layers), ParsedFors(sig2.fors), ParsedLayers(sig2.layers))
  }

  /** Some layer certifies two different payloads with one WOTS+ key, each signature giving away part of the other. */
  ghost predicate SomeKeyReused(sha: Hash, seed: Bytes, message: Bytes, sig1: Signature, sig2: Signature)
    requires |sig1.layers| >= 2 && |sig2.layers| >= 2
  {
    var sp := SplitOf(sha(seed + message));
    LiteSchemeValid(sha, seed);
    LayersFit(sha, seed, sig1);
    LayersFit(sha, seed, sig2);
    LayerReused(LiteScheme(sha, seed), sp.tree, sp.leaf,
                ForsRootOf(sha, seed, sp, sig1.fors), ParsedLayers(sig1.layers),
                ForsRootOf(sha, seed, sp, sig2.fors), ParsedLayers(sig2.layers), 2)
  }

  /**
   Two accepted signatures on one message, of any sizes, are indistinguishable to verify, or a layer's
   WOTS+ key was used for two payloads, or at some address the two verifications hand SHA-256
   different inputs with one digest.
   */
  lemma {:induction false} AcceptedSignaturesAgree(sha: Hash, pk: PublicKey, message: Bytes, sig1: Signature,
                                                   sig2: Signature)
    requires |sig1.layers| >= 2 && |sig2.layers| >= 2
    requires Accepts(sha, pk, message, sig1) && Accepts(sha, pk, message, sig2)
    ensures Indistinguishable(sha, pk.seed, message, sig1, sig2) || SomeKeyReused(sha, pk.seed, message, sig1, sig2)
            || ShaCollision(sha, pk.seed, 32, VerifyLog(sha, pk.seed, message, sig1),
                            VerifyLog(sha, pk.seed, message, sig2))
  {
    var seed, digest := pk.seed, sha(pk.seed + message);
    var s, sp := LiteScheme(sha, seed), SplitOf(digest);
    LiteSchemeValid(sha, seed);
    ChecksumDominates(s);
    LayersFit(sha, seed, sig1);
    LayersFit(sha, seed, sig2);
    WholeBinding(s, sp.tree, sp.leaf, ForsKey(sp), sp.fors, ParsedFors(sig1.fors), ParsedLayers(sig1.layers),
                 ParsedFors(sig2.fors), ParsedLayers(sig2.layers));
    if !Indistinguishable(sha, seed, message, sig1, sig2) && !SomeKeyReused(sha, seed, message, sig1, sig2) {
      KeyedHashes(sha, seed, LiteEnc());
      CollisionIsSha(s.th, sha, seed, 32, LiteEnc(), VerifyCalls(sha, seed, digest, sig1),
                     VerifyCalls(sha, seed, digest, sig2));
    }
  }

  /** Conversely, indistinguishable signatures have one verdict under every key with this seed. */
  lemma {:induction false} OneVerdict(sha: Hash, pk: PublicKey, message: Bytes, sig1: Signature, sig2: Signature)
    requires |sig1.layers| >= 2 && |sig2.layers| >= 2
    requires Indistinguishable(sha, pk.seed, message, sig1, sig2)
    ensures Accepts(sha, pk, message, sig1) <==> Accepts(sha, pk, message, sig2)
  {
    var sp := SplitOf(sha(pk.seed + message));
    LiteSchemeValid(sha, pk.seed);
    LayersFit(sha, pk.seed, sig1);
    LayersFit(sha, pk.seed, sig2);
    AgreeingRoots(LiteScheme(sha, pk.seed), sp.tree, sp.leaf, ForsKey(sp), sp.fors, ParsedFors(sig1.fors),
                  ParsedLayers(sig1.layers), ParsedFors(sig2.fors), ParsedLayers(sig2.layers));
  }

  /** Equal chunks are equal bytes. */
  lemma {:induction false} ParsingInjective(sig1: Signature, sig2: Signature)
    requires WellSized(LiteShape(), sig1) && WellSized(LiteShape(), sig2)
    requires ParsedLayers(sig1.layers) == ParsedLayers(sig2.layers) && ParsedFors(sig1.fors) == ParsedFors(sig2.fors)
    ensures sig1 == sig2
  {
    FlatOfParts(sig1.fors, 32, 3, 128, 4);
    FlatOfParts(sig2.fors, 32, 3, 128, 4);
    assert ParsedLayers(sig1.layers)[0] == ParsedLayers(sig2.layers)[0];
    assert ParsedLayers(sig1.layers)[1] == ParsedLayers(sig2.layers)[1];
    LayerParsingInjective(sig1.layers[0], sig2.layers[0]);
    LayerParsingInjective(sig1.layers[1], sig2.layers[1]);
    assert sig1.layers == sig2.layers;
  }

  lemma {:induction false} LayerParsingInjective(sig1: LayerSig, sig2: LayerSig)
    requires LayerSized(LiteShape(), sig1) && LayerSized(LiteShape(), sig2) && Parsed(sig1) == Parsed(sig2)
    ensures sig1 == sig2
  {
    FlatOfParsed(sig1);
    FlatOfParsed(sig2);
  }

  lemma {:induction false} LayersSized(sha: Hash, seed: Bytes, sig: Signature)
    requires WellSized(LiteShape(), sig)
    ensures forall j :: 0 <= j < 2 ==> XmssSized(LiteScheme(sha, seed), ParsedLayers(sig.layers)[j])
  {
    assert LayerSized(LiteShape(), sig.layers[0]) && LayerSized(LiteShape(), sig.layers[1]);
    FlatOfParsed(sig.layers[0]);
    FlatOfParsed(sig.layers[1]);
  }

  /** Among signatures of the right sizes, which a caller can check and verify does not, indistinguishable is equal. */
  lemma {:induction false} SizedIsEqual(sha: Hash, seed: Bytes, message: Bytes, sig1: Signature, sig2: Signature)
    requires WellSized(LiteShape(), sig1) && WellSized(LiteShape(), sig2)
    ensures Indistinguishable(sha, seed, message, sig1, sig2) <==> sig1 == sig2
  {
    var s, sp := LiteScheme(sha, seed), SplitOf(sha(seed + message));
    LiteSchemeValid(sha, seed);
    LayersFit(sha, seed, sig1);
    LayersFit(sha, seed, sig2);
    if Indistinguishable(sha, seed, message, sig1, sig2) {
      LayersSized(sha, seed, sig1);
      LayersSized(sha, seed, sig2);
      SizedLayers(s, sp.tree, sp.leaf, ForsRootOf(sha, seed, sp, sig1.fors), ParsedLayers(sig1.layers),
                  ParsedLayers(sig2.layers));
      ParsingInjective(sig1, sig2);
    }
  }

  /** The wire fixes the sizes: accepted strings of 5056 bytes are equal, or a key was reused, or the runs collide. */
  lemma {:induction false} AcceptedWiresAgree(sha: Hash, pk: PublicKey, message: Bytes, b1: Bytes, b2: Bytes)
    requires |b1| == |b2| == 5056
    requires Accepts(sha, pk, message, Unpacked(LiteShape(), b1))
    requires Accepts(sha, pk, message, Unpacked(LiteShape(), b2))
    ensures var sig1, sig2 := Unpacked(LiteShape(), b1), Unpacked(LiteShape(), b2);
            || b1 == b2 || SomeKeyReused(sha, pk.seed, message, sig1, sig2)
            || ShaCollision(sha, pk.seed, 32, VerifyLog(sha, pk.seed, message, sig1),
                            VerifyLog(sha, pk.seed, message, sig2))
  {
    var sig1, sig2 := Unpacked(LiteShape(), b1), Unpacked(LiteShape(), b2);
    LiteRoundTrips(sig1, b1);
    LiteRoundTrips(sig2, b2);
    AcceptedSignaturesAgree(sha, pk, message, sig1, sig2);
    SizedIsEqual(sha, pk.seed, message, sig1, sig2);
  }

  // ---- what the missing size checks let through ---------------------------------------------------

  /** The bytes of a signature verify can come to read: 512 of FORS and 2144 and 128 of each of two layers. */
  function Trimmed(sig: Signature): (r: Signature)
    requires |sig.layers| >= 2
    ensures |r.layers| == 2
  {
    Signature(Slice(sig.fors, 0, 512), [TrimmedLayer(sig.layers[0]), TrimmedLayer(sig.layers[1])])
  }

  function TrimmedLayer(sig: LayerSig): LayerSig {
    LayerSig(Slice(sig.wotsSig, 0, 2144), Slice(sig.authPath, 0, 128))
  }

  lemma {:induction false} TrimmedParsesAlike(sig: Signature)
    requires |sig.layers| >= 2
    ensures ParsedFors(Trimmed(sig).fors) == ParsedFors(sig.fors)
    ensures ParsedLayers(Trimmed(sig).layers) == ParsedLayers(sig.layers)
  {
    forall t | 0 <= t < 4
      ensures ParsedFors(Trimmed(sig).fors)[t] == ParsedFors(sig.fors)[t]
    {
      SliceOfPrefix(sig.fors, 512, t * 128, t * 128 + 32);
      SliceOfPrefix(sig.fors, 512, t * 128 + 32, t * 128 + 128);
    }
    LayerTrims(sig.layers[0]);
    LayerTrims(sig.layers[1]);
  }

  lemma {:induction false} LayerTrims(sig: LayerSig)
    ensures Parsed(TrimmedLayer(sig)) == Parsed(sig)
  {
    ChunksOfPrefix(sig.wotsSig, 32, 67);
    ChunksOfPrefix(sig.authPath, 32, 4);
  }

  /** Further layers and bytes are never looked at: a signature and its trimmed form have one verdict. */
  lemma {:induction false} TrimmedVerdict(sha: Hash, pk: PublicKey, message: Bytes, sig: Signature)
    requires |sig.layers| >= 2
    ensures Accepts(sha, pk, message, sig) <==> Accepts(sha, pk, message, Trimmed(sig))
  {
    TrimmedParsesAlike(sig);
  }

  /** At least the sizes of a signature made by sign. */
  predicate LongEnough(sig: Signature) {
    |sig.fors| >= 512 && |sig.layers| >= 2 && LayerLongEnough(sig.layers[0]) && LayerLongEnough(sig.layers[1])
  }

  predicate LayerLongEnough(sig: LayerSig) {
    |sig.wotsSig| >= 2144 && |sig.authPath| >= 128
  }

  /** Of signatures with enough bytes, those verify cannot tell apart are the ones with equal trimmed forms. */
  lemma {:induction false} LongSignaturesAgree(sha: Hash, seed: Bytes, message: Bytes, sig1: Signature, sig2: Signature)
    requires LongEnough(sig1) && LongEnough(sig2)
    ensures Indistinguishable(sha, seed, message, sig1, sig2) <==> Trimmed(sig1) == Trimmed(sig2)
  {
    TrimmedParsesAlike(sig1);
    TrimmedParsesAlike(sig2);
    SizedIsEqual(sha, seed, message, Trimmed(sig1), Trimmed(sig2));
  }

  lemma {:induction false} HonestCallsRecorded(sha: Hash, sk: SecretKey, message: Bytes)
    ensures Within(VerifyCalls(sha, sk.seed, sha(sk.seed + message), SignatureOf(sha, sk, message)),
                   History(sha, sk, [message]))
  {
    VerifyRepeatsSign(sha, sk.seed, sk.skSeed, message);
    assert [message][..0] == [];
    assert History(sha, sk, [message]) == History(sha, sk, []) + SignCalls(sha, sk, message);
  }

  /** Verifying an honest signature hashes one input per address, so the run does not collide with itself. */
  lemma {:induction false} HonestLogCollisionFree(sha: Hash, seed: Bytes, skSeed: Bytes, message: Bytes)
    ensures var log := VerifyLog(sha, seed, message, SignatureOf(sha, SecretKey(seed, skSeed), message));
            !ShaCollision(sha, seed, 32, log, log)
  {
    var sk := SecretKey(seed, skSeed);
    var calls := VerifyCalls(sha, seed, sha(seed + message), SignatureOf(sha, sk, message));
    HonestCallsRecorded(sha, sk, message);
    NoSelfCollision(sha, sk, message, calls);
  }

  lemma {:induction false} NoSelfCollision(sha: Hash, sk: SecretKey, message: Bytes, calls: seq<Call>)
    requires Within(calls, History(sha, sk, [message]))
    ensures !ShaCollision(sha, sk.seed, 32, Encoded(LiteEnc(), calls), Encoded(LiteEnc(), calls))
  {
    var log := Encoded(LiteEnc(), calls);
    forall i, j | 0 <= i < |log| && 0 <= j < |log| && log[i].adrs == log[j].adrs
      ensures log[i].msg == log[j].msg
    {
      OneInputPerCall(sha, sk, [message], calls[i], calls[j]);
    }
  }

  /**
   So without a size check two accepted signatures need not be equal: every signature that trims to
   an honest one is accepted like it, although no key was reused and nothing collides.
   */
  lemma {:induction false} OversizeAccepted(sha: Hash, seed: Bytes, skSeed: Bytes, message: Bytes, other: Signature)
    requires |other.layers| >= 2 && Trimmed(other) == SignatureOf(sha, SecretKey(seed, skSeed), message)
    ensures var honest := SignatureOf(sha, SecretKey(seed, skSeed), message);
            && Accepts(sha, PublicKeyOf(sha, seed, skSeed), message, honest)
            && Accepts(sha, PublicKeyOf(sha, seed, skSeed), message, other)
            && !SomeKeyReused(sha, seed, message, honest, other)
            && !ShaCollision(sha, seed, 32, VerifyLog(sha, seed, message, honest), VerifyLog(sha, seed, message, other))
  {
    VerifyAcceptsSign(sha, seed, skSeed, message);
    TrimmedParsesAlike(other);
    HonestLogCollisionFree(sha, seed, skSeed, message);
  }

  /** Two of them: the honest signature with a third layer, and with one more FORS byte. */
  lemma {:induction false} UncheckedSizes(sha: Hash, seed: Bytes, skSeed: Bytes, message: Bytes, extra: LayerSig,
                                          b: byte)
    ensures var honest := SignatureOf(sha, SecretKey(seed, skSeed), message);
            var longer, tailed := honest.(layers := honest.layers + [extra]), honest.(fors := honest.fors + [b]);
            && longer != honest && Trimmed(longer) == honest
            && tailed != honest && Trimmed(tailed) == honest
  {
    var honest := SignatureOf(sha, SecretKey(seed, skSeed), message);
    SignatureWellSized(sha, SecretKey(seed, skSeed), message);
    OversizeTrims(honest, extra, b);
  }

  lemma {:induction false} OversizeTrims(sig: Signature, extra: LayerSig, b: byte)
    requires WellSized(LiteShape(), sig)
    ensures var longer, tailed := sig.(layers := sig.layers + [extra]), sig.(fors := sig.fors + [b]);
            longer != sig && Trimmed(longer) == sig && tailed != sig && Trimmed(tailed) == sig
  {
    SizedLayerTrims(sig.layers[0]);
    SizedLayerTrims(sig.layers[1]);
    assert sig.layers == [TrimmedLayer(sig.layers[0]), TrimmedLayer(sig.layers[1])];
    assert sig.fors[0..512] == sig.fors;
    assert |sig.layers + [extra]| == 3 && |sig.fors + [b]| == 513;
    assert (sig.fors + [b])[0..512] == sig.fors;
  }

  lemma {:induction false} SizedLayerTrims(sig: LayerSig)
    requires LayerSized(LiteShape(), sig)
    ensures TrimmedLayer(sig) == sig
  {
    assert sig.wotsSig[0..2144] == sig.wotsSig && sig.authPath[0..128] == sig.authPath;
  }
}
