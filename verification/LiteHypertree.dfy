/** packages/pqc/src/slh-dsa-ref.ts: XMSS signatures stacked into the hypertree. */
module LiteHypertree {
  import opened ByteStrings
  import opened Words
  import opened Bits
  import opened Results
  import opened Tweaks
  import opened Merkle
  import opened Schemes
  import opened Walks
  import opened Digits
  import opened LiteSpec
  import Trees = LiteTrees

  method XmssSign(sha: Hash, seed: Bytes, skSeed: Bytes, layer: nat, treeIdx: nat, leafIdx: nat, msgDigest: Bytes)
    returns (sig: LayerSig, ghost log: seq<Sent>)
    requires leafIdx < 16 && |msgDigest| == 32
    ensures DigitsOk(LiteScheme(sha, seed), ChainDigits(msgDigest))
    ensures sig
            == Flat(Schemes.XmssSign(LiteScheme(sha, seed), LiteSecrets(sha, skSeed), Key(layer, treeIdx, leafIdx),
                                     msgDigest))
    ensures log
            == Encoded(LiteEnc(),
                       XmssSignCalls(LiteScheme(sha, seed), LiteSecrets(sha, skSeed), Key(layer, treeIdx, leafIdx),
                                     msgDigest))
  {
    ghost var key := Key(layer, treeIdx, leafIdx);
    var baseAdrs := Trees.BuildAdrs(layer, treeIdx, 0, leafIdx);
    var wotsSig, chains := Trees.WotsSign(sha, seed, skSeed, leafIdx, baseAdrs[..], msgDigest, key);
    var authPath, tree := Trees.XmssAuthPath(sha, seed, skSeed, layer, treeIdx, leafIdx);
    EncodedAppend(LiteEnc(),
                  SignedCalls(LiteScheme(sha, seed), LiteSecrets(sha, skSeed), key, ChainDigits(msgDigest), 67),
                  XmssTreeCalls(LiteScheme(sha, seed), LiteSecrets(sha, skSeed), layer, treeIdx));
    log := chains + tree;
    sig := LayerSig(wotsSig, authPath);
  }

  ghost predicate TreeBuffer(ws: seq<nat>, layer: nat, tree: nat) {
    |ws| == 8 && ws == AdrsWords(layer, tree, 2, ws[5], ws[6], 0)
  }

  /** xmssRootFromLeafChunk: the walk up an authentication path. */
  method ClimbPath(sha: Hash, seed: Bytes, initialAdrs: Bytes, leafIdx: nat, leaf: Bytes, authPath: Bytes,
                   ghost layer: nat, ghost tree: nat)
    returns (node: Bytes, ghost log: seq<Sent>)
    requires initialAdrs == WordBytes(AdrsWords(layer, tree, 0, 0, 0, 0))
    ensures node == Climb(LiteScheme(sha, seed).th, TreeAdr(layer, tree), leafIdx, leaf, Chunks(authPath, 32, 4))
    ensures log
            == Encoded(LiteEnc(),
                       ClimbCalls(LiteScheme(sha, seed).th, TreeAdr(layer, tree), leafIdx, leaf,
                                  Chunks(authPath, 32, 4)))
  {
    ghost var th, adr, path := LiteScheme(sha, seed).th, TreeAdr(layer, tree), Chunks(authPath, 32, 4);
    node, log := leaf, [];
    var adrs := NewBuffer(initialAdrs);
    ghost var ws := WriteWord(adrs, AdrsWords(layer, tree, 0, 0, 0, 0), 4, 2);
    for i := 0 to 4
      invariant TreeBuffer(ws, layer, tree) && adrs[..] == WordBytes(ws)
      invariant PathClimbed(th, LiteEnc(), adr, leafIdx, leaf, path, i, node, log)
    {
      var up := i + 1;
      var parent := Shr(leafIdx, up);
      ws := WriteWord(adrs, ws, 5, up);
      ws := WriteWord(adrs, ws, 6, parent);
      assert ws == LiteWords(adr(up, parent));
      var lo, hi := i * 32, up * 32;
      var sibling := Slice(authPath, lo, hi);
      ChunkIsSlice(authPath, 32, 4, i, lo, hi);
      var merged := if Shr(leafIdx, i) % 2 == 0 then node + sibling else sibling + node;
      ghost var below := node;
      node := sha(seed + adrs[..] + merged);
      PathClimbedOne(th, LiteEnc(), adr, leafIdx, leaf, path, i, up, parent, below, merged, log, node,
                     Sent(adrs[..], merged));
      log := log + [Sent(adrs[..], merged)];
    }
    PathClimbedAll(th, LiteEnc(), adr, leafIdx, leaf, path, 4, node, log);
  }

  method XmssRootFromSig(sha: Hash, seed: Bytes, layer: nat, treeIdx: nat, leafIdx: nat, msgDigest: Bytes,
                         sig: LayerSig)
    returns (root: Bytes, ghost log: seq<Sent>)
    requires |msgDigest| == 32
    ensures DigitsOk(LiteScheme(sha, seed), ChainDigits(msgDigest))
    ensures root == RecoveredRoot(LiteScheme(sha, seed), Key(layer, treeIdx, leafIdx), msgDigest, Parsed(sig))
    ensures log
            == Encoded(LiteEnc(),
                       RecoveredRootCalls(LiteScheme(sha, seed), Key(layer, treeIdx, leafIdx), msgDigest, Parsed(sig)))
  {
    ghost var s, key := LiteScheme(sha, seed), Key(layer, treeIdx, leafIdx);
    var baseAdrs := Trees.BuildAdrs(layer, treeIdx, 0, leafIdx);
    var wpk, chains := Trees.WotsPkFromSig(sha, seed, baseAdrs[..], msgDigest, sig.wotsSig, key);
    var tAdrs := Trees.BuildAdrs(layer, treeIdx, 1, leafIdx);
    var leaf := sha(seed + tAdrs[..] + wpk);
    HashedAt(sha, seed, WotsPk(key), tAdrs[..], wpk);
    ghost var compress := Sent(tAdrs[..], wpk);
    var initialAdrs := Trees.BuildAdrs(layer, treeIdx, 0, 0);
    ghost var climb;
    root, climb := ClimbPath(sha, seed, initialAdrs[..], leafIdx, leaf, sig.authPath, layer, treeIdx);
    log := chains + [compress] + climb;
    RootLog(s, LiteEnc(), key, msgDigest, Parsed(sig), chains, wpk, climb);
  }

  // ---- signing layer by layer ---------------------------------------------------------------------

  lemma {:induction false} FlatLayersGrow(s: Scheme, sk: Secrets, msg: Bytes, tree: nat, leaf: nat, j: nat, up: nat)
    requires Valid(s) && |msg| == s.n && up == j + 1
    ensures FlatLayers(Schemes.HtSign(s, sk, msg, tree, leaf, up))
         == FlatLayers(Schemes.HtSign(s, sk, msg, tree, leaf, j)) + [Flat(HtSignLayer(s, sk, msg, tree, leaf, j))]
  {
  }

  method HtSign(sha: Hash, seed: Bytes, skSeed: Bytes, msgDigest: Bytes, treeIdx: nat, leafIdx: nat)
    returns (layers: seq<LayerSig>, ghost log: seq<Sent>)
    requires |msgDigest| == 32 && leafIdx < 16
    ensures Valid(LiteScheme(sha, seed))
    ensures layers
            == FlatLayers(Schemes.HtSign(LiteScheme(sha, seed), LiteSecrets(sha, skSeed), msgDigest, treeIdx, leafIdx,
                                         2))
    ensures log
            == Encoded(LiteEnc(),
                       HtSignCalls(LiteScheme(sha, seed), LiteSecrets(sha, skSeed), msgDigest, treeIdx, leafIdx, 2))
  {
    LiteSchemeValid(sha, seed);
    ghost var s, secrets := LiteScheme(sha, seed), LiteSecrets(sha, skSeed);
    layers, log := [], [];
    var payload := msgDigest;
    var curTree := treeIdx;
    var curLeaf := leafIdx;
    assert Pow2(4) == 16;
    for layer := 0 to 2
      invariant LayersSigned(s, LiteEnc(), secrets, msgDigest, treeIdx, leafIdx, layer, payload, curTree, curLeaf, log)
      invariant layers == FlatLayers(Schemes.HtSign(s, secrets, msgDigest, treeIdx, leafIdx, layer))
    {
      var sig, l1 := XmssSign(sha, seed, skSeed, layer, curTree, curLeaf, payload);
      var root, l2 := Trees.XmssRootOf(sha, seed, skSeed, layer, curTree);
      FlatLayersGrow(s, secrets, msgDigest, treeIdx, leafIdx, layer, layer + 1);
      var upTree, upLeaf := curTree / 16, curTree % 16;
      OneMoreSigned(s, LiteEnc(), secrets, msgDigest, treeIdx, leafIdx, layer, layer + 1, payload, curTree, curLeaf,
                    log, root, l1, l2, upTree, upLeaf);
      layers := layers + [sig];
      payload := root;
      log := log + (l1 + l2);
      curLeaf := upLeaf;
      curTree := upTree;
    }
  }

  // ---- verifying layer by layer -------------------------------------------------------------------

  /** One round of htRootFromSig: the root of this layer, and where the next layer signs it. */
  method LayerRound(sha: Hash, seed: Bytes, layer: nat, payload: Bytes, curTree: nat, curLeaf: nat, sig: LayerSig,
                    ghost msg: Bytes, ghost tree: nat, ghost leaf: nat, ghost sigs: seq<XmssSig>, ghost log: seq<Sent>)
    returns (root: Bytes, upTree: nat, upLeaf: nat, ghost log': seq<Sent>)
    requires Valid(LiteScheme(sha, seed)) && |msg| == 32 && layer < |sigs| && sigs[layer] == Parsed(sig)
    requires Wotsed(LiteScheme(sha, seed), sigs)
    requires LayersWalked(LiteScheme(sha, seed), LiteEnc(), msg, tree, leaf, sigs, layer, payload, curTree, curLeaf,
                          log)
    ensures LayersWalked(LiteScheme(sha, seed), LiteEnc(), msg, tree, leaf, sigs, layer + 1, root, upTree, upLeaf, log')
  {
    ghost var more;
    root, more := XmssRootFromSig(sha, seed, layer, curTree, curLeaf, payload, sig);
    upLeaf := curTree % 16;
    upTree := curTree / 16;
    assert Pow2(4) == 16;
    OneMoreLayer(LiteScheme(sha, seed), LiteEnc(), msg, tree, leaf, sigs, layer, layer + 1, payload, curTree, curLeaf,
                 log, root, more, upTree, upLeaf);
    log' := log + more;
  }

  /** htRootFromSig; a missing layer is a TypeError, layers past the second are ignored. */
  method HtRootFromSig(sha: Hash, seed: Bytes, msgDigest: Bytes, treeIdx: nat, leafIdx: nat, layers: seq<LayerSig>)
    returns (r: Result<Bytes>, ghost log: seq<Sent>)
    requires |msgDigest| == 32
    ensures Valid(LiteScheme(sha, seed))
    ensures r.Err? <==> |layers| < 2
    ensures r.Ok? ==> r.value == Payload(LiteScheme(sha, seed), msgDigest, treeIdx, leafIdx, ParsedLayers(layers), 2)
    ensures r.Ok?
            ==> log == Encoded(LiteEnc(),
                               PayloadCalls(LiteScheme(sha, seed), msgDigest, treeIdx, leafIdx, ParsedLayers(layers),
                                            2))
  {
    LiteSchemeValid(sha, seed);
    ghost var sigs := if |layers| < 2 then seq(|layers|, i requires 0 <= i < |layers| => Parsed(layers[i]))
                      else ParsedLayers(layers);
    log := [];
    var payload := msgDigest;
    var curTree := treeIdx;
    var curLeaf := leafIdx;
    for layer := 0 to 2
      invariant layer <= |layers|
      invariant LayersWalked(LiteScheme(sha, seed), LiteEnc(), msgDigest, treeIdx, leafIdx, sigs, layer, payload,
                             curTree, curLeaf, log)
    {
      if layer >= |layers| {
        return Err("cannot read properties of undefined"), log;
      }
      payload, curTree, curLeaf, log := LayerRound(sha, seed, layer, payload, curTree, curLeaf, layers[layer],
                                                   msgDigest, treeIdx, leafIdx, sigs, log);
    }
    r := Ok(payload);
  }
}
