/** packages/pqc/src/slh-dsa-128s-ref.ts: WOTS+ completion, XMSS walks and the hypertree. */
module FipsTrees {
  import opened ByteStrings
  import opened Bits
  import opened Tweaks
  import opened Chains
  import opened Merkle
  import opened Schemes
  import opened Walks
  import opened Digits
  import opened FipsSpec
  import opened FipsHash

  // ---- WOTS+ --------------------------------------------------------------------------------------

  /** The address object names positions of chain c of a key. */
  ghost predicate OnChain(adrs: Adrs, key: Key, c: nat)
    reads adrs
  {
    adrs.Under(key) && adrs.typ == 0 && adrs.treeHeight == c
  }

  /** One application of F at position j, which the address object is left at. */
  method ChainOnce(sha: Hash, tmp: Bytes, j: nat, pkSeed: Bytes, adrs: Adrs, ghost key: Key, ghost c: nat, ghost i: nat,
                   ghost k: nat, ghost x: Bytes, ghost log: seq<Sent>)
    returns (next: Bytes, ghost log': seq<Sent>)
    requires OnChain(adrs, key, c) && j == i + k
    requires Walked(FipsScheme(sha, pkSeed).th, FipsEnc(), key, c, i, k, x, tmp, log)
    modifies adrs
    ensures OnChain(adrs, key, c) && adrs.treeIndex == j
    ensures Walked(FipsScheme(sha, pkSeed).th, FipsEnc(), key, c, i, k + 1, x, next, log')
  {
    adrs.treeIndex := j;
    ghost var sent;
    next, sent := Thash(sha, pkSeed, adrs, tmp, WotsHash(key, c, j));
    log' := log + [sent];
    ChainStepped(FipsScheme(sha, pkSeed).th, FipsEnc(), key, c, i, k, j, x, tmp, log, next, log');
  }

  /** chain: s applications of F from position i on, the position kept in the address object. */
  method ChainFrom(sha: Hash, x: Bytes, i: nat, s: nat, pkSeed: Bytes, adrs: Adrs, ghost key: Key, ghost c: nat)
    returns (tmp: Bytes, ghost log: seq<Sent>)
    requires OnChain(adrs, key, c)
    modifies adrs
    ensures OnChain(adrs, key, c)
    ensures Walked(FipsScheme(sha, pkSeed).th, FipsEnc(), key, c, i, s, x, tmp, log)
    ensures s == 0 ==> adrs.treeIndex == old(adrs.treeIndex)
    ensures s > 0 ==> adrs.treeIndex == i + s - 1
  {
    tmp, log := x, [];
    WalkStart(FipsScheme(sha, pkSeed).th, FipsEnc(), key, c, i, x);
    for k := 0 to s
      invariant OnChain(adrs, key, c)
      invariant k == 0 ==> adrs.treeIndex == old(adrs.treeIndex)
      invariant k > 0 ==> adrs.treeIndex == i + k - 1
      invariant Walked(FipsScheme(sha, pkSeed).th, FipsEnc(), key, c, i, k, x, tmp, log)
    {
      var j := i + k;
      tmp, log := ChainOnce(sha, tmp, j, pkSeed, adrs, key, c, i, k, x, log);
    }
  }

  /** One round of wotsPkFromSig: chunk i of the signature walked to the top of its chain under a copied address. */
  method CompleteChain(sha: Hash, sig: Bytes, i: nat, start: nat, steps: nat, pkSeed: Bytes, adrs: Adrs, ghost key: Key,
                       ghost ds: seq<nat>)
    returns (piece: Bytes, ghost calls: seq<Sent>)
    requires adrs.Under(key) && DigitsOk(FipsScheme(sha, pkSeed), ds) && i < 35 && start == ds[i] && steps == 15 - start
    ensures |piece| <= 16 && PadTo(piece, 16) == RecoveredTops(FipsScheme(sha, pkSeed), key, ds, Chunks(sig, 16, 35))[i]
    ensures calls
            == Encoded(FipsEnc(), ChainCalls(FipsScheme(sha, pkSeed).th, key, i, start, steps, Chunks(sig, 16, 35)[i]))
  {
    var a := new Adrs.Copy(adrs);
    a.typ := 0;
    a.treeHeight := i;
    var lo, hi := i * 16, (i + 1) * 16;
    var sigI := Slice(sig, lo, hi);
    ChunkIsSlice(sig, 16, 35, i, lo, hi);
    piece, calls := ChainFrom(sha, sigI, start, steps, pkSeed, a, key, i);
    TruncatedOutputs(sha, pkSeed);
    TopPadded(FipsScheme(sha, pkSeed), key, ds, Chunks(sig, 16, 35), i, start, steps);
  }

  /** All chains completed, side by side. */
  method AllTops(sha: Hash, sig: Bytes, digits: seq<nat>, pkSeed: Bytes, adrs: Adrs, ghost key: Key)
    returns (tmp: Bytes, ghost log: seq<Sent>)
    requires adrs.Under(key) && DigitsOk(FipsScheme(sha, pkSeed), digits)
    ensures tmp == Flatten(RecoveredTops(FipsScheme(sha, pkSeed), key, digits, Chunks(sig, 16, 35)))
    ensures log == Encoded(FipsEnc(), RecoveredCalls(FipsScheme(sha, pkSeed), key, digits, Chunks(sig, 16, 35), 35))
  {
    ghost var s, parsed := FipsScheme(sha, pkSeed), Chunks(sig, 16, 35);
    ghost var tops := RecoveredTops(s, key, digits, parsed);
    TruncatedOutputs(sha, pkSeed);
    RecoveredSized(s, key, digits, sig);
    log := [];
    var out := ZeroBuffer(560);
    FilledToStart(560, tops);
    for i := 0 to 35
      invariant FilledTo(out[..], 560, tops, i)
      invariant log == Encoded(FipsEnc(), RecoveredCalls(s, key, digits, parsed, i))
    {
      var start := digits[i];
      var steps := 15 - start;
      var piece, calls := CompleteChain(sha, sig, i, start, steps, pkSeed, adrs, key, digits);
      RecoveredLogStep(s, FipsEnc(), key, digits, parsed, i, log, start, steps, calls);
      log := log + calls;
      SetField(out, i, 16, piece, tops);
    }
    FilledToEnd(out[..], 560, tops, 16);
    tmp := out[..];
  }

  method WotsPkFromSig(sha: Hash, sig: Bytes, msg16: Bytes, pkSeed: Bytes, adrs: Adrs, ghost key: Key)
    returns (pk: Bytes, ghost tops: Bytes, ghost chains: seq<Sent>, ghost compress: Sent)
    requires adrs.Under(key)
    ensures DigitsOk(FipsScheme(sha, pkSeed), ChainDigits(Exactly16(msg16)))
    ensures tops
            == Flatten(RecoveredTops(FipsScheme(sha, pkSeed), key, ChainDigits(Exactly16(msg16)), Chunks(sig, 16, 35)))
    ensures pk == FipsScheme(sha, pkSeed).th(WotsPk(key), tops) && |pk| == 16
    ensures chains
            == Encoded(FipsEnc(),
                       RecoveredCalls(FipsScheme(sha, pkSeed), key, ChainDigits(Exactly16(msg16)),
                                      Chunks(sig, 16, 35), 35))
    ensures compress == Sent(FipsEnc()(WotsPk(key)), tops)
  {
    var digits := MsgToChainDigits(msg16);
    FipsSchemeValid(sha, pkSeed);
    var tmp;
    tmp, chains := AllTops(sha, sig, digits, pkSeed, adrs, key);
    tops := tmp;
    var tAdrs := new Adrs.Copy(adrs);
    tAdrs.typ := 1;
    tAdrs.treeHeight := 0;
    tAdrs.treeIndex := 0;
    pk, compress := Thash(sha, pkSeed, tAdrs, tmp, WotsPk(key));
  }

  // ---- XMSS ---------------------------------------------------------------------------------------

  /** The address object during the walk up an authentication path. */
  ghost predicate OnTree(adrs: Adrs, layer: nat, tree: nat, index: nat)
    reads adrs
  {
    adrs.layer == layer && adrs.tree == tree && adrs.typ == 2 && adrs.keypair == 0 && adrs.treeIndex == index
  }

  /** One round of the loop of xmssPkFromSig: treeHeight counts up while treeIndex is halved. */
  method ClimbOnce(sha: Hash, idx: nat, i: nat, node: Bytes, auth: Bytes, pkSeed: Bytes, adrs: Adrs, ghost layer: nat,
                   ghost tree: nat, ghost leaf: Bytes, ghost log: seq<Sent>)
    returns (node': Bytes, ghost log': seq<Sent>)
    requires i < 9 && OnTree(adrs, layer, tree, Shr(idx, i))
    requires PathClimbed(FipsScheme(sha, pkSeed).th, FipsEnc(), TreeAdr(layer, tree), idx, leaf, Chunks(auth, 16, 9), i,
                         node, log)
    modifies adrs
    ensures OnTree(adrs, layer, tree, Shr(idx, i + 1)) && adrs.treeHeight == i + 1 && |node'| == 16
    ensures PathClimbed(FipsScheme(sha, pkSeed).th, FipsEnc(), TreeAdr(layer, tree), idx, leaf, Chunks(auth, 16, 9),
                        i + 1, node', log')
  {
    var up := i + 1;
    adrs.treeHeight := up;
    adrs.treeIndex := adrs.treeIndex / 2;
    ghost var parent := Shr(idx, up);
    var lo, hi := i * 16, up * 16;
    var sibling := Slice(auth, lo, hi);
    ChunkIsSlice(auth, 16, 9, i, lo, hi);
    var bit := Shr(idx, i) % 2;
    var merged := if bit == 0 then node + sibling else sibling + node;
    ghost var sent;
    node', sent := Thash(sha, pkSeed, adrs, merged, TreeNode(layer, tree, up, parent));
    log' := log + [sent];
    PathClimbedOne(FipsScheme(sha, pkSeed).th, FipsEnc(), TreeAdr(layer, tree), idx, leaf, Chunks(auth, 16, 9), i, up,
                   parent, node, merged, log, node', sent);
  }

  method ClimbAuth(sha: Hash, idx: nat, leaf: Bytes, auth: Bytes, pkSeed: Bytes, adrs: Adrs, ghost layer: nat,
                   ghost tree: nat)
    returns (node: Bytes, ghost log: seq<Sent>)
    requires OnTree(adrs, layer, tree, idx) && |leaf| == 16
    modifies adrs
    ensures OnTree(adrs, layer, tree, Shr(idx, 9)) && adrs.treeHeight == 9 && |node| == 16
    ensures node == Climb(FipsScheme(sha, pkSeed).th, TreeAdr(layer, tree), idx, leaf, Chunks(auth, 16, 9))
    ensures log
            == Encoded(FipsEnc(),
                       ClimbCalls(FipsScheme(sha, pkSeed).th, TreeAdr(layer, tree), idx, leaf, Chunks(auth, 16, 9)))
  {
    ghost var th, path := FipsScheme(sha, pkSeed).th, Chunks(auth, 16, 9);
    node, log := leaf, [];
    for i := 0 to 9
      invariant OnTree(adrs, layer, tree, Shr(idx, i)) && (i > 0 ==> adrs.treeHeight == i) && |node| == 16
      invariant PathClimbed(th, FipsEnc(), TreeAdr(layer, tree), idx, leaf, path, i, node, log)
    {
      node, log := ClimbOnce(sha, idx, i, node, auth, pkSeed, adrs, layer, tree, leaf, log);
    }
    PathClimbedAll(th, FipsEnc(), TreeAdr(layer, tree), idx, leaf, path, 9, node, log);
  }

  /** The shared address object is left on the last node of the walk. */
  method XmssPkFromSig(sha: Hash, idx: nat, sig: Bytes, msg16: Bytes, pkSeed: Bytes, adrs: Adrs)
    returns (root: Bytes, ghost log: seq<Sent>)
    modifies adrs
    ensures adrs.layer == old(adrs.layer) && adrs.tree == old(adrs.tree)
    ensures adrs.typ == 2 && adrs.keypair == 0 && adrs.treeHeight == 9 && adrs.treeIndex == Shr(idx, 9)
    ensures DigitsOk(FipsScheme(sha, pkSeed), ChainDigits(Exactly16(msg16))) && |root| == 16
    ensures root
            == RecoveredRoot(FipsScheme(sha, pkSeed), Key(old(adrs.layer), old(adrs.tree), idx), Exactly16(msg16),
                             ParsedXmss(sig))
    ensures log
            == Encoded(FipsEnc(),
                       RecoveredRootCalls(FipsScheme(sha, pkSeed), Key(old(adrs.layer), old(adrs.tree), idx),
                                          Exactly16(msg16), ParsedXmss(sig)))
  {
    ghost var s, key := FipsScheme(sha, pkSeed), Key(adrs.layer, adrs.tree, idx);
    var wotsSig := Slice(sig, 0, 560);
    var auth := Slice(sig, 560, 704);
    adrs.typ := 0;
    adrs.keypair := idx;
    ghost var tops, chains, compress, climb;
    var leaf;
    leaf, tops, chains, compress := WotsPkFromSig(sha, wotsSig, msg16, pkSeed, adrs, key);
    adrs.typ := 2;
    adrs.keypair := 0;
    adrs.treeIndex := idx;
    root, climb := ClimbAuth(sha, idx, leaf, auth, pkSeed, adrs, key.layer, key.tree);
    log := chains + [compress] + climb;
    RootLog(s, FipsEnc(), key, Exactly16(msg16), ParsedXmss(sig), chains, tops, climb);
  }

  // ---- hypertree ----------------------------------------------------------------------------------

  /** One round of htRootFromSig, under a fresh address object. */
  method LayerRound(sha: Hash, sigHt: Bytes, j: nat, node: Bytes, curTree: nat, curLeaf: nat, pkSeed: Bytes,
                    ghost msg: Bytes, ghost tree: nat, ghost leaf: nat, ghost sigs: seq<XmssSig>, ghost log: seq<Sent>)
    returns (root: Bytes, upTree: nat, upLeaf: nat, ghost log': seq<Sent>)
    requires Valid(FipsScheme(sha, pkSeed)) && |msg| == 16 && j < 7 && sigs == ParsedHt(sigHt)
    requires LayersWalked(FipsScheme(sha, pkSeed), FipsEnc(), msg, tree, leaf, sigs, j, Exactly16(node), curTree,
                          curLeaf, log)
    ensures |root| == 16
    ensures LayersWalked(FipsScheme(sha, pkSeed), FipsEnc(), msg, tree, leaf, sigs, j + 1, root, upTree, upLeaf, log')
  {
    var adrs := new Adrs();
    adrs.layer := j;
    adrs.tree := curTree;
    var lo, hi := j * 704, (j + 1) * 704;
    var sliceJ := Slice(sigHt, lo, hi);
    ghost var more;
    root, more := XmssPkFromSig(sha, curLeaf, sliceJ, node, pkSeed, adrs);
    upLeaf := curTree % 512;
    upTree := curTree / 512;
    Powers();
    OneMoreLayer(FipsScheme(sha, pkSeed), FipsEnc(), msg, tree, leaf, sigs, j, j + 1, Exactly16(node), curTree, curLeaf,
                 log, root, more, upTree, upLeaf);
    log' := log + more;
  }

  /** Only the bottom layer can see a message of another length than 16; it reads sixteen bytes of it. */
  method HtRootFromSig(sha: Hash, sigHt: Bytes, msg16: Bytes, treeIdx: nat, leafIdx: nat, pkSeed: Bytes)
    returns (node: Bytes, ghost log: seq<Sent>)
    ensures Valid(FipsScheme(sha, pkSeed)) && |node| == 16
    ensures node == Payload(FipsScheme(sha, pkSeed), Exactly16(msg16), treeIdx, leafIdx, ParsedHt(sigHt), 7)
    ensures log
            == Encoded(FipsEnc(),
                       PayloadCalls(FipsScheme(sha, pkSeed), Exactly16(msg16), treeIdx, leafIdx, ParsedHt(sigHt), 7))
  {
    FipsSchemeValid(sha, pkSeed);
    ghost var sigs, msg := ParsedHt(sigHt), Exactly16(msg16);
    log := [];
    node := msg16;
    var curTree := treeIdx;
    var curLeaf := leafIdx;
    for j := 0 to 7
      invariant j > 0 ==> |node| == 16
      invariant LayersWalked(FipsScheme(sha, pkSeed), FipsEnc(), msg, treeIdx, leafIdx, sigs, j, Exactly16(node),
                             curTree, curLeaf, log)
    {
      node, curTree, curLeaf, log := LayerRound(sha, sigHt, j, node, curTree, curLeaf, pkSeed, msg, treeIdx, leafIdx,
                                                sigs, log);
    }
  }
}
