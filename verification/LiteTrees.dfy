/** packages/pqc/src/slh-dsa-ref.ts: WOTS+ keys, XMSS trees and their signatures. */
module LiteTrees {
  import opened ByteStrings
  import opened Words
  import opened Bits
  import opened Results
  import opened Tweaks
  import opened Chains
  import opened Merkle
  import opened Schemes
  import opened Walks
  import opened Digits
  import opened Correctness
  import opened LiteSpec
  import opened LiteLevels
  import WotsRef

  // ---- addresses ----------------------------------------------------------------------------------

  /** buildAdrs with the options this module gives; one left out there is zero here. */
  method BuildAdrs(layer: nat, tree: nat, typ: nat, keypair: nat) returns (buf: array<byte>)
    ensures fresh(buf) && buf[..] == WordBytes(AdrsWords(layer, tree, typ, keypair, 0, 0))
  {
    buf := WotsRef.BuildAdrs(WotsRef.AdrsOptions(Some(layer), Some(tree), Some(typ), Some(keypair), None, None));
  }

  /** The address of a key before chain and position are written. */
  function KeyBase(key: Key): (b: Bytes)
    ensures |b| == 32
  {
    WordBytes(AdrsWords(key.layer, key.tree, 0, key.leaf, 0, 0))
  }

  lemma {:induction false} ChainAdrsMatch(key: Key, c: nat, j: nat)
    ensures WotsRef.BaseEnc(KeyBase(key))(WotsHash(WotsRef.BASE_KEY, c, j)) == LiteEnc()(WotsHash(key, c, j))
  {
    var ws: seq<nat> := AdrsWords(key.layer, key.tree, 0, key.leaf, 0, 0);
    PutWord(ws, 4, 0, 16);
    PutWord(ws[4 := 0], 6, c, 24);
    PutWord(ws[4 := 0][6 := c], 7, j, 28);
    assert ws[4 := 0][6 := c][7 := j] == AdrsWords(key.layer, key.tree, 0, key.leaf, c, j);
  }

  // ---- chains -------------------------------------------------------------------------------------

  /** chainStep over the address of a key. */
  method ChainStep(sha: Hash, seed: Bytes, baseAdrs: Bytes, ghost key: Key, c: nat, start: nat, steps: nat,
                   value: Bytes)
    returns (v: Bytes, ghost log: seq<Sent>)
    requires baseAdrs == KeyBase(key)
    ensures v == Chain(LiteScheme(sha, seed).th, key, c, start, steps, value)
    ensures log == Encoded(LiteEnc(), ChainCalls(LiteScheme(sha, seed).th, key, c, start, steps, value))
  {
    v, log := WotsRef.ChainStep(sha, seed, baseAdrs, c, start, steps, value);
    ChainsMatch(sha, seed, key, c, start, steps, value);
  }

  lemma {:induction false} ChainsMatch(sha: Hash, seed: Bytes, key: Key, c: nat, start: nat, steps: nat, value: Bytes)
    ensures Chain(Keyed(sha, seed, WotsRef.BaseEnc(KeyBase(key))), WotsRef.BASE_KEY, c, start, steps, value)
         == Chain(LiteScheme(sha, seed).th, key, c, start, steps, value)
    ensures Encoded(WotsRef.BaseEnc(KeyBase(key)),
                    ChainCalls(Keyed(sha, seed, WotsRef.BaseEnc(KeyBase(key))), WotsRef.BASE_KEY, c, start, steps,
                               value))
         == Encoded(LiteEnc(), ChainCalls(LiteScheme(sha, seed).th, key, c, start, steps, value))
  {
    var enc, enc' := WotsRef.BaseEnc(KeyBase(key)), LiteEnc();
    forall j: nat
      ensures enc(WotsHash(WotsRef.BASE_KEY, c, j)) == enc'(WotsHash(key, c, j))
    {
      ChainAdrsMatch(key, c, j);
    }
    ChainCongruence(Keyed(sha, seed, enc), WotsRef.BASE_KEY, enc, LiteScheme(sha, seed).th, key, enc', c, start, steps,
                    value);
  }

  method WotsSk(sha: Hash, skSeed: Bytes, keyPair: nat, chain: nat) returns (sk: Digest)
    ensures sk == WotsSecret(sha, skSeed, keyPair, chain)
  {
    var counter := ZeroBuffer(8);
    ZeroWords(2);
    ghost var ws: seq<nat> := seq(2, _ => 0);
    ws := WriteWord(counter, ws, 0, keyPair);
    ws := WriteWord(counter, ws, 1, chain);
    assert ws == [keyPair, chain];
    sk := sha(skSeed + WotsRef.WOTS_SK_TAG + counter[..]);
  }

  lemma {:induction false} PublicSizes(sha: Hash, seed: Bytes, skSeed: Bytes, key: Key)
    ensures Sized(PublicTops(LiteScheme(sha, seed), LiteSecrets(sha, skSeed), key), 32)
  {
    LiteSchemeValid(sha, seed);
    LiteSecretsOk(sha, seed, skSeed);
    TopsSizedPublic(LiteScheme(sha, seed), LiteSecrets(sha, skSeed), key);
  }

  lemma {:induction false} SignedSizes(sha: Hash, seed: Bytes, skSeed: Bytes, key: Key, ds: seq<nat>)
    requires DigitsOk(LiteScheme(sha, seed), ds)
    ensures Sized(SignedChunks(LiteScheme(sha, seed), LiteSecrets(sha, skSeed), key, ds), 32)
  {
    LiteSchemeValid(sha, seed);
    LiteSecretsOk(sha, seed, skSeed);
    SignedSized(LiteScheme(sha, seed), LiteSecrets(sha, skSeed), key, ds);
  }

  method WotsPk(sha: Hash, seed: Bytes, skSeed: Bytes, keyPair: nat, baseAdrs: Bytes, ghost key: Key)
    returns (pk: Bytes, ghost log: seq<Sent>)
    requires baseAdrs == KeyBase(key) && keyPair == key.leaf
    ensures pk == Flatten(PublicTops(LiteScheme(sha, seed), LiteSecrets(sha, skSeed), key))
    ensures log == Encoded(LiteEnc(), PublicCalls(LiteScheme(sha, seed), LiteSecrets(sha, skSeed), key, 67))
  {
    ghost var s, secrets := LiteScheme(sha, seed), LiteSecrets(sha, skSeed);
    ghost var tops := PublicTops(s, secrets, key);
    PublicSizes(sha, seed, skSeed, key);
    log := [];
    var out := ZeroBuffer(2144);
    FilledToStart(2144, tops);
    for i := 0 to 67
      invariant FilledTo(out[..], 2144, tops, i)
      invariant log == Encoded(LiteEnc(), PublicCalls(s, secrets, key, i))
    {
      var sk := WotsSk(sha, skSeed, keyPair, i);
      var top, calls := ChainStep(sha, seed, baseAdrs, key, i, 0, 15, sk);
      PublicLogStep(s, LiteEnc(), secrets, key, i, log, calls);
      log := log + calls;
      assert tops[i] == top;
      SetField(out, i, 32, top, tops);
    }
    FilledToEnd(out[..], 2144, tops, 32);
    pk := out[..];
  }

  method WotsSign(sha: Hash, seed: Bytes, skSeed: Bytes, keyPair: nat, baseAdrs: Bytes, msgDigest: Bytes,
                  ghost key: Key)
    returns (sig: Bytes, ghost log: seq<Sent>)
    requires baseAdrs == KeyBase(key) && keyPair == key.leaf && |msgDigest| == 32
    ensures DigitsOk(LiteScheme(sha, seed), ChainDigits(msgDigest))
    ensures sig == Flatten(SignedChunks(LiteScheme(sha, seed), LiteSecrets(sha, skSeed), key, ChainDigits(msgDigest)))
    ensures log
            == Encoded(LiteEnc(),
                       SignedCalls(LiteScheme(sha, seed), LiteSecrets(sha, skSeed), key, ChainDigits(msgDigest), 67))
  {
    var decoded := WotsRef.MsgToChains(msgDigest);
    var chains := decoded.value;
    ghost var s, secrets := LiteScheme(sha, seed), LiteSecrets(sha, skSeed);
    LiteSchemeValid(sha, seed);
    ghost var chunks := SignedChunks(s, secrets, key, chains);
    SignedSizes(sha, seed, skSeed, key, chains);
    log := [];
    var out := ZeroBuffer(2144);
    FilledToStart(2144, chunks);
    for i := 0 to 67
      invariant FilledTo(out[..], 2144, chunks, i)
      invariant log == Encoded(LiteEnc(), SignedCalls(s, secrets, key, chains, i))
    {
      var sk := WotsSk(sha, skSeed, keyPair, i);
      var v, calls := ChainStep(sha, seed, baseAdrs, key, i, 0, chains[i], sk);
      SignedLogStep(s, LiteEnc(), secrets, key, chains, i, log, calls);
      log := log + calls;
      assert chunks[i] == v;
      SetField(out, i, 32, v, chunks);
    }
    FilledToEnd(out[..], 2144, chunks, 32);
    sig := out[..];
  }

  /** One round of wotsPkFromSig: chunk i of the signature walked to the top of its chain. */
  method CompleteChain(sha: Hash, seed: Bytes, baseAdrs: Bytes, ghost key: Key, ghost ds: seq<nat>, sig: Bytes, i: nat,
                       start: nat, steps: nat)
    returns (v: Bytes, ghost calls: seq<Sent>)
    requires baseAdrs == KeyBase(key) && DigitsOk(LiteScheme(sha, seed), ds) && i < 67 && start == ds[i]
    requires steps == 15 - start
    ensures |v| <= 32 && PadTo(v, 32) == RecoveredTops(LiteScheme(sha, seed), key, ds, Chunks(sig, 32, 67))[i]
    ensures calls
            == Encoded(LiteEnc(), ChainCalls(LiteScheme(sha, seed).th, key, i, start, steps, Chunks(sig, 32, 67)[i]))
  {
    var lo, hi := i * 32, (i + 1) * 32;
    var sigI := Slice(sig, lo, hi);
    ChunkIsSlice(sig, 32, 67, i, lo, hi);
    v, calls := ChainStep(sha, seed, baseAdrs, key, i, start, steps, sigI);
    LiteSchemeValid(sha, seed);
    TopPadded(LiteScheme(sha, seed), key, ds, Chunks(sig, 32, 67), i, start, steps);
  }

  method WotsPkFromSig(sha: Hash, seed: Bytes, baseAdrs: Bytes, msgDigest: Bytes, sig: Bytes, ghost key: Key)
    returns (pk: Bytes, ghost log: seq<Sent>)
    requires baseAdrs == KeyBase(key) && |msgDigest| == 32
    ensures DigitsOk(LiteScheme(sha, seed), ChainDigits(msgDigest))
    ensures pk == Flatten(RecoveredTops(LiteScheme(sha, seed), key, ChainDigits(msgDigest), Chunks(sig, 32, 67)))
    ensures log
            == Encoded(LiteEnc(),
                       RecoveredCalls(LiteScheme(sha, seed), key, ChainDigits(msgDigest), Chunks(sig, 32, 67), 67))
  {
    var decoded := WotsRef.MsgToChains(msgDigest);
    var chains := decoded.value;
    ghost var s, parsed := LiteScheme(sha, seed), Chunks(sig, 32, 67);
    LiteSchemeValid(sha, seed);
    ghost var tops := RecoveredTops(s, key, chains, parsed);
    RecoveredSized(s, key, chains, sig);
    log := [];
    var out := ZeroBuffer(2144);
    FilledToStart(2144, tops);
    for i := 0 to 67
      invariant FilledTo(out[..], 2144, tops, i)
      invariant log == Encoded(LiteEnc(), RecoveredCalls(s, key, chains, parsed, i))
    {
      var start := chains[i];
      var steps := 16 - 1 - start;
      var v, calls := CompleteChain(sha, seed, baseAdrs, key, chains, sig, i, start, steps);
      RecoveredLogStep(s, LiteEnc(), key, chains, parsed, i, log, start, steps, calls);
      log := log + calls;
      SetField(out, i, 32, v, tops);
    }
    FilledToEnd(out[..], 2144, tops, 32);
    pk := out[..];
  }

  // ---- trees --------------------------------------------------------------------------------------

  method XmssLeafFromKeypair(sha: Hash, seed: Bytes, skSeed: Bytes, layer: nat, treeIdx: nat, keyPair: nat)
    returns (leaf: Bytes, ghost log: seq<Sent>)
    ensures |leaf| == 32 && leaf == XmssLeaves(LiteScheme(sha, seed), LiteSecrets(sha, skSeed), layer, treeIdx)(keyPair)
    ensures log
            == Encoded(LiteEnc(),
                       LeafCalls(LiteScheme(sha, seed), LiteSecrets(sha, skSeed), Key(layer, treeIdx, keyPair)))
  {
    ghost var key := Key(layer, treeIdx, keyPair);
    ghost var s, secrets := LiteScheme(sha, seed), LiteSecrets(sha, skSeed);
    var baseAdrs := BuildAdrs(layer, treeIdx, 0, keyPair);
    var wpk, calls := WotsPk(sha, seed, skSeed, keyPair, baseAdrs[..], key);
    var tAdrs := BuildAdrs(layer, treeIdx, 1, keyPair);
    EncodedOne(LiteEnc(), PublicCalls(s, secrets, key, 67), Address.WotsPk(key), wpk);
    log := calls + [Sent(tAdrs[..], wpk)];
    leaf := sha(seed + tAdrs[..] + wpk);
    HashedAt(sha, seed, Address.WotsPk(key), tAdrs[..], wpk);
  }

  lemma {:induction false} LeavesLogStep(s: Scheme, sk: Secrets, layer: nat, tree: nat, i: nat, log: seq<Sent>,
                                         more: seq<Sent>)
    requires s.w > 0 && log == Encoded(LiteEnc(), LeavesCalls(s, sk, layer, tree, i))
    requires more == Encoded(LiteEnc(), LeafCalls(s, sk, Key(layer, tree, i)))
    ensures log + more == Encoded(LiteEnc(), LeavesCalls(s, sk, layer, tree, i + 1))
  {
    EncodedAppend(LiteEnc(), LeavesCalls(s, sk, layer, tree, i), LeafCalls(s, sk, Key(layer, tree, i)));
  }

  /** The first loop of xmssRoot and xmssAuthPath: all leaves of one tree. */
  method AllLeaves(sha: Hash, seed: Bytes, skSeed: Bytes, layer: nat, treeIdx: nat)
    returns (nodes: seq<Bytes>, ghost log: seq<Sent>)
    ensures nodes
            == Level(LiteScheme(sha, seed).th, TreeAdr(layer, treeIdx),
                     XmssLeaves(LiteScheme(sha, seed), LiteSecrets(sha, skSeed), layer, treeIdx), 0, 0, 16)
    ensures log == Encoded(LiteEnc(), LeavesCalls(LiteScheme(sha, seed), LiteSecrets(sha, skSeed), layer, treeIdx, 16))
  {
    ghost var s, secrets := LiteScheme(sha, seed), LiteSecrets(sha, skSeed);
    ghost var adr, leaves := TreeAdr(layer, treeIdx), XmssLeaves(s, secrets, layer, treeIdx);
    nodes, log := [], [];
    for i := 0 to 16
      invariant nodes == Level(s.th, adr, leaves, 0, 0, i)
      invariant log == Encoded(LiteEnc(), LeavesCalls(s, secrets, layer, treeIdx, i))
    {
      var leaf, calls := XmssLeafFromKeypair(sha, seed, skSeed, layer, treeIdx, i);
      LeafLevelStep(s.th, adr, leaves, 0, i, i, nodes);
      LeavesLogStep(s, secrets, layer, treeIdx, i, log, calls);
      nodes := nodes + [leaf];
      log := log + calls;
    }
  }

  lemma {:induction false} TreeWords(layer: nat, tree: nat)
    ensures NodeWords(AdrsWords(layer, tree, 2, 0, 0, 0), TreeAdr(layer, tree))
  {
    forall h: nat, i: nat
      ensures LiteWords(TreeAdr(layer, tree)(h, i)) == AdrsWords(layer, tree, 2, 0, 0, 0)[5 := h][6 := i]
    {
    }
  }

  /** The leaves as the level loops start from them. */
  lemma {:induction false} LeavesAtHand(sha: Hash, seed: Bytes, skSeed: Bytes, layer: nat, tree: nat,
                                        nodes: seq<Bytes>)
    requires nodes == Level(LiteScheme(sha, seed).th, TreeAdr(layer, tree),
                            XmssLeaves(LiteScheme(sha, seed), LiteSecrets(sha, skSeed), layer, tree), 0, 0, 16)
    ensures Collapsed(LiteScheme(sha, seed).th, LiteEnc(), TreeAdr(layer, tree),
                      XmssLeaves(LiteScheme(sha, seed), LiteSecrets(sha, skSeed), layer, tree), 0, 4, 0, nodes, [])
  {
    assert Pow2(4) == 16;
  }

  lemma {:induction false} TreeLog(sha: Hash, seed: Bytes, skSeed: Bytes, layer: nat, tree: nat, built: seq<Sent>,
                                   levels: seq<Sent>)
    requires built == Encoded(LiteEnc(), LeavesCalls(LiteScheme(sha, seed), LiteSecrets(sha, skSeed), layer, tree, 16))
    requires levels
             == Encoded(LiteEnc(),
                        TreeCalls(LiteScheme(sha, seed).th, TreeAdr(layer, tree),
                                  XmssLeaves(LiteScheme(sha, seed), LiteSecrets(sha, skSeed), layer, tree), 0, 4, 4))
    ensures built + levels
            == Encoded(LiteEnc(), XmssTreeCalls(LiteScheme(sha, seed), LiteSecrets(sha, skSeed), layer, tree))
  {
    var s, secrets := LiteScheme(sha, seed), LiteSecrets(sha, skSeed);
    assert Pow2(4) == 16;
    EncodedAppend(LiteEnc(), LeavesCalls(s, secrets, layer, tree, 16),
                  TreeCalls(s.th, TreeAdr(layer, tree), XmssLeaves(s, secrets, layer, tree), 0, 4, 4));
  }

  method XmssRootOf(sha: Hash, seed: Bytes, skSeed: Bytes, layer: nat, treeIdx: nat)
    returns (root: Bytes, ghost log: seq<Sent>)
    ensures root == XmssRoot(LiteScheme(sha, seed), LiteSecrets(sha, skSeed), layer, treeIdx)
    ensures log == Encoded(LiteEnc(), XmssTreeCalls(LiteScheme(sha, seed), LiteSecrets(sha, skSeed), layer, treeIdx))
  {
    ghost var s, secrets := LiteScheme(sha, seed), LiteSecrets(sha, skSeed);
    var nodes, built := AllLeaves(sha, seed, skSeed, layer, treeIdx);
    LeavesAtHand(sha, seed, skSeed, layer, treeIdx, nodes);
    var adrs := BuildAdrs(layer, treeIdx, 2, 0);
    TreeWords(layer, treeIdx);
    ghost var levels;
    root, levels := CollectRoot(sha, seed, adrs, 0, 4, nodes, AdrsWords(layer, treeIdx, 2, 0, 0, 0),
                                TreeAdr(layer, treeIdx), XmssLeaves(s, secrets, layer, treeIdx));
    TreeLog(sha, seed, skSeed, layer, treeIdx, built, levels);
    log := built + levels;
  }

  /** The authentication path of a leaf. */
  function Siblings(sha: Hash, seed: Bytes, skSeed: Bytes, layer: nat, tree: nat, leafIdx: nat): (path: seq<Bytes>)
    ensures |path| == 4
  {
    var s := LiteScheme(sha, seed);
    AuthPath(s.th, TreeAdr(layer, tree), XmssLeaves(s, LiteSecrets(sha, skSeed), layer, tree), leafIdx, 4)
  }

  lemma {:induction false} PathSizes(sha: Hash, seed: Bytes, skSeed: Bytes, layer: nat, tree: nat, leafIdx: nat)
    ensures Sized(Siblings(sha, seed, skSeed, layer, tree, leafIdx), 32)
  {
    var s := LiteScheme(sha, seed);
    LiteSchemeValid(sha, seed);
    AuthPathSized(s.th, 32, TreeAdr(layer, tree), XmssLeaves(s, LiteSecrets(sha, skSeed), layer, tree), leafIdx, 4);
  }

  method XmssAuthPath(sha: Hash, seed: Bytes, skSeed: Bytes, layer: nat, treeIdx: nat, leafIdx: nat)
    returns (path: Bytes, ghost log: seq<Sent>)
    requires leafIdx < 16
    ensures path == Flatten(Siblings(sha, seed, skSeed, layer, treeIdx, leafIdx))
    ensures log == Encoded(LiteEnc(), XmssTreeCalls(LiteScheme(sha, seed), LiteSecrets(sha, skSeed), layer, treeIdx))
  {
    ghost var s, secrets := LiteScheme(sha, seed), LiteSecrets(sha, skSeed);
    var nodes, built := AllLeaves(sha, seed, skSeed, layer, treeIdx);
    LeavesAtHand(sha, seed, skSeed, layer, treeIdx, nodes);
    PathSizes(sha, seed, skSeed, layer, treeIdx, leafIdx);
    var adrs := BuildAdrs(layer, treeIdx, 2, 0);
    TreeWords(layer, treeIdx);
    assert Pow2(4) == 16;
    ghost var levels;
    path, levels := CollectPath(sha, seed, adrs, 0, 4, leafIdx, nodes, leafIdx, AdrsWords(layer, treeIdx, 2, 0, 0, 0),
                                TreeAdr(layer, treeIdx), XmssLeaves(s, secrets, layer, treeIdx));
    TreeLog(sha, seed, skSeed, layer, treeIdx, built, levels);
    log := built + levels;
  }
}
