/** packages/pqc/src/slh-dsa-ref.ts: the FORS forest. */
module LiteFors {
  import opened ByteStrings
  import opened Words
  import opened Bits
  import opened Tweaks
  import opened Merkle
  import opened Schemes
  import opened Correctness
  import opened Walks
  import opened Layout
  import opened LiteSpec
  import opened LiteLevels
  import Trees = LiteTrees

  method ForsSk(sha: Hash, skSeed: Bytes, treeIdx: nat, treeNum: nat, leafNum: nat) returns (sk: Digest)
    ensures sk == ForsSecret(sha, skSeed, treeIdx, treeNum, leafNum)
  {
    var counter := ZeroBuffer(16);
    ZeroWords(4);
    ghost var ws: seq<nat> := seq(4, _ => 0);
    var hi := HighWord(treeIdx);
    var lo := LowWord(treeIdx);
    ws := WriteWord(counter, ws, 0, hi);
    ws := WriteWord(counter, ws, 1, lo);
    ws := WriteWord(counter, ws, 2, treeNum);
    ws := WriteWord(counter, ws, 3, leafNum);
    assert ws == [hi, lo, treeNum, leafNum];
    sk := sha(skSeed + FORS_SK_TAG + counter[..]);
  }

  /** The address buffers of a forest: only height and index change. */
  ghost predicate ForsBuffer(ws: seq<nat>, tree: nat) {
    |ws| == 8 && ws == AdrsWords(0, tree, 3, ws[5], ws[6], 0)
  }

  lemma {:induction false} ForestWords(tree: nat)
    ensures NodeWords(AdrsWords(0, tree, 3, 0, 0, 0), ForsAdr(Key(0, tree, 0)))
  {
    forall h: nat, i: nat
      ensures LiteWords(ForsAdr(Key(0, tree, 0))(h, i)) == AdrsWords(0, tree, 3, 0, 0, 0)[5 := h][6 := i]
    {
    }
  }

  /** The leaf values of tree t and the calls that make them. */
  ghost predicate LeavesMade(sha: Hash, seed: Bytes, skSeed: Bytes, tree: nat, lo: nat, i: nat, nodes: seq<Bytes>,
                             log: seq<Sent>) {
    var s, secrets, key := LiteScheme(sha, seed), LiteSecrets(sha, skSeed), Key(0, tree, 0);
    && nodes == Level(s.th, ForsAdr(key), ForsLeaves(s, secrets, key), 0, lo, i)
    && log == Encoded(LiteEnc(), ForsLeavesCalls(s, secrets, key, lo, i))
  }

  lemma {:induction false} LeafMade(sha: Hash, seed: Bytes, skSeed: Bytes, tree: nat, lo: nat, i: nat, j: nat,
                                    nodes: seq<Bytes>, log: seq<Sent>, sk: Bytes, adrs: Bytes)
    requires LeavesMade(sha, seed, skSeed, tree, lo, i, nodes, log) && j == lo + i
    requires sk == LiteSecrets(sha, skSeed).fors(Key(0, tree, 0), j)
    requires adrs == LiteEnc()(ForsNode(Key(0, tree, 0), 0, j))
    ensures LeavesMade(sha, seed, skSeed, tree, lo, i + 1, nodes + [sha(seed + adrs + sk)], log + [Sent(adrs, sk)])
  {
    var s, secrets, key := LiteScheme(sha, seed), LiteSecrets(sha, skSeed), Key(0, tree, 0);
    LeafLevelStep(s.th, ForsAdr(key), ForsLeaves(s, secrets, key), lo, i, j, nodes);
    EncodedOne(LiteEnc(), ForsLeavesCalls(s, secrets, key, lo, i), ForsNode(key, 0, j), sk);
  }

  /** The first loop of forsLeavesAndAuth. */
  method AllForsLeaves(sha: Hash, seed: Bytes, skSeed: Bytes, treeIdx: nat, treeNum: nat, lo: nat)
    returns (nodes: seq<Bytes>, ghost log: seq<Sent>)
    requires lo == treeNum * 8
    ensures LeavesMade(sha, seed, skSeed, treeIdx, lo, 8, nodes, log)
  {
    var adrsF := Trees.BuildAdrs(0, treeIdx, 3, 0);
    ghost var ws := AdrsWords(0, treeIdx, 3, 0, 0, 0);
    nodes, log := [], [];
    for i := 0 to 8
      invariant ForsBuffer(ws, treeIdx) && ws[5] == 0 && adrsF[..] == WordBytes(ws)
      invariant LeavesMade(sha, seed, skSeed, treeIdx, lo, i, nodes, log)
    {
      var sk := ForsSk(sha, skSeed, treeIdx, treeNum, i);
      var j := lo + i;
      ws := WriteWord(adrsF, ws, 6, j);
      assert j / 8 == treeNum && j % 8 == i;
      assert ws == LiteWords(ForsNode(Key(0, treeIdx, 0), 0, j));
      LeafMade(sha, seed, skSeed, treeIdx, lo, i, j, nodes, log, sk, adrsF[..]);
      nodes := nodes + [sha(seed + adrsF[..] + sk)];
      log := log + [Sent(adrsF[..], sk)];
    }
  }

  /** The authentication path of forest leaf g. */
  function Siblings(sha: Hash, seed: Bytes, skSeed: Bytes, tree: nat, g: nat): (path: seq<Bytes>)
    ensures |path| == 3
  {
    ForsSignTree(LiteScheme(sha, seed), LiteSecrets(sha, skSeed), Key(0, tree, 0), g).auth
  }

  lemma {:induction false} PathSizes(sha: Hash, seed: Bytes, skSeed: Bytes, tree: nat, g: nat)
    ensures Sized(Siblings(sha, seed, skSeed, tree, g), 32)
  {
    LiteSchemeValid(sha, seed);
    LiteSecretsOk(sha, seed, skSeed);
    ForsSignTreeSized(LiteScheme(sha, seed), LiteSecrets(sha, skSeed), Key(0, tree, 0), g);
  }

  method ForsLeavesAndAuth(sha: Hash, seed: Bytes, skSeed: Bytes, treeIdx: nat, treeNum: nat, leafNum: nat,
                           ghost g: nat)
    returns (secret: Digest, path: Bytes, ghost log: seq<Sent>)
    requires leafNum < 8 && g == treeNum * 8 + leafNum
    ensures secret == ForsSignTree(LiteScheme(sha, seed), LiteSecrets(sha, skSeed), Key(0, treeIdx, 0), g).secret
    ensures path == Flatten(Siblings(sha, seed, skSeed, treeIdx, g)) && |path| == 96
    ensures log
            == Encoded(LiteEnc(),
                       ForsTreeCalls(LiteScheme(sha, seed), LiteSecrets(sha, skSeed), Key(0, treeIdx, 0), treeNum))
  {
    ghost var s, secrets, key := LiteScheme(sha, seed), LiteSecrets(sha, skSeed), Key(0, treeIdx, 0);
    var lo := treeNum * 8;
    var nodes, made := AllForsLeaves(sha, seed, skSeed, treeIdx, treeNum, lo);
    LeavesAtHand(sha, seed, skSeed, treeIdx, treeNum, lo, nodes, made);
    PathSizes(sha, seed, skSeed, treeIdx, g);
    var adrsTree := Trees.BuildAdrs(0, treeIdx, 3, 0);
    ForestWords(treeIdx);
    assert Pow2(3) == 8;
    ghost var levels;
    path, levels := CollectPath(sha, seed, adrsTree, treeNum, 3, leafNum, nodes, g, AdrsWords(0, treeIdx, 3, 0, 0, 0),
                                ForsAdr(key), ForsLeaves(s, secrets, key));
    FlattenLength(Siblings(sha, seed, skSeed, treeIdx, g), 32);
    secret := ForsSk(sha, skSeed, treeIdx, treeNum, leafNum);
    TreeLog(sha, seed, skSeed, treeIdx, treeNum, lo, made, levels);
    log := made + levels;
    assert g / 8 == treeNum && g % 8 == leafNum;
  }

  /** The leaves as the level loop starts from them. */
  lemma {:induction false} LeavesAtHand(sha: Hash, seed: Bytes, skSeed: Bytes, tree: nat, t: nat, lo: nat,
                                        nodes: seq<Bytes>, made: seq<Sent>)
    requires lo == t * 8 && LeavesMade(sha, seed, skSeed, tree, lo, 8, nodes, made)
    ensures Collapsed(LiteScheme(sha, seed).th, LiteEnc(), ForsAdr(Key(0, tree, 0)),
                      ForsLeaves(LiteScheme(sha, seed), LiteSecrets(sha, skSeed), Key(0, tree, 0)), t, 3, 0, nodes, [])
  {
    assert Pow2(3) == 8;
  }

  lemma {:induction false} TreeLog(sha: Hash, seed: Bytes, skSeed: Bytes, tree: nat, t: nat, lo: nat, made: seq<Sent>,
                                   levels: seq<Sent>)
    requires lo == t * 8
    requires made
             == Encoded(LiteEnc(),
                        ForsLeavesCalls(LiteScheme(sha, seed), LiteSecrets(sha, skSeed), Key(0, tree, 0), lo, 8))
    requires levels
             == Encoded(LiteEnc(),
                        TreeCalls(LiteScheme(sha, seed).th, ForsAdr(Key(0, tree, 0)),
                                  ForsLeaves(LiteScheme(sha, seed), LiteSecrets(sha, skSeed), Key(0, tree, 0)), t, 3,
                                  3))
    ensures made + levels
            == Encoded(LiteEnc(), ForsTreeCalls(LiteScheme(sha, seed), LiteSecrets(sha, skSeed), Key(0, tree, 0), t))
  {
    var s, secrets, key := LiteScheme(sha, seed), LiteSecrets(sha, skSeed), Key(0, tree, 0);
    assert Pow2(3) == 8;
    EncodedAppend(LiteEnc(), ForsLeavesCalls(s, secrets, key, lo, 8),
                  TreeCalls(s.th, ForsAdr(key), ForsLeaves(s, secrets, key), t, 3, 3));
  }

  // ---- the forest ---------------------------------------------------------------------------------

  lemma {:induction false} PartsSized(sha: Hash, seed: Bytes, skSeed: Bytes, tree: nat, indices: seq<nat>)
    requires |indices| == 4
    ensures Sized(FlatParts(ForsSign(LiteScheme(sha, seed), LiteSecrets(sha, skSeed), Key(0, tree, 0), indices)), 128)
  {
    var s, secrets, key := LiteScheme(sha, seed), LiteSecrets(sha, skSeed), Key(0, tree, 0);
    forall t | 0 <= t < 4
      ensures |FlatParts(ForsSign(s, secrets, key, indices))[t]| == 128
    {
      var g := ForsLeaf(s, t, indices[t]);
      PathSizes(sha, seed, skSeed, tree, g);
      FlattenLength(ForsSignTree(s, secrets, key, g).auth, 32);
    }
  }

  lemma {:induction false} PartIs(sha: Hash, seed: Bytes, skSeed: Bytes, tree: nat, indices: seq<nat>, t: nat, g: nat,
                                  chunk: Bytes)
    requires |indices| == 4 && t < 4 && g == t * 8 + indices[t]
    requires chunk == FlatPart(ForsSignTree(LiteScheme(sha, seed), LiteSecrets(sha, skSeed), Key(0, tree, 0), g))
    ensures chunk == FlatParts(ForsSign(LiteScheme(sha, seed), LiteSecrets(sha, skSeed), Key(0, tree, 0), indices))[t]
  {
    assert Pow2(3) == 8;
  }

  lemma {:induction false} SignLogStep(s: Scheme, sk: Secrets, key: Key, t: nat, log: seq<Sent>, more: seq<Sent>)
    requires log == Encoded(LiteEnc(), ForsSignCalls(s, sk, key, t))
    requires more == Encoded(LiteEnc(), ForsTreeCalls(s, sk, key, t))
    ensures log + more == Encoded(LiteEnc(), ForsSignCalls(s, sk, key, t + 1))
  {
    EncodedAppend(LiteEnc(), ForsSignCalls(s, sk, key, t), ForsTreeCalls(s, sk, key, t));
  }

  method ForsSignAll(sha: Hash, seed: Bytes, skSeed: Bytes, treeIdx: nat, indices: seq<nat>)
    returns (sig: Bytes, ghost log: seq<Sent>)
    requires |indices| == 4 && forall t :: 0 <= t < 4 ==> indices[t] < 8
    ensures sig
            == Flatten(FlatParts(ForsSign(LiteScheme(sha, seed), LiteSecrets(sha, skSeed), Key(0, treeIdx, 0),
                                          indices)))
    ensures log
            == Encoded(LiteEnc(), ForsSignCalls(LiteScheme(sha, seed), LiteSecrets(sha, skSeed), Key(0, treeIdx, 0), 4))
  {
    ghost var s, secrets, key := LiteScheme(sha, seed), LiteSecrets(sha, skSeed), Key(0, treeIdx, 0);
    ghost var parts := FlatParts(ForsSign(s, secrets, key, indices));
    PartsSized(sha, seed, skSeed, treeIdx, indices);
    var out := ZeroBuffer(512);
    FilledToStart(512, parts);
    log := [];
    for i := 0 to 4
      invariant FilledTo(out[..], 512, parts, i)
      invariant log == Encoded(LiteEnc(), ForsSignCalls(s, secrets, key, i))
    {
      ghost var g: nat := i * 8 + indices[i];
      var secret, auth, calls := ForsLeavesAndAuth(sha, seed, skSeed, treeIdx, i, indices[i], g);
      PartIs(sha, seed, skSeed, treeIdx, indices, i, g, secret + auth);
      SignLogStep(s, secrets, key, i, log, calls);
      log := log + calls;
      SetField(out, i, 128, secret + auth, parts);
    }
    FilledToEnd(out[..], 512, parts, 128);
    sig := out[..];
  }

  // ---- recovering the root ------------------------------------------------------------------------

  /** One round of the inner loop of forsRootFromSig: height and parent index are written, the pair is hashed. */
  method ClimbRound(sha: Hash, seed: Bytes, treeIdx: nat, i: nat, ghost leafIdx: nat, adrsTree: array<byte>,
                    auth: Bytes, h: nat, idx: nat, node: Bytes, ghost ws: seq<nat>, ghost g: nat, ghost part: ForsPart,
                    ghost log: seq<Sent>)
    returns (node': Bytes, ghost ws': seq<nat>, ghost log': seq<Sent>)
    requires leafIdx < 8 && g == i * 8 + leafIdx && h < 3 && idx == Shr(leafIdx, h) && part.auth == Chunks(auth, 32, 3)
    requires ForsBuffer(ws, treeIdx) && adrsTree[..] == WordBytes(ws)
    requires Climbed(LiteScheme(sha, seed), LiteEnc(), Key(0, treeIdx, 0), g, part, h, node, log)
    modifies adrsTree
    ensures ForsBuffer(ws', treeIdx) && adrsTree[..] == WordBytes(ws')
    ensures Climbed(LiteScheme(sha, seed), LiteEnc(), Key(0, treeIdx, 0), g, part, h + 1, node', log')
  {
    var height := h + 1;
    assert Pow2(3) == 8;
    var parent := ParentWord(i, 3, height, idx, leafIdx, g, h);
    ws' := WriteWord(adrsTree, ws, 5, height);
    ws' := WriteWord(adrsTree, ws', 6, parent);
    assert ws' == LiteWords(ForsNode(Key(0, treeIdx, 0), height, parent));
    var lo, hi := h * 32, height * 32;
    var sib := Slice(auth, lo, hi);
    ChunkIsSlice(auth, 32, 3, h, lo, hi);
    var merged := if idx % 2 == 0 then node + sib else sib + node;
    node' := sha(seed + adrsTree[..] + merged);
    HashedAt(sha, seed, ForsNode(Key(0, treeIdx, 0), height, parent), adrsTree[..], merged);
    ClimbedOne(LiteScheme(sha, seed), LiteEnc(), Key(0, treeIdx, 0), g, part, h, height, parent, node, merged, log,
               adrsTree[..], node');
    log' := log + [Sent(adrsTree[..], merged)];
  }

  /** The two address buffers of forsRootFromSig between rounds. */
  ghost predicate Buffers(leafBytes: Bytes, treeBytes: Bytes, wsL: seq<nat>, wsT: seq<nat>, tree: nat) {
    && ForsBuffer(wsL, tree) && wsL[5] == 0 && leafBytes == WordBytes(wsL)
    && ForsBuffer(wsT, tree) && treeBytes == WordBytes(wsT)
  }

  /** One tree of forsRootFromSig: the leaf from the revealed secret, then the walk up its path. */
  method TreeFromSig(sha: Hash, seed: Bytes, treeIdx: nat, i: nat, leafIdx: nat, adrsLeaf: array<byte>,
                     adrsTree: array<byte>, secret: Bytes, auth: Bytes, ghost wsL: seq<nat>, ghost wsT: seq<nat>,
                     ghost g: nat, ghost part: ForsPart)
    returns (node: Bytes, ghost log: seq<Sent>, ghost wsL': seq<nat>, ghost wsT': seq<nat>)
    requires adrsLeaf != adrsTree && leafIdx < 8 && g == i * 8 + leafIdx
    requires part == ForsPart(secret, Chunks(auth, 32, 3))
    requires Buffers(adrsLeaf[..], adrsTree[..], wsL, wsT, treeIdx)
    modifies adrsLeaf, adrsTree
    ensures Buffers(adrsLeaf[..], adrsTree[..], wsL', wsT', treeIdx)
    ensures node == ForsClimb(LiteScheme(sha, seed), Key(0, treeIdx, 0), g, part)
    ensures log == Encoded(LiteEnc(), ForsClimbCalls(LiteScheme(sha, seed), Key(0, treeIdx, 0), g, part))
  {
    ghost var s, key := LiteScheme(sha, seed), Key(0, treeIdx, 0);
    var leaf := i * 8 + leafIdx;
    wsL' := WriteWord(adrsLeaf, wsL, 6, leaf);
    assert wsL' == LiteWords(ForsNode(key, 0, g));
    node := sha(seed + adrsLeaf[..] + secret);
    HashedAt(sha, seed, ForsNode(key, 0, g), adrsLeaf[..], secret);
    log := [Sent(adrsLeaf[..], secret)];
    wsT' := wsT;
    ClimbStart(s, LiteEnc(), key, g, part, adrsLeaf[..], node);
    var idx := leafIdx;
    for h := 0 to 3
      invariant idx == Shr(leafIdx, h) && adrsLeaf[..] == WordBytes(wsL')
      invariant ForsBuffer(wsT', treeIdx) && adrsTree[..] == WordBytes(wsT')
      invariant Climbed(s, LiteEnc(), key, g, part, h, node, log)
    {
      node, wsT', log := ClimbRound(sha, seed, treeIdx, i, leafIdx, adrsTree, auth, h, idx, node, wsT', g, part, log);
      idx := idx / 2;
    }
    ClimbDone(s, LiteEnc(), key, g, part, 3, node, log);
  }

  lemma {:induction false} LeafNumber(s: Scheme, t: nat, i: nat)
    requires s.a == 3
    ensures ForsLeaf(s, t, i) == t * 8 + i
  {
    assert Pow2(3) == 8;
  }

  lemma {:induction false} PartFields(fors: Bytes, t: nat, off: nat)
    requires t < 4 && off == t * 128
    ensures ParsedFors(fors)[t] == ForsPart(Slice(fors, off, off + 32), Chunks(Slice(fors, off + 32, off + 128), 32, 3))
  {
    assert ParsedFors(fors)[t] == PartAt(fors, 32, 3, 128, off);
  }

  /** One round of the loop of forsRootFromSig: part i of the signature walked to the root of its tree. */
  method NextRoot(sha: Hash, seed: Bytes, treeIdx: nat, i: nat, indices: seq<nat>, leafIdx: nat, sig: Bytes,
                  adrsLeaf: array<byte>, adrsTree: array<byte>, roots: seq<Bytes>, ghost wsL: seq<nat>,
                  ghost wsT: seq<nat>, ghost parts: seq<ForsPart>, ghost log: seq<Sent>)
    returns (roots': seq<Bytes>, ghost log': seq<Sent>, ghost wsL': seq<nat>, ghost wsT': seq<nat>)
    requires adrsLeaf != adrsTree && i < 4 && |indices| == 4 && leafIdx == indices[i] < 8 && parts == ParsedFors(sig)
    requires Buffers(adrsLeaf[..], adrsTree[..], wsL, wsT, treeIdx)
    requires RootsWalked(LiteScheme(sha, seed), LiteEnc(), Key(0, treeIdx, 0), indices, parts, i, roots, log)
    modifies adrsLeaf, adrsTree
    ensures Buffers(adrsLeaf[..], adrsTree[..], wsL', wsT', treeIdx)
    ensures RootsWalked(LiteScheme(sha, seed), LiteEnc(), Key(0, treeIdx, 0), indices, parts, i + 1, roots', log')
  {
    var off := i * 128;
    var secret := Slice(sig, off, off + 32);
    var auth := Slice(sig, off + 32, off + 128);
    ghost var part := ForsPart(secret, Chunks(auth, 32, 3));
    PartFields(sig, i, off);
    ghost var g := i * 8 + leafIdx;
    LeafNumber(LiteScheme(sha, seed), i, leafIdx);
    var node;
    ghost var calls;
    node, calls, wsL', wsT' := TreeFromSig(sha, seed, treeIdx, i, leafIdx, adrsLeaf, adrsTree, secret, auth, wsL, wsT,
                                           g, part);
    OneMoreRoot(LiteScheme(sha, seed), LiteEnc(), Key(0, treeIdx, 0), indices, parts, i, i + 1, roots, log, g, part,
                node, calls);
    log' := log + calls;
    roots' := roots + [node];
  }

  /** The end of forsRootFromSig: all roots hashed together. */
  method CompressRoots(sha: Hash, seed: Bytes, treeIdx: nat, roots: seq<Bytes>, ghost indices: seq<nat>,
                       ghost parts: seq<ForsPart>, ghost log: seq<Sent>)
    returns (root: Digest, ghost log': seq<Sent>)
    requires |indices| == |parts| == 4
    requires RootsWalked(LiteScheme(sha, seed), LiteEnc(), Key(0, treeIdx, 0), indices, parts, 4, roots, log)
    ensures root == ForsRecovered(LiteScheme(sha, seed), Key(0, treeIdx, 0), indices, parts)
    ensures log' == Encoded(LiteEnc(), ForsRecoveredCalls(LiteScheme(sha, seed), Key(0, treeIdx, 0), indices, parts))
  {
    var adrsRoots := Trees.BuildAdrs(0, treeIdx, 4, 0);
    var all := Concat(roots);
    root := sha(seed + adrsRoots[..] + all);
    HashedAt(sha, seed, ForsRoots(Key(0, treeIdx, 0)), adrsRoots[..], all);
    ForestDone(LiteScheme(sha, seed), LiteEnc(), Key(0, treeIdx, 0), indices, parts, 4, roots, log, adrsRoots[..], all,
               root);
    log' := log + [Sent(adrsRoots[..], all)];
  }

  method ForsRootFromSig(sha: Hash, seed: Bytes, treeIdx: nat, indices: seq<nat>, sig: Bytes)
    returns (root: Digest, ghost log: seq<Sent>)
    requires |indices| == 4 && forall t :: 0 <= t < 4 ==> indices[t] < 8
    ensures root == ForsRecovered(LiteScheme(sha, seed), Key(0, treeIdx, 0), indices, ParsedFors(sig))
    ensures log
            == Encoded(LiteEnc(),
                       ForsRecoveredCalls(LiteScheme(sha, seed), Key(0, treeIdx, 0), indices, ParsedFors(sig)))
  {
    ghost var parts := ParsedFors(sig);
    var roots: seq<Bytes> := [];
    log := [];
    var adrsLeaf := Trees.BuildAdrs(0, treeIdx, 3, 0);
    var adrsTree := Trees.BuildAdrs(0, treeIdx, 3, 0);
    ghost var wsL := AdrsWords(0, treeIdx, 3, 0, 0, 0);
    ghost var wsT := wsL;
    for i := 0 to 4
      invariant Buffers(adrsLeaf[..], adrsTree[..], wsL, wsT, treeIdx)
      invariant RootsWalked(LiteScheme(sha, seed), LiteEnc(), Key(0, treeIdx, 0), indices, parts, i, roots, log)
    {
      roots, log, wsL, wsT := NextRoot(sha, seed, treeIdx, i, indices, indices[i], sig, adrsLeaf, adrsTree, roots, wsL,
                                       wsT, parts, log);
    }
    root, log := CompressRoots(sha, seed, treeIdx, roots, indices, parts, log);
  }
}
