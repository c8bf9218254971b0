/**
 packages/pqc/src/slh-dsa-ref.ts: the level loops that xmssRoot, xmssAuthPath and forsLeavesAndAuth
 share. Tree t of a forest of height-m trees is collapsed; an XMSS tree is tree 0 of its own.
 */
module LiteLevels {
  import opened ByteStrings
  import opened Words
  import opened Bits
  import opened Tweaks
  import opened Merkle
  import opened LiteSpec

  /** The buffer serves all nodes of a tree: only the height and index words differ between them. */
  ghost predicate NodeWords(ws: seq<nat>, adr: NodeAddress) {
    |ws| == 8 && forall h: nat, i: nat {:trigger adr(h, i)} :: LiteWords(adr(h, i)) == ws[5 := h][6 := i]
  }

  lemma {:induction false} NodeWordsKept(ws: seq<nat>, adr: NodeAddress, height: nat, index: nat)
    requires NodeWords(ws, adr)
    ensures NodeWords(ws[5 := height], adr) && NodeWords(ws[6 := index], adr)
  {
    forall h: nat, i: nat
      ensures LiteWords(adr(h, i)) == ws[5 := height][5 := h][6 := i] == ws[6 := index][5 := h][6 := i]
    {
    }
  }

  lemma {:induction false} NodeWordsAt(ws: seq<nat>, adr: NodeAddress, h: nat, i: nat)
    requires NodeWords(ws, adr) && ws[5] == h
    ensures ws[6 := i] == LiteWords(adr(h, i))
  {
    assert ws[5 := h] == ws;
  }

  /**
   The inner loop of the tree builders: pairs of nodes are hashed into the next level, the node
   index written at offset 24 of the address buffer.
   */
  method CollapseLevel(sha: Hash, seed: Bytes, adrs: array<byte>, base: nat, nodes: seq<Bytes>, half: nat,
                       ghost ws: seq<nat>, ghost adr: NodeAddress, ghost leaf: nat -> Bytes, ghost below: nat,
                       ghost h: nat, ghost lo: nat)
    returns (next: seq<Bytes>, ghost ws': seq<nat>, ghost log: seq<Sent>)
    requires h == below + 1 && lo == 2 * base && |nodes| == 2 * half
    requires NodeWords(ws, adr) && ws[5] == h && adrs[..] == WordBytes(ws)
    requires nodes == Level(LiteScheme(sha, seed).th, adr, leaf, below, lo, |nodes|)
    modifies adrs
    ensures NodeWords(ws', adr) && adrs[..] == WordBytes(ws')
    ensures next == Level(LiteScheme(sha, seed).th, adr, leaf, h, base, half)
    ensures log == Encoded(LiteEnc(), LevelCalls(LiteScheme(sha, seed).th, adr, leaf, h, base, half))
  {
    ghost var th := LiteScheme(sha, seed).th;
    next, log, ws' := [], [], ws;
    var i := 0;
    while i < half
      invariant i <= half
      invariant NodeWords(ws', adr) && ws'[5] == h && adrs[..] == WordBytes(ws')
      invariant next == Level(th, adr, leaf, h, base, i)
      invariant log == Encoded(LiteEnc(), LevelCalls(th, adr, leaf, h, base, i))
    {
      var j := base + i;
      LevelPair(th, adr, leaf, below, lo, |nodes|, i, j);
      NodeWordsAt(ws', adr, h, j);
      NodeWordsKept(ws', adr, h, j);
      ws' := WriteWord(adrs, ws', 6, j);
      var merged := nodes[2 * i] + nodes[2 * i + 1];
      LevelStep(th, LiteEnc(), adr, leaf, below, h, base, i, j, merged, next, log);
      log := log + [Sent(adrs[..], merged)];
      next := next + [sha(seed + adrs[..] + merged)];
      i := i + 1;
    }
  }

  /** One round of the level loops: the height is written at offset 20 and all pairs are hashed. */
  method NextLevel(sha: Hash, seed: Bytes, adrs: array<byte>, t: nat, m: nat, height: nat, nodes: seq<Bytes>,
                   ghost ws: seq<nat>, ghost adr: NodeAddress, ghost leaf: nat -> Bytes, ghost below: nat,
                   ghost log: seq<Sent>)
    returns (next: seq<Bytes>, ghost ws': seq<nat>, ghost log': seq<Sent>)
    requires height == below + 1 <= m && NodeWords(ws, adr) && adrs[..] == WordBytes(ws)
    requires Collapsed(LiteScheme(sha, seed).th, LiteEnc(), adr, leaf, t, m, below, nodes, log)
    modifies adrs
    ensures NodeWords(ws', adr) && adrs[..] == WordBytes(ws')
    ensures Collapsed(LiteScheme(sha, seed).th, LiteEnc(), adr, leaf, t, m, height, next, log')
  {
    ghost var th := LiteScheme(sha, seed).th;
    NodeWordsKept(ws, adr, height, 0);
    ghost var ws1 := WriteWord(adrs, ws, 5, height);
    var half := Pow2(m - height);
    var base := t * half;
    ghost var lo := t * |nodes|;
    Doubled(t, half, |nodes|);
    ghost var level;
    next, ws', level := CollapseLevel(sha, seed, adrs, base, nodes, half, ws1, adr, leaf, below, height, lo);
    TreeCallsStep(th, LiteEnc(), adr, leaf, t, m, below, height, base, half, log, level);
    log' := log + level;
  }

  /** Where a level loop stands: the nodes of one height, and the siblings below it saved. */
  ghost predicate AuthState(th: Tweak, adr: NodeAddress, leaf: nat -> Bytes, t: nat, m: nat, g: nat, h: nat,
                            nodes: seq<Bytes>, log: seq<Sent>, ws: seq<nat>, adrs: Bytes, auth: Bytes) {
    && NodeWords(ws, adr) && adrs == WordBytes(ws)
    && Collapsed(th, LiteEnc(), adr, leaf, t, m, h, nodes, log)
    && FilledTo(auth, |auth|, AuthPath(th, adr, leaf, g, m), h)
  }

  /** One round of the loop: the sibling is saved, the nodes are hashed in pairs. */
  method AuthRound(sha: Hash, seed: Bytes, auth: array<byte>, adrs: array<byte>, t: nat, m: nat, height: nat, idx: nat,
                   nodes: seq<Bytes>, below: nat, ghost i: nat, ghost g: nat, ghost ws: seq<nat>,
                   ghost adr: NodeAddress, ghost leaf: nat -> Bytes, ghost log: seq<Sent>)
    returns (next: seq<Bytes>, ghost ws': seq<nat>, ghost log': seq<Sent>)
    requires auth != adrs && auth.Length == m * 32 && height == below + 1 <= m
    requires i < Pow2(m) && g == t * Pow2(m) + i && idx == Shr(i, below)
    requires Sized(AuthPath(LiteScheme(sha, seed).th, adr, leaf, g, m), 32)
    requires AuthState(LiteScheme(sha, seed).th, adr, leaf, t, m, g, below, nodes, log, ws, adrs[..], auth[..])
    modifies auth, adrs
    ensures AuthState(LiteScheme(sha, seed).th, adr, leaf, t, m, g, height, next, log', ws', adrs[..], auth[..])
  {
    var sibling := Sibling(idx);
    SiblingAtHand(LiteScheme(sha, seed).th, LiteEnc(), adr, leaf, t, m, i, g, below, idx, nodes, log);
    SetField(auth, below, 32, nodes[sibling], AuthPath(LiteScheme(sha, seed).th, adr, leaf, g, m));
    next, ws', log' := NextLevel(sha, seed, adrs, t, m, height, nodes, ws, adr, leaf, below, log);
  }

  /** The level loop of xmssAuthPath and forsLeavesAndAuth: from the leaves of tree t to the path of leaf i. */
  method CollectPath(sha: Hash, seed: Bytes, adrs: array<byte>, t: nat, m: nat, i: nat, leaves: seq<Bytes>,
                     ghost g: nat, ghost ws: seq<nat>, ghost adr: NodeAddress, ghost leaf: nat -> Bytes)
    returns (path: Bytes, ghost log: seq<Sent>)
    requires i < Pow2(m) && g == t * Pow2(m) + i && NodeWords(ws, adr) && adrs[..] == WordBytes(ws)
    requires Sized(AuthPath(LiteScheme(sha, seed).th, adr, leaf, g, m), 32)
    requires Collapsed(LiteScheme(sha, seed).th, LiteEnc(), adr, leaf, t, m, 0, leaves, [])
    modifies adrs
    ensures path == Flatten(AuthPath(LiteScheme(sha, seed).th, adr, leaf, g, m))
    ensures log == Encoded(LiteEnc(), TreeCalls(LiteScheme(sha, seed).th, adr, leaf, t, m, m))
  {
    ghost var th := LiteScheme(sha, seed).th;
    var auth := ZeroBuffer(m * 32);
    FilledToStart(m * 32, AuthPath(th, adr, leaf, g, m));
    var nodes, idx := leaves, i;
    ghost var ws' := ws;
    log := [];
    var below: nat := 0;
    var height := 1;
    while height <= m
      invariant height == below + 1 <= m + 1 && idx == Shr(i, below)
      invariant AuthState(th, adr, leaf, t, m, g, below, nodes, log, ws', adrs[..], auth[..])
    {
      nodes, ws', log := AuthRound(sha, seed, auth, adrs, t, m, height, idx, nodes, below, i, g, ws', adr, leaf, log);
      idx := idx / 2;
      below := height;
      height := height + 1;
    }
    FilledToEnd(auth[..], m * 32, AuthPath(th, adr, leaf, g, m), 32);
    path := auth[..];
  }

  /** The level loop of xmssRoot: from the leaves of tree t to its root. */
  method CollectRoot(sha: Hash, seed: Bytes, adrs: array<byte>, t: nat, m: nat, leaves: seq<Bytes>,
                     ghost ws: seq<nat>, ghost adr: NodeAddress, ghost leaf: nat -> Bytes)
    returns (root: Bytes, ghost log: seq<Sent>)
    requires NodeWords(ws, adr) && adrs[..] == WordBytes(ws)
    requires Collapsed(LiteScheme(sha, seed).th, LiteEnc(), adr, leaf, t, m, 0, leaves, [])
    modifies adrs
    ensures root == Node(LiteScheme(sha, seed).th, adr, leaf, m, t)
    ensures log == Encoded(LiteEnc(), TreeCalls(LiteScheme(sha, seed).th, adr, leaf, t, m, m))
  {
    var nodes := leaves;
    ghost var ws' := ws;
    log := [];
    ghost var below: nat := 0;
    var height := 1;
    while height <= m
      invariant height == below + 1 <= m + 1
      invariant NodeWords(ws', adr) && adrs[..] == WordBytes(ws')
      invariant Collapsed(LiteScheme(sha, seed).th, LiteEnc(), adr, leaf, t, m, below, nodes, log)
    {
      nodes, ws', log := NextLevel(sha, seed, adrs, t, m, height, nodes, ws', adr, leaf, below, log);
      below := height;
      height := height + 1;
    }
    CollapsedRoot(LiteScheme(sha, seed).th, LiteEnc(), adr, leaf, t, m, nodes, log);
    root := nodes[0];
  }
}
