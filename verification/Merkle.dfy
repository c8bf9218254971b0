/**
 Merkle trees over tweakable hashes, shared by XMSS and FORS. Nodes are numbered across the whole
 level, so a forest of trees of height m is one numbering: tree t has root (m, t) and the leaves
 t * 2^m .. (t + 1) * 2^m.
 */
module Merkle {
  import opened ByteStrings
  import opened Bits
  import opened Tweaks

  type NodeAddress = (nat, nat) -> Address

  /** The recursive definition of node j at height h. */
  function Node(th: Tweak, adr: NodeAddress, leaf: nat -> Bytes, h: nat, j: nat): Bytes {
    if h == 0 then leaf(j)
    else th(adr(h, j), Node(th, adr, leaf, h - 1, 2 * j) + Node(th, adr, leaf, h - 1, 2 * j + 1))
  }

  /** The siblings met on the way up from leaf g. */
  function AuthPath(th: Tweak, adr: NodeAddress, leaf: nat -> Bytes, g: nat, m: nat): (path: seq<Bytes>)
    ensures |path| == m
  {
    if m == 0 then []
    else AuthPath(th, adr, leaf, g, m - 1) + [Node(th, adr, leaf, m - 1, Sibling(Shr(g, m - 1)))]
  }

  /** Left or right child first, as the parity of the index says. */
  function Ordered(index: nat, node: Bytes, sibling: Bytes): Bytes {
    if index % 2 == 0 then node + sibling else sibling + node
  }

  /** The value reached from a leaf value by climbing an authentication path, one level per sibling. */
  function Climb(th: Tweak, adr: NodeAddress, g: nat, value: Bytes, path: seq<Bytes>): Bytes {
    if path == [] then value
    else
      var h := |path| - 1;
      th(adr(h + 1, Shr(g, h + 1)), Ordered(Shr(g, h), Climb(th, adr, g, value, path[..h]), path[h]))
  }

  function ClimbCalls(th: Tweak, adr: NodeAddress, g: nat, value: Bytes, path: seq<Bytes>): seq<Call> {
    if path == [] then []
    else
      var h := |path| - 1;
      ClimbCalls(th, adr, g, value, path[..h])
      + [Call(adr(h + 1, Shr(g, h + 1)), Ordered(Shr(g, h), Climb(th, adr, g, value, path[..h]), path[h]))]
  }

  lemma {:induction false} ClimbStep(th: Tweak, adr: NodeAddress, g: nat, value: Bytes, path: seq<Bytes>, h: nat)
    requires h < |path|
    ensures Climb(th, adr, g, value, path[..h + 1])
         == th(adr(h + 1, Shr(g, h + 1)), Ordered(Shr(g, h), Climb(th, adr, g, value, path[..h]), path[h]))
    ensures ClimbCalls(th, adr, g, value, path[..h + 1])
         == ClimbCalls(th, adr, g, value, path[..h])
          + [Call(adr(h + 1, Shr(g, h + 1)), Ordered(Shr(g, h), Climb(th, adr, g, value, path[..h]), path[h]))]
  {
    assert path[..h + 1][..h] == path[..h];
  }

  /** Climbing an honest path from an honest leaf meets the recursively defined node at every height. */
  lemma {:induction false} ClimbMeetsNode(th: Tweak, adr: NodeAddress, leaf: nat -> Bytes, g: nat, m: nat)
    ensures Climb(th, adr, g, leaf(g), AuthPath(th, adr, leaf, g, m)) == Node(th, adr, leaf, m, Shr(g, m))
  {
    if m > 0 {
      ClimbMeetsNode(th, adr, leaf, g, m - 1);
      ClimbAppend(th, adr, g, leaf(g), AuthPath(th, adr, leaf, g, m - 1),
                  Node(th, adr, leaf, m - 1, Sibling(Shr(g, m - 1))));
      ParentOfPair(th, adr, leaf, m, Shr(g, m - 1));
    }
  }

  /** From any leaf of tree t the honest path leads to the root of tree t. */
  lemma {:induction false} ClimbMeetsRoot(th: Tweak, adr: NodeAddress, leaf: nat -> Bytes, t: nat, i: nat, m: nat,
                                          g: nat, value: Bytes)
    requires i < Pow2(m) && g == t * Pow2(m) + i && value == leaf(g)
    ensures Climb(th, adr, g, value, AuthPath(th, adr, leaf, g, m)) == Node(th, adr, leaf, m, t)
  {
    ClimbMeetsNode(th, adr, leaf, g, m);
    assert Shr(g, m) == t by {
      ShrOfOffset(t, i, m, m);
      ShrBound(i, m, m);
    }
  }

  lemma {:induction false} ClimbAppend(th: Tweak, adr: NodeAddress, g: nat, value: Bytes, path: seq<Bytes>,
                                       sibling: Bytes)
    ensures Climb(th, adr, g, value, path + [sibling])
         == th(adr(|path| + 1, Shr(g, |path| + 1)), Ordered(Shr(g, |path|), Climb(th, adr, g, value, path), sibling))
  {
    assert (path + [sibling])[..|path|] == path;
  }

  lemma {:induction false} ParentOfPair(th: Tweak, adr: NodeAddress, leaf: nat -> Bytes, h: nat, j: nat)
    requires h > 0
    ensures Node(th, adr, leaf, h, j / 2)
         == th(adr(h, j / 2), Ordered(j, Node(th, adr, leaf, h - 1, j), Node(th, adr, leaf, h - 1, Sibling(j))))
  {
    assert j == if j % 2 == 0 then 2 * (j / 2) else 2 * (j / 2) + 1;
  }

  /**
   Two climbs from one leaf position that meet agree on the leaf and the path, whatever the sizes of
   the siblings, or two of their calls collide.
   */
  lemma {:induction false} ClimbBinding(th: Tweak, n: nat, adr: NodeAddress, g: nat,
                                        v1: Bytes, path1: seq<Bytes>, v2: Bytes, path2: seq<Bytes>)
    requires Outputs(th, n) && |path1| == |path2| && |v1| == |v2| == n
    requires Climb(th, adr, g, v1, path1) == Climb(th, adr, g, v2, path2)
    ensures (v1 == v2 && path1 == path2)
            || CollisionIn(th, ClimbCalls(th, adr, g, v1, path1), ClimbCalls(th, adr, g, v2, path2))
  {
    if path1 != [] {
      var h := |path1| - 1;
      var xs, ys := ClimbCalls(th, adr, g, v1, path1), ClimbCalls(th, adr, g, v2, path2);
      var p1, p2 := path1[..h], path2[..h];
      assert path1 == p1 + [path1[h]] && path2 == p2 + [path2[h]];
      TopStepBinding(th, n, adr, g, v1, path1, v2, path2);
      if !CollisionIn(th, xs, ys) {
        ClimbBinding(th, n, adr, g, v1, p1, v2, p2);
        if !(v1 == v2 && p1 == p2) {
          ClimbCallsGrow(th, adr, g, v1, path1);
          ClimbCallsGrow(th, adr, g, v2, path2);
          CollisionExtends(th, ClimbCalls(th, adr, g, v1, p1), ClimbCalls(th, adr, g, v2, p2), xs, ys);
        }
      }
    }
  }

  lemma {:induction false} ClimbCallsGrow(th: Tweak, adr: NodeAddress, g: nat, value: Bytes, path: seq<Bytes>)
    requires path != []
    ensures Within(ClimbCalls(th, adr, g, value, path[..|path| - 1]), ClimbCalls(th, adr, g, value, path))
  {
  }

  lemma {:induction false} TopStepBinding(th: Tweak, n: nat, adr: NodeAddress, g: nat,
                                          v1: Bytes, path1: seq<Bytes>, v2: Bytes, path2: seq<Bytes>)
    requires Outputs(th, n) && |path1| == |path2| > 0 && |v1| == |v2| == n
    requires Climb(th, adr, g, v1, path1) == Climb(th, adr, g, v2, path2)
    ensures var h := |path1| - 1;
            (path1[h] == path2[h] && Climb(th, adr, g, v1, path1[..h]) == Climb(th, adr, g, v2, path2[..h]))
            || CollisionIn(th, ClimbCalls(th, adr, g, v1, path1), ClimbCalls(th, adr, g, v2, path2))
  {
    var h := |path1| - 1;
    var below1, below2 := Climb(th, adr, g, v1, path1[..h]), Climb(th, adr, g, v2, path2[..h]);
    var m1, m2 := Ordered(Shr(g, h), below1, path1[h]), Ordered(Shr(g, h), below2, path2[h]);
    EqualOrCollide(th, ClimbCalls(th, adr, g, v1, path1), ClimbCalls(th, adr, g, v2, path2),
                   adr(h + 1, Shr(g, h + 1)), m1, m2);
    if m1 == m2 {
      ClimbSize(th, n, adr, g, v1, path1[..h]);
      ClimbSize(th, n, adr, g, v2, path2[..h]);
      OrderedInjective(Shr(g, h), below1, path1[h], below2, path2[h]);
    }
  }

  lemma {:induction false} ClimbSize(th: Tweak, n: nat, adr: NodeAddress, g: nat, value: Bytes, path: seq<Bytes>)
    requires Outputs(th, n)
    requires |value| == n
    ensures |Climb(th, adr, g, value, path)| == n
  {
  }

  lemma {:induction false} OrderedInjective(index: nat, x1: Bytes, s1: Bytes, x2: Bytes, s2: Bytes)
    requires |x1| == |x2|
    requires Ordered(index, x1, s1) == Ordered(index, x2, s2)
    ensures x1 == x2 && s1 == s2
  {
    if index % 2 == 0 {
      ConcatInjective(x1, s1, x2, s2);
    } else {
      assert |s1| + |x1| == |s2| + |x2|;
      ConcatInjective(s1, x1, s2, x2);
    }
  }

  // ---- whole trees, level by level ------------------------------------------------------------

  /** The count nodes of height h from node lo on. */
  function Level(th: Tweak, adr: NodeAddress, leaf: nat -> Bytes, h: nat, lo: nat, count: nat): (r: seq<Bytes>)
    ensures |r| == count
  {
    seq(count, i requires 0 <= i < count => Node(th, adr, leaf, h, lo + i))
  }

  /** The calls that make the first count nodes of height h from node lo on out of their children. */
  function LevelCalls(th: Tweak, adr: NodeAddress, leaf: nat -> Bytes, h: nat, lo: nat, count: nat): (r: seq<Call>)
    requires h > 0
    ensures |r| == count
  {
    seq(count, i requires 0 <= i < count =>
      Call(adr(h, lo + i), Node(th, adr, leaf, h - 1, 2 * (lo + i)) + Node(th, adr, leaf, h - 1, 2 * (lo + i) + 1)))
  }

  /** The calls that collapse tree t of height m, bottom-up, through height h. */
  function TreeCalls(th: Tweak, adr: NodeAddress, leaf: nat -> Bytes, t: nat, m: nat, h: nat): seq<Call>
    requires h <= m
  {
    if h == 0 then []
    else TreeCalls(th, adr, leaf, t, m, h - 1) + LevelCalls(th, adr, leaf, h, t * Pow2(m - h), Pow2(m - h))
  }

  lemma {:induction false} LevelAt(th: Tweak, adr: NodeAddress, leaf: nat -> Bytes, h: nat, lo: nat, count: nat, i: nat,
                                   j: nat)
    requires i < count && j == lo + i
    ensures Level(th, adr, leaf, h, lo, count)[i] == Node(th, adr, leaf, h, j)
  {
  }

  lemma {:induction false} LevelPair(th: Tweak, adr: NodeAddress, leaf: nat -> Bytes, h: nat, lo: nat, count: nat,
                                     i: nat, j: nat)
    requires 2 * i + 1 < count && 2 * j == lo + 2 * i
    ensures Level(th, adr, leaf, h, lo, count)[2 * i] == Node(th, adr, leaf, h, 2 * j)
    ensures Level(th, adr, leaf, h, lo, count)[2 * i + 1] == Node(th, adr, leaf, h, 2 * j + 1)
  {
  }

  /** One more node j of a level, hashed from its two children at height below. */
  lemma {:induction false} LevelStep(th: Tweak, enc: Address -> Bytes, adr: NodeAddress, leaf: nat -> Bytes, below: nat,
                                     h: nat, lo: nat, i: nat, j: nat, msg: Bytes, nodes: seq<Bytes>, log: seq<Sent>)
    requires h == below + 1 && j == lo + i
    requires msg == Node(th, adr, leaf, below, 2 * j) + Node(th, adr, leaf, below, 2 * j + 1)
    requires nodes == Level(th, adr, leaf, h, lo, i) && log == Encoded(enc, LevelCalls(th, adr, leaf, h, lo, i))
    ensures nodes + [th(adr(h, j), msg)] == Level(th, adr, leaf, h, lo, i + 1)
    ensures log + [Sent(enc(adr(h, j)), msg)] == Encoded(enc, LevelCalls(th, adr, leaf, h, lo, i + 1))
  {
    assert th(adr(h, j), msg) == Node(th, adr, leaf, h, j);
    assert LevelCalls(th, adr, leaf, h, lo, i + 1) == LevelCalls(th, adr, leaf, h, lo, i) + [Call(adr(h, j), msg)];
    EncodedOne(enc, LevelCalls(th, adr, leaf, h, lo, i), adr(h, j), msg);
  }

  lemma {:induction false} LeafLevelStep(th: Tweak, adr: NodeAddress, leaf: nat -> Bytes, lo: nat, i: nat, j: nat,
                                         nodes: seq<Bytes>)
    requires j == lo + i && nodes == Level(th, adr, leaf, 0, lo, i)
    ensures nodes + [leaf(j)] == Level(th, adr, leaf, 0, lo, i + 1)
  {
    assert Node(th, adr, leaf, 0, j) == leaf(j);
  }

  lemma {:induction false} TreeCallsStep(th: Tweak, enc: Address -> Bytes, adr: NodeAddress, leaf: nat -> Bytes, t: nat,
                                         m: nat, below: nat, h: nat, lo: nat, count: nat, log: seq<Sent>,
                                         more: seq<Sent>)
    requires h == below + 1 <= m && lo == t * Pow2(m - h) && count == Pow2(m - h)
    requires log == Encoded(enc, TreeCalls(th, adr, leaf, t, m, below))
    requires more == Encoded(enc, LevelCalls(th, adr, leaf, h, lo, count))
    ensures log + more == Encoded(enc, TreeCalls(th, adr, leaf, t, m, h))
  {
    EncodedAppend(enc, TreeCalls(th, adr, leaf, t, m, below), LevelCalls(th, adr, leaf, h, lo, count));
  }

  lemma {:induction false} AuthPathAt(th: Tweak, adr: NodeAddress, leaf: nat -> Bytes, g: nat, m: nat, z: nat)
    requires z < m
    ensures AuthPath(th, adr, leaf, g, m)[z] == Node(th, adr, leaf, z, Sibling(Shr(g, z)))
  {
    if z < m - 1 {
      AuthPathAt(th, adr, leaf, g, m - 1, z);
    }
  }

  /** After collapsing tree t of height m through height h: the nodes at hand and the calls made. */
  ghost predicate Collapsed(th: Tweak, enc: Address -> Bytes, adr: NodeAddress, leaf: nat -> Bytes, t: nat, m: nat,
                            h: nat, nodes: seq<Bytes>, log: seq<Sent>) {
    && h <= m && |nodes| == Pow2(m - h)
    && nodes == Level(th, adr, leaf, h, t * |nodes|, |nodes|)
    && log == Encoded(enc, TreeCalls(th, adr, leaf, t, m, h))
  }

  lemma {:induction false} CollapsedRoot(th: Tweak, enc: Address -> Bytes, adr: NodeAddress, leaf: nat -> Bytes, t: nat,
                                         m: nat, nodes: seq<Bytes>, log: seq<Sent>)
    requires Collapsed(th, enc, adr, leaf, t, m, m, nodes, log)
    ensures |nodes| == 1 && nodes[0] == Node(th, adr, leaf, m, t)
  {
    LevelAt(th, adr, leaf, m, t, 1, 0, t);
  }

  /** The sibling needed at height h is among the nodes of that height. */
  lemma {:induction false} SiblingAtHand(th: Tweak, enc: Address -> Bytes, adr: NodeAddress, leaf: nat -> Bytes, t: nat,
                                         m: nat, i: nat, g: nat, h: nat, idx: nat, nodes: seq<Bytes>, log: seq<Sent>)
    requires i < Pow2(m) && g == t * Pow2(m) + i && h < m && idx == Shr(i, h)
    requires Collapsed(th, enc, adr, leaf, t, m, h, nodes, log)
    ensures Sibling(idx) < |nodes| && nodes[Sibling(idx)] == AuthPath(th, adr, leaf, g, m)[h]
  {
    var j, k := Sibling(Shr(g, h)), Sibling(idx);
    SiblingInTree(t, i, m, g, h, idx, |nodes|);
    AuthPathAt(th, adr, leaf, g, m, h);
    LevelAt(th, adr, leaf, h, t * |nodes|, |nodes|, k, j);
  }

  lemma {:induction false} NodeSize(th: Tweak, n: nat, adr: NodeAddress, leaf: nat -> Bytes, h: nat, j: nat)
    requires Outputs(th, n) && |leaf(j)| == n
    ensures |Node(th, adr, leaf, h, j)| == n
  {
  }

  /** Trees agree when their addresses hash alike and their leaves agree. */
  ghost predicate HashAlike(th: Tweak, adr: NodeAddress, adr': NodeAddress) {
    forall h: nat, i: nat, m: Bytes :: th(adr(h, i), m) == th(adr'(h, i), m)
  }

  lemma {:induction false} NodeCongruence(th: Tweak, adr: NodeAddress, leaf: nat -> Bytes, adr': NodeAddress,
                                          leaf': nat -> Bytes, h: nat, i: nat)
    requires HashAlike(th, adr, adr') && forall j: nat :: leaf(j) == leaf'(j)
    ensures Node(th, adr, leaf, h, i) == Node(th, adr', leaf', h, i)
  {
    if h > 0 {
      NodeCongruence(th, adr, leaf, adr', leaf', h - 1, 2 * i);
      NodeCongruence(th, adr, leaf, adr', leaf', h - 1, 2 * i + 1);
    }
  }

  /** node and log are the value and the calls of the first h levels of a climb. */
  ghost predicate PathClimbed(th: Tweak, enc: Address -> Bytes, adr: NodeAddress, g: nat, value: Bytes,
                              path: seq<Bytes>, h: nat, node: Bytes, log: seq<Sent>)
    requires h <= |path|
  {
    && node == Climb(th, adr, g, value, path[..h])
    && log == Encoded(enc, ClimbCalls(th, adr, g, value, path[..h]))
  }

  /** One more sibling climbed past: h levels become h + 1. */
  lemma {:induction false} PathClimbedOne(th: Tweak, enc: Address -> Bytes, adr: NodeAddress, g: nat, value: Bytes,
                                          path: seq<Bytes>, h: nat, up: nat, parent: nat, node: Bytes, msg: Bytes,
                                          log: seq<Sent>, node': Bytes, sent: Sent)
    requires up == h + 1 <= |path| && parent == Shr(g, up) && PathClimbed(th, enc, adr, g, value, path, h, node, log)
    requires msg == Ordered(Shr(g, h), node, path[h])
    requires node' == th(adr(up, parent), msg) && sent == Sent(enc(adr(up, parent)), msg)
    ensures PathClimbed(th, enc, adr, g, value, path, up, node', log + [sent])
  {
    ClimbStep(th, adr, g, value, path, h);
    EncodedOne(enc, ClimbCalls(th, adr, g, value, path[..h]), adr(up, parent), msg);
  }

  lemma {:induction false} PathClimbedAll(th: Tweak, enc: Address -> Bytes, adr: NodeAddress, g: nat, value: Bytes,
                                          path: seq<Bytes>, h: nat, node: Bytes, log: seq<Sent>)
    requires h == |path| && PathClimbed(th, enc, adr, g, value, path, h, node, log)
    ensures node == Climb(th, adr, g, value, path) && log == Encoded(enc, ClimbCalls(th, adr, g, value, path))
  {
    assert path[..h] == path;
  }

  // ---- honest climbs stay inside the tree -----------------------------------------------------

  /** What the node at height h, index i hashes. */
  function Children(th: Tweak, adr: NodeAddress, leaf: nat -> Bytes, h: nat, i: nat): Bytes {
    if h == 0 then [] else Node(th, adr, leaf, h - 1, 2 * i) + Node(th, adr, leaf, h - 1, 2 * i + 1)
  }

  lemma {:induction false} ChildrenCongruence(th: Tweak, adr: NodeAddress, leaf: nat -> Bytes, adr': NodeAddress,
                                              leaf': nat -> Bytes, h: nat, i: nat)
    requires HashAlike(th, adr, adr') && forall j: nat :: leaf(j) == leaf'(j)
    ensures Children(th, adr, leaf, h, i) == Children(th, adr', leaf', h, i)
  {
    if h > 0 {
      NodeCongruence(th, adr, leaf, adr', leaf', h - 1, 2 * i);
      NodeCongruence(th, adr, leaf, adr', leaf', h - 1, 2 * i + 1);
    }
  }

  lemma {:induction false} ClimbCallsAppend(th: Tweak, adr: NodeAddress, g: nat, value: Bytes, path: seq<Bytes>,
                                            sibling: Bytes)
    ensures ClimbCalls(th, adr, g, value, path + [sibling])
         == ClimbCalls(th, adr, g, value, path)
          + [Call(adr(|path| + 1, Shr(g, |path| + 1)),
                  Ordered(Shr(g, |path|), Climb(th, adr, g, value, path), sibling))]
  {
    assert (path + [sibling])[..|path|] == path;
  }

  lemma {:induction false} TopMessage(th: Tweak, adr: NodeAddress, leaf: nat -> Bytes, g: nat, m: nat)
    requires m > 0
    ensures Ordered(Shr(g, m - 1), Climb(th, adr, g, leaf(g), AuthPath(th, adr, leaf, g, m - 1)),
                    Node(th, adr, leaf, m - 1, Sibling(Shr(g, m - 1))))
         == Children(th, adr, leaf, m, Shr(g, m))
  {
    ClimbMeetsNode(th, adr, leaf, g, m - 1);
    OrderedChildren(th, adr, leaf, m, Shr(g, m - 1));
  }

  lemma {:induction false} OrderedChildren(th: Tweak, adr: NodeAddress, leaf: nat -> Bytes, h: nat, j: nat)
    requires h > 0
    ensures Ordered(j, Node(th, adr, leaf, h - 1, j), Node(th, adr, leaf, h - 1, Sibling(j)))
            == Children(th, adr, leaf, h, j / 2)
  {
    assert j == if j % 2 == 0 then 2 * (j / 2) else 2 * (j / 2) + 1;
  }

  /** The calls of climbing an honest path from leaf g to height h. */
  function HonestClimb(th: Tweak, adr: NodeAddress, leaf: nat -> Bytes, g: nat, h: nat): seq<Call> {
    ClimbCalls(th, adr, g, leaf(g), AuthPath(th, adr, leaf, g, h))
  }

  lemma {:induction false} HonestClimbGrows(th: Tweak, adr: NodeAddress, leaf: nat -> Bytes, g: nat, below: nat, h: nat)
    requires h == below + 1
    ensures HonestClimb(th, adr, leaf, g, h)
         == HonestClimb(th, adr, leaf, g, below) + [Call(adr(h, Shr(g, h)), Children(th, adr, leaf, h, Shr(g, h)))]
  {
    ClimbCallsAppend(th, adr, g, leaf(g), AuthPath(th, adr, leaf, g, below),
                     Node(th, adr, leaf, below, Sibling(Shr(g, below))));
    TopMessage(th, adr, leaf, g, h);
  }

  /** Every call of an honest climb is one of the calls that built the tree: same height, same index, same message. */
  lemma {:induction false} HonestClimbInTree(th: Tweak, adr: NodeAddress, leaf: nat -> Bytes, t: nat, i: nat, m: nat,
                                             g: nat, h: nat)
    requires i < Pow2(m) && g == t * Pow2(m) + i && h <= m
    ensures Within(HonestClimb(th, adr, leaf, g, h), TreeCalls(th, adr, leaf, t, m, h))
  {
    if h > 0 {
      var below := h - 1;
      HonestClimbInTree(th, adr, leaf, t, i, m, g, below);
      HonestClimbGrows(th, adr, leaf, g, below, h);
      AncestorInLevel(th, adr, leaf, t, i, m, g, h);
      ClimbUnderLevel(th, adr, leaf, t, m, below, HonestClimb(th, adr, leaf, g, below),
                      Call(adr(h, Shr(g, h)), Children(th, adr, leaf, h, Shr(g, h))));
    }
  }

  lemma {:induction false} ClimbUnderLevel(th: Tweak, adr: NodeAddress, leaf: nat -> Bytes, t: nat, m: nat, h: nat,
                                           calls: seq<Call>, call: Call)
    requires h < m && Within(calls, TreeCalls(th, adr, leaf, t, m, h))
    requires call in LevelCalls(th, adr, leaf, h + 1, t * Pow2(m - (h + 1)), Pow2(m - (h + 1)))
    ensures Within(calls + [call], TreeCalls(th, adr, leaf, t, m, h + 1))
  {
  }

  lemma {:induction false} AncestorInLevel(th: Tweak, adr: NodeAddress, leaf: nat -> Bytes, t: nat, i: nat, m: nat,
                                           g: nat, h: nat)
    requires i < Pow2(m) && g == t * Pow2(m) + i && 0 < h <= m
    ensures Call(adr(h, Shr(g, h)), Children(th, adr, leaf, h, Shr(g, h)))
            in LevelCalls(th, adr, leaf, h, t * Pow2(m - h), Pow2(m - h))
  {
    var count, at := Pow2(m - h), Shr(i, h);
    ShrOfOffset(t, i, m, h);
    ShrBound(i, m, h);
    assert LevelCalls(th, adr, leaf, h, t * count, count)[at]
           == Call(adr(h, Shr(g, h)), Children(th, adr, leaf, h, Shr(g, h)));
  }
}
