/** What an honest signer makes, the verifier's walks bring back to the public values. */
module Correctness {
  import opened ByteStrings
  import opened Bits
  import opened Tweaks
  import opened Chains
  import opened Merkle
  import opened Schemes

  lemma {:induction false} TopsSizedPublic(s: Scheme, sk: Secrets, key: Key)
    requires Valid(s) && SecretsOk(s, sk)
    ensures Sized(PublicTops(s, sk, key), s.n)
  {
    forall i | 0 <= i < s.len
      ensures |PublicTops(s, sk, key)[i]| == s.n
    {
      ChainSize(s.th, s.n, key, i, 0, s.w - 1, sk.wots(key, i));
    }
  }

  lemma {:induction false} SignedSized(s: Scheme, sk: Secrets, key: Key, ds: seq<nat>)
    requires Valid(s) && SecretsOk(s, sk) && DigitsOk(s, ds)
    ensures Sized(SignedChunks(s, sk, key, ds), s.n)
  {
    forall i | 0 <= i < s.len
      ensures |SignedChunks(s, sk, key, ds)[i]| == s.n
    {
      ChainSize(s.th, s.n, key, i, 0, ds[i], sk.wots(key, i));
    }
  }

  /** Completing signed chains gives the public chain tops, whatever was signed. */
  lemma {:induction false} TopsRecovered(s: Scheme, sk: Secrets, key: Key, ds: seq<nat>)
    requires Valid(s) && SecretsOk(s, sk) && DigitsOk(s, ds)
    ensures RecoveredTops(s, key, ds, SignedChunks(s, sk, key, ds)) == PublicTops(s, sk, key)
  {
    forall i | 0 <= i < s.len
      ensures RecoveredTops(s, key, ds, SignedChunks(s, sk, key, ds))[i] == PublicTops(s, sk, key)[i]
    {
      ChainCompose(s.th, key, i, 0, ds[i], s.w - 1 - ds[i], sk.wots(key, i));
      ChainSize(s.th, s.n, key, i, 0, s.w - 1, sk.wots(key, i));
    }
  }

  /** An XMSS signature leads back to the root of its tree, whatever was signed. */
  lemma {:induction false} XmssRecovered(s: Scheme, sk: Secrets, key: Key, msg: Bytes)
    requires Valid(s) && SecretsOk(s, sk) && DigitsOk(s, s.digits(msg))
    requires key.leaf < Pow2(s.hp)
    ensures RecoveredRoot(s, key, msg, XmssSign(s, sk, key, msg)) == XmssRoot(s, sk, key.layer, key.tree)
  {
    var leaves := XmssLeaves(s, sk, key.layer, key.tree);
    var value := LeafValue(s, key, RecoveredTops(s, key, s.digits(msg), SignedChunks(s, sk, key, s.digits(msg))));
    assert value == leaves(key.leaf) by {
      TopsRecovered(s, sk, key, s.digits(msg));
    }
    ClimbMeetsRoot(s.th, TreeAdr(key.layer, key.tree), leaves, 0, key.leaf, s.hp, key.leaf, value);
  }

  lemma {:induction false} LeafInRange(s: Scheme, tree: nat, leaf: nat, j: nat)
    requires leaf < Pow2(s.hp)
    ensures KeyAt(s, tree, leaf, j).leaf < Pow2(s.hp)
  {
  }

  /** Layer by layer the verifier meets the roots of the trees the signer certified. */
  lemma {:induction false} HtRecovered(s: Scheme, sk: Secrets, msg: Bytes, tree: nat, leaf: nat, m: nat, j: nat)
    requires Valid(s) && SecretsOk(s, sk) && |msg| == s.n && j <= m && leaf < Pow2(s.hp)
    ensures Payload(s, msg, tree, leaf, HtSign(s, sk, msg, tree, leaf, m), j)
         == HonestPayload(s, sk, msg, tree, leaf, j)
  {
    if j > 0 {
      HtRecovered(s, sk, msg, tree, leaf, m, j - 1);
      HonestStep(s, sk, msg, tree, leaf, HtSign(s, sk, msg, tree, leaf, m), j);
    }
  }

  lemma {:induction false} HonestStep(s: Scheme, sk: Secrets, msg: Bytes, tree: nat, leaf: nat, sigs: seq<XmssSig>,
                                      j: nat)
    requires Valid(s) && SecretsOk(s, sk) && |msg| == s.n && 0 < j <= |sigs| && leaf < Pow2(s.hp)
    requires forall i :: 0 <= i < |sigs| ==> |sigs[i].wots| == s.len
    requires sigs[j - 1] == HtSignLayer(s, sk, msg, tree, leaf, j - 1)
    requires Payload(s, msg, tree, leaf, sigs, j - 1) == HonestPayload(s, sk, msg, tree, leaf, j - 1)
    ensures Payload(s, msg, tree, leaf, sigs, j) == HonestPayload(s, sk, msg, tree, leaf, j)
  {
    LayerRecovered(s, sk, msg, tree, leaf, j - 1);
    PayloadStep(s, msg, tree, leaf, sigs, j);
  }

  lemma {:induction false} PayloadStep(s: Scheme, msg: Bytes, tree: nat, leaf: nat, sigs: seq<XmssSig>, j: nat)
    requires Valid(s) && |msg| == s.n && 0 < j <= |sigs|
    requires forall i :: 0 <= i < |sigs| ==> |sigs[i].wots| == s.len
    ensures Payload(s, msg, tree, leaf, sigs, j)
         == RecoveredRoot(s, KeyAt(s, tree, leaf, j - 1), Payload(s, msg, tree, leaf, sigs, j - 1), sigs[j - 1])
  {
  }

  lemma {:induction false} LayerRecovered(s: Scheme, sk: Secrets, msg: Bytes, tree: nat, leaf: nat, j: nat)
    requires Valid(s) && SecretsOk(s, sk) && |msg| == s.n && leaf < Pow2(s.hp)
    ensures |HonestPayload(s, sk, msg, tree, leaf, j)| == s.n
    ensures RecoveredRoot(s, KeyAt(s, tree, leaf, j), HonestPayload(s, sk, msg, tree, leaf, j),
                          HtSignLayer(s, sk, msg, tree, leaf, j))
         == HonestPayload(s, sk, msg, tree, leaf, j + 1)
  {
    HonestPayloadSize(s, sk, msg, tree, leaf, j);
    LeafInRange(s, tree, leaf, j);
    XmssRecovered(s, sk, KeyAt(s, tree, leaf, j), HonestPayload(s, sk, msg, tree, leaf, j));
  }

  /** Each promotion drops hp bits, so d - 1 of them end at the only tree of the top layer. */
  lemma {:induction false} TreeShrinks(s: Scheme, tree: nat, leaf: nat, j: nat, bits: nat)
    requires tree < Pow2(bits) && j * s.hp <= bits
    ensures KeyAt(s, tree, leaf, j).tree < Pow2(bits - j * s.hp)
  {
    if j > 0 {
      OneMore(j, s.hp);
      TreeShrinks(s, tree, leaf, j - 1, bits);
      ShrBound(KeyAt(s, tree, leaf, j - 1).tree, bits - (j - 1) * s.hp, s.hp);
    }
  }

  lemma {:induction false} TopTreeIsZero(s: Scheme, tree: nat, leaf: nat)
    requires s.d > 0 && tree < Pow2((s.d - 1) * s.hp)
    ensures KeyAt(s, tree, leaf, s.d - 1).tree == 0
  {
    TreeShrinks(s, tree, leaf, s.d - 1, (s.d - 1) * s.hp);
  }

  /** The whole hypertree: any message signed from any in-range position leads to the one published root. */
  lemma {:induction false} HypertreeRecovered(s: Scheme, sk: Secrets, msg: Bytes, tree: nat, leaf: nat)
    requires Valid(s) && SecretsOk(s, sk) && |msg| == s.n && s.d > 0
    requires leaf < Pow2(s.hp) && tree < Pow2((s.d - 1) * s.hp)
    ensures Payload(s, msg, tree, leaf, HtSign(s, sk, msg, tree, leaf, s.d), s.d) == XmssRoot(s, sk, s.d - 1, 0)
  {
    HtRecovered(s, sk, msg, tree, leaf, s.d, s.d);
    TopTreeIsZero(s, tree, leaf);
  }

  lemma {:induction false} HonestRoots(s: Scheme, sk: Secrets, key: Key, indices: seq<nat>)
    requires |indices| == s.k && forall t :: 0 <= t < s.k ==> indices[t] < Pow2(s.a)
    ensures ForsRecoveredRoots(s, key, indices, ForsSign(s, sk, key, indices)) == ForsTreeRoots(s, sk, key)
  {
    forall t | 0 <= t < s.k
      ensures ForsRecoveredRoots(s, key, indices, ForsSign(s, sk, key, indices))[t] == ForsTreeRoots(s, sk, key)[t]
    {
      ForsTreeRecovered(s, sk, key, t, indices[t]);
    }
  }

  /** The recovered FORS key does not depend on which leaves were signed. */
  lemma {:induction false} ForsKeyRecovered(s: Scheme, sk: Secrets, key: Key, indices: seq<nat>)
    requires |indices| == s.k && forall t :: 0 <= t < s.k ==> indices[t] < Pow2(s.a)
    ensures ForsRecovered(s, key, indices, ForsSign(s, sk, key, indices)) == ForsPk(s, sk, key)
  {
    HonestRoots(s, sk, key, indices);
  }

  lemma {:induction false} ForsTreeRecovered(s: Scheme, sk: Secrets, key: Key, t: nat, i: nat)
    requires i < Pow2(s.a)
    ensures ForsClimb(s, key, ForsLeaf(s, t, i), ForsSignTree(s, sk, key, ForsLeaf(s, t, i)))
            == ForsTreeRoot(s, sk, key, t)
  {
    var g, leaves := ForsLeaf(s, t, i), ForsLeaves(s, sk, key);
    ClimbMeetsRoot(s.th, ForsAdr(key), leaves, t, i, s.a, g, leaves(g));
  }

  // ---- sizes of honest signatures -------------------------------------------------------------

  lemma {:induction false} AuthPathSized(th: Tweak, n: nat, adr: NodeAddress, leaf: nat -> Bytes, g: nat, m: nat)
    requires Outputs(th, n) && forall j: nat :: |leaf(j)| == n
    ensures Sized(AuthPath(th, adr, leaf, g, m), n)
  {
    forall z | 0 <= z < m
      ensures |AuthPath(th, adr, leaf, g, m)[z]| == n
    {
      AuthPathAt(th, adr, leaf, g, m, z);
      NodeSize(th, n, adr, leaf, z, Sibling(Shr(g, z)));
    }
  }

  lemma {:induction false} XmssSignSized(s: Scheme, sk: Secrets, key: Key, msg: Bytes)
    requires Valid(s) && SecretsOk(s, sk) && DigitsOk(s, s.digits(msg))
    ensures Sized(XmssSign(s, sk, key, msg).wots, s.n) && Sized(XmssSign(s, sk, key, msg).auth, s.n)
  {
    SignedSized(s, sk, key, s.digits(msg));
    AuthPathSized(s.th, s.n, TreeAdr(key.layer, key.tree), XmssLeaves(s, sk, key.layer, key.tree), key.leaf, s.hp);
  }

  lemma {:induction false} ForsSignTreeSized(s: Scheme, sk: Secrets, key: Key, g: nat)
    requires Valid(s) && SecretsOk(s, sk)
    ensures |ForsSignTree(s, sk, key, g).secret| == s.n && Sized(ForsSignTree(s, sk, key, g).auth, s.n)
  {
    AuthPathSized(s.th, s.n, ForsAdr(key), ForsLeaves(s, sk, key), g, s.a);
  }

  lemma {:induction false} XmssRootSized(s: Scheme, sk: Secrets, layer: nat, tree: nat)
    requires Valid(s)
    ensures |XmssRoot(s, sk, layer, tree)| == s.n
  {
    NodeSize(s.th, s.n, TreeAdr(layer, tree), XmssLeaves(s, sk, layer, tree), s.hp, 0);
  }

  // ---- the path is positional -----------------------------------------------------------------

  /** The leaves visited at layers j to m - 1. */
  function PathLeaves(s: Scheme, tree: nat, leaf: nat, j: nat, m: nat): seq<nat>
    decreases m - j
  {
    if j >= m then [] else [KeyAt(s, tree, leaf, j).leaf] + PathLeaves(s, tree, leaf, j + 1, m)
  }

  /** Least significant first, they are the base-2^hp digits of the position the path started at. */
  lemma {:induction false} PathDigits(s: Scheme, tree: nat, leaf: nat, j: nat, top: nat, m: nat)
    requires j <= top && m == top + 1 && KeyAt(s, tree, leaf, top).tree == 0
    ensures FromLeastFirst(PathLeaves(s, tree, leaf, j, m), Pow2(s.hp))
         == KeyAt(s, tree, leaf, j).leaf + Pow2(s.hp) * KeyAt(s, tree, leaf, j).tree
    decreases top - j
  {
    var up := j + 1;
    var here, rest, base := KeyAt(s, tree, leaf, j), PathLeaves(s, tree, leaf, up, m), Pow2(s.hp);
    assert PathLeaves(s, tree, leaf, j, m) == [here.leaf] + rest;
    LeastFirstCons(here.leaf, rest, base);
    assert FromLeastFirst(rest, base) == here.tree by {
      if j < top {
        PathDigits(s, tree, leaf, up, top, m);
        OneDigit(s, tree, leaf, j, up);
      } else {
        assert j == top && rest == [];
      }
    }
  }

  lemma {:induction false} OneDigit(s: Scheme, tree: nat, leaf: nat, j: nat, up: nat)
    requires up == j + 1
    ensures KeyAt(s, tree, leaf, j).tree == KeyAt(s, tree, leaf, up).leaf + Pow2(s.hp) * KeyAt(s, tree, leaf, up).tree
  {
    ShrIsDivision(KeyAt(s, tree, leaf, j).tree, s.hp);
  }

  lemma {:induction false} LeastFirstCons(d: nat, rest: seq<nat>, base: nat)
    ensures FromLeastFirst([d] + rest, base) == d + base * FromLeastFirst(rest, base)
  {
    assert ([d] + rest)[1..] == rest;
  }

  lemma {:induction false} PathLeavesBelow(s: Scheme, tree: nat, leaf: nat, j: nat, m: nat)
    requires leaf < Pow2(s.hp)
    ensures |PathLeaves(s, tree, leaf, j, m)| == (if j < m then m - j else 0)
    ensures Below(PathLeaves(s, tree, leaf, j, m), Pow2(s.hp))
    decreases m - j
  {
    if j < m {
      LeafInRange(s, tree, leaf, j);
      PathLeavesBelow(s, tree, leaf, j + 1, m);
    }
  }

  // ---- the verifier repeats what the signer did -----------------------------------------------

  lemma {:induction false} ChainRepeats(th: Tweak, key: Key, c: nat, d: nat, rest: nat, top: nat, value: Bytes)
    requires d + rest == top
    ensures Within(ChainCalls(th, key, c, d, rest, Chain(th, key, c, 0, d, value)),
                   ChainCalls(th, key, c, 0, top, value))
  {
    ChainCallsCompose(th, key, c, 0, d, rest, value);
  }

  /** Completing honest chains repeats calls that made the public chain tops. */
  lemma {:induction false} ChainsRepeat(s: Scheme, sk: Secrets, key: Key, ds: seq<nat>, m: nat)
    requires s.w > 0 && DigitsOk(s, ds) && m <= s.len
    ensures Within(RecoveredCalls(s, key, ds, SignedChunks(s, sk, key, ds), m), PublicCalls(s, sk, key, m))
  {
    if m > 0 {
      var i := m - 1;
      ChainsRepeat(s, sk, key, ds, i);
      ChainRepeats(s.th, key, i, ds[i], s.w - 1 - ds[i], s.w - 1, sk.wots(key, i));
    }
  }

  lemma {:induction false} LeavesContain(s: Scheme, sk: Secrets, layer: nat, tree: nat, m: nat, j: nat)
    requires s.w > 0 && j < m
    ensures Within(LeafCalls(s, sk, Key(layer, tree, j)), LeavesCalls(s, sk, layer, tree, m))
  {
    var i := m - 1;
    if j < i {
      LeavesContain(s, sk, layer, tree, i, j);
    }
    assert LeavesCalls(s, sk, layer, tree, m)
           == LeavesCalls(s, sk, layer, tree, i) + LeafCalls(s, sk, Key(layer, tree, i));
  }

  lemma {:induction false} XmssRepeats(s: Scheme, sk: Secrets, key: Key, msg: Bytes)
    requires Valid(s) && SecretsOk(s, sk) && DigitsOk(s, s.digits(msg)) && key.leaf < Pow2(s.hp)
    ensures Within(RecoveredRootCalls(s, key, msg, XmssSign(s, sk, key, msg)),
                   XmssTreeCalls(s, sk, key.layer, key.tree))
  {
    var adr, leaves := TreeAdr(key.layer, key.tree), XmssLeaves(s, sk, key.layer, key.tree);
    ChainsRepeat(s, sk, key, s.digits(msg), s.len);
    TopsRecovered(s, sk, key, s.digits(msg));
    LeavesContain(s, sk, key.layer, key.tree, Pow2(s.hp), key.leaf);
    HonestClimbInTree(s.th, adr, leaves, 0, key.leaf, s.hp, key.leaf, s.hp);
    assert Within(HonestClimb(s.th, adr, leaves, key.leaf, s.hp), TreeCalls(s.th, adr, leaves, 0, s.hp, s.hp));
    assert Within(LeafCalls(s, sk, key), LeavesCalls(s, sk, key.layer, key.tree, Pow2(s.hp)));
  }

  lemma {:induction false} LayerRepeats(s: Scheme, sk: Secrets, msg: Bytes, tree: nat, leaf: nat, j: nat)
    requires Valid(s) && SecretsOk(s, sk) && |msg| == s.n && leaf < Pow2(s.hp)
    ensures |HonestPayload(s, sk, msg, tree, leaf, j)| == s.n
    ensures Within(RecoveredRootCalls(s, KeyAt(s, tree, leaf, j), HonestPayload(s, sk, msg, tree, leaf, j),
                                      HtSignLayer(s, sk, msg, tree, leaf, j)),
                   SignLayerCalls(s, sk, msg, tree, leaf, j))
  {
    HonestPayloadSize(s, sk, msg, tree, leaf, j);
    LeafInRange(s, tree, leaf, j);
    XmssRepeats(s, sk, KeyAt(s, tree, leaf, j), HonestPayload(s, sk, msg, tree, leaf, j));
  }

  /** Verifying an honest hypertree signature makes no hash call the signer did not make. */
  lemma {:induction false} HtRepeats(s: Scheme, sk: Secrets, msg: Bytes, tree: nat, leaf: nat, m: nat, j: nat)
    requires Valid(s) && SecretsOk(s, sk) && |msg| == s.n && j <= m && leaf < Pow2(s.hp)
    ensures Within(PayloadCalls(s, msg, tree, leaf, HtSign(s, sk, msg, tree, leaf, m), j),
                   HtSignCalls(s, sk, msg, tree, leaf, j))
  {
    if j > 0 {
      var i, sigs := j - 1, HtSign(s, sk, msg, tree, leaf, m);
      HtRepeats(s, sk, msg, tree, leaf, m, i);
      HtRecovered(s, sk, msg, tree, leaf, m, i);
      LayerRepeats(s, sk, msg, tree, leaf, i);
      WithinParts(PayloadCalls(s, msg, tree, leaf, sigs, i), HtSignCalls(s, sk, msg, tree, leaf, i),
                  LayerCalls(s, msg, tree, leaf, sigs, i), SignLayerCalls(s, sk, msg, tree, leaf, i));
      LastLayer(s, msg, tree, leaf, sigs, i, j);
      LastSigned(s, sk, msg, tree, leaf, i);
    }
  }

  lemma {:induction false} ForsLeafIn(s: Scheme, sk: Secrets, key: Key, lo: nat, m: nat, i: nat)
    requires i < m
    ensures Call(ForsNode(key, 0, lo + i), sk.fors(key, lo + i)) in ForsLeavesCalls(s, sk, key, lo, m)
  {
    if i < m - 1 {
      ForsLeafIn(s, sk, key, lo, m - 1, i);
    }
  }

  lemma {:induction false} ForsTreeRepeats(s: Scheme, sk: Secrets, key: Key, t: nat, i: nat)
    requires i < Pow2(s.a)
    ensures Within(ForsClimbCalls(s, key, ForsLeaf(s, t, i), ForsSignTree(s, sk, key, ForsLeaf(s, t, i))),
                   ForsTreeCalls(s, sk, key, t))
  {
    var g := ForsLeaf(s, t, i);
    ForsLeafIn(s, sk, key, t * Pow2(s.a), Pow2(s.a), i);
    HonestClimbInTree(s.th, ForsAdr(key), ForsLeaves(s, sk, key), t, i, s.a, g, s.a);
    assert ForsClimbCalls(s, key, g, ForsSignTree(s, sk, key, g))
        == [Call(ForsNode(key, 0, g), sk.fors(key, g))]
         + HonestClimb(s.th, ForsAdr(key), ForsLeaves(s, sk, key), g, s.a);
  }

  lemma {:induction false} LastForsTree(s: Scheme, sk: Secrets, key: Key, indices: seq<nat>, parts: seq<ForsPart>,
                                        t: nat, m: nat)
    requires |indices| == |parts| == s.k && m == t + 1 <= s.k
    ensures ForsClimbsCalls(s, key, indices, parts, m)
         == ForsClimbsCalls(s, key, indices, parts, t) + ForsClimbCalls(s, key, ForsLeaf(s, t, indices[t]), parts[t])
    ensures ForsSignCalls(s, sk, key, m) == ForsSignCalls(s, sk, key, t) + ForsTreeCalls(s, sk, key, t)
  {
  }

  lemma {:induction false} ForestRepeats(s: Scheme, sk: Secrets, key: Key, indices: seq<nat>, m: nat)
    requires |indices| == s.k && m <= s.k
    requires forall t :: 0 <= t < s.k ==> indices[t] < Pow2(s.a)
    ensures Within(ForsClimbsCalls(s, key, indices, ForsSign(s, sk, key, indices), m), ForsSignCalls(s, sk, key, m))
  {
    if m > 0 {
      var t := m - 1;
      var g, parts := ForsLeaf(s, t, indices[t]), ForsSign(s, sk, key, indices);
      ForestRepeats(s, sk, key, indices, t);
      ForsTreeRepeats(s, sk, key, t, indices[t]);
      WithinParts(ForsClimbsCalls(s, key, indices, parts, t), ForsSignCalls(s, sk, key, t),
                  ForsClimbCalls(s, key, g, parts[t]), ForsTreeCalls(s, sk, key, t));
      LastForsTree(s, sk, key, indices, parts, t, m);
    }
  }
}
