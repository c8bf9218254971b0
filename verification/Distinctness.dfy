/** A verifier never evaluates two hashes at one address in one run. */
module Distinctness {
  import opened ByteStrings
  import opened Bits
  import opened Tweaks
  import opened Chains
  import opened Merkle
  import opened Schemes
  import opened Naming

  ghost predicate Distinct(calls: seq<Call>) {
    forall i, j :: 0 <= i < j < |calls| ==> calls[i].adrs != calls[j].adrs
  }

  ghost predicate Apart(xs: seq<Call>, ys: seq<Call>) {
    forall x, y :: x in xs && y in ys ==> x.adrs != y.adrs
  }

  lemma {:induction false} DistinctConcat(xs: seq<Call>, ys: seq<Call>)
    requires Distinct(xs) && Distinct(ys) && Apart(xs, ys)
    ensures Distinct(xs + ys)
  {
    var zs := xs + ys;
    forall i, j | 0 <= i < j < |zs|
      ensures zs[i].adrs != zs[j].adrs
    {
      if i < |xs| <= j {
        assert zs[i] in xs && zs[j] in ys;
      }
    }
  }

  lemma {:induction false} DistinctOne(xs: seq<Call>, c: Call)
    requires Distinct(xs) && forall x :: x in xs ==> x.adrs != c.adrs
    ensures Distinct(xs + [c])
  {
    DistinctConcat(xs, [c]);
  }

  // ---- one key ----------------------------------------------------------------------------------

  ghost predicate OnChain(calls: seq<Call>, key: Key, c: nat, lo: nat, hi: nat) {
    forall x :: x in calls ==> x.adrs.WotsHash? && x.adrs.key == key && x.adrs.chain == c && lo <= x.adrs.hash < hi
  }

  lemma {:induction false} ChainDistinct(th: Tweak, key: Key, c: nat, start: nat, steps: nat, value: Bytes)
    ensures OnChain(ChainCalls(th, key, c, start, steps, value), key, c, start, start + steps)
    ensures Distinct(ChainCalls(th, key, c, start, steps, value))
  {
    if steps > 0 {
      ChainDistinct(th, key, c, start, steps - 1, value);
      DistinctOne(ChainCalls(th, key, c, start, steps - 1, value),
                  Call(WotsHash(key, c, start + steps - 1), Chain(th, key, c, start, steps - 1, value)));
    }
  }

  /** All calls are chain steps of the key, on chains below m, at hash positions below top. */
  ghost predicate OnChains(calls: seq<Call>, key: Key, m: nat, top: nat) {
    forall x :: x in calls ==> x.adrs.WotsHash? && x.adrs.key == key && x.adrs.chain < m && x.adrs.hash < top
  }

  lemma {:induction false} ChainsDistinct(s: Scheme, key: Key, ds: seq<nat>, sig: seq<Bytes>, m: nat)
    requires DigitsOk(s, ds) && |sig| == s.len && m <= s.len
    ensures OnChains(RecoveredCalls(s, key, ds, sig, m), key, m, s.w)
    ensures Distinct(RecoveredCalls(s, key, ds, sig, m))
  {
    if m > 0 {
      var c := m - 1;
      ChainsDistinct(s, key, ds, sig, c);
      ChainDistinct(s.th, key, c, ds[c], s.w - 1 - ds[c], sig[c]);
      DistinctConcat(RecoveredCalls(s, key, ds, sig, c), ChainCalls(s.th, key, c, ds[c], s.w - 1 - ds[c], sig[c]));
    }
  }

  /** All calls are nodes of one XMSS tree, at heights 1..top. */
  ghost predicate InXmssTree(calls: seq<Call>, layer: nat, tree: nat, top: nat) {
    forall x :: x in calls ==>
      x.adrs.TreeNode? && x.adrs.layer == layer && x.adrs.tree == tree && 1 <= x.adrs.height <= top
  }

  lemma {:induction false} XmssClimbDistinct(th: Tweak, layer: nat, tree: nat, g: nat, value: Bytes, path: seq<Bytes>)
    ensures InXmssTree(ClimbCalls(th, TreeAdr(layer, tree), g, value, path), layer, tree, |path|)
    ensures Distinct(ClimbCalls(th, TreeAdr(layer, tree), g, value, path))
    ensures forall x :: x in ClimbCalls(th, TreeAdr(layer, tree), g, value, path) ==> x.adrs.index <= g
  {
    if path != [] {
      var h := |path| - 1;
      XmssClimbDistinct(th, layer, tree, g, value, path[..h]);
      ShrShrinks(g, h + 1);
      DistinctOne(ClimbCalls(th, TreeAdr(layer, tree), g, value, path[..h]),
                  Call(TreeNode(layer, tree, h + 1, Shr(g, h + 1)),
                       Ordered(Shr(g, h), Climb(th, TreeAdr(layer, tree), g, value, path[..h]), path[h])));
    }
  }

  // ---- the hypertree ----------------------------------------------------------------------------

  predicate KeySmall(s: Scheme, key: Key, bound: nat) {
    key.layer < s.d && key.tree < bound && key.leaf < Pow2(s.hp)
  }

  /** An address of layer j, with every field in the scheme's range. */
  predicate AtLayer(s: Scheme, adrs: Address, j: nat, bound: nat) {
    match adrs
    case WotsHash(key, c, i) => key.layer == j && KeySmall(s, key, bound) && c < s.len && i < s.w
    case WotsPk(key) => key.layer == j && KeySmall(s, key, bound)
    case TreeNode(layer, tree, h, i) =>
      layer == j && KeySmall(s, Key(layer, tree, 0), bound) && 1 <= h <= s.hp && i < Pow2(s.hp)
    case ForsNode(_, _, _) => false
    case ForsRoots(_) => false
  }

  ghost predicate AllAtLayer(s: Scheme, calls: seq<Call>, j: nat, bound: nat) {
    forall x :: x in calls ==> AtLayer(s, x.adrs, j, bound)
  }

  lemma {:induction false} RootDistinct(s: Scheme, key: Key, msg: Bytes, sig: XmssSig, bound: nat)
    requires DigitsOk(s, s.digits(msg)) && |sig.wots| == s.len && |sig.auth| == s.hp && KeySmall(s, key, bound)
    ensures Distinct(RecoveredRootCalls(s, key, msg, sig))
    ensures AllAtLayer(s, RecoveredRootCalls(s, key, msg, sig), key.layer, bound)
  {
    var ds := s.digits(msg);
    var tops := RecoveredTops(s, key, ds, sig.wots);
    var chains := RecoveredCalls(s, key, ds, sig.wots, s.len);
    var compress := Call(WotsPk(key), Flatten(tops));
    var climb := ClimbCalls(s.th, TreeAdr(key.layer, key.tree), key.leaf, LeafValue(s, key, tops), sig.auth);
    ChainsDistinct(s, key, ds, sig.wots, s.len);
    XmssClimbDistinct(s.th, key.layer, key.tree, key.leaf, LeafValue(s, key, tops), sig.auth);
    DistinctOne(chains, compress);
    DistinctConcat(chains + [compress], climb);
    AllThreeAtLayer(s, key, chains, compress, climb, bound);
  }

  lemma {:induction false} AllThreeAtLayer(s: Scheme, key: Key, chains: seq<Call>, compress: Call, climb: seq<Call>,
                                           bound: nat)
    requires KeySmall(s, key, bound) && OnChains(chains, key, s.len, s.w) && compress.adrs == WotsPk(key)
    requires InXmssTree(climb, key.layer, key.tree, s.hp) && forall x :: x in climb ==> x.adrs.index <= key.leaf
    ensures AllAtLayer(s, chains + [compress] + climb, key.layer, bound)
  {
  }

  /** All calls belong to layers below m. */
  ghost predicate BelowLayer(s: Scheme, calls: seq<Call>, m: nat, bound: nat) {
    forall x :: x in calls ==> exists j: nat :: j < m && AtLayer(s, x.adrs, j, bound)
  }

  ghost predicate LayersDone(s: Scheme, msg: Bytes, tree: nat, leaf: nat, sigs: seq<XmssSig>, m: nat, bound: nat)
    requires Valid(s) && |msg| == s.n && HtShaped(s, sigs) && m <= s.d
  {
    var calls := PayloadCalls(s, msg, tree, leaf, sigs, m);
    Distinct(calls) && BelowLayer(s, calls, m, bound)
  }

  lemma {:induction false} PayloadDistinct(s: Scheme, msg: Bytes, tree: nat, leaf: nat, sigs: seq<XmssSig>, m: nat,
                                           bound: nat)
    requires Valid(s) && |msg| == s.n && HtShaped(s, sigs) && m <= s.d && tree < bound && leaf < Pow2(s.hp)
    ensures LayersDone(s, msg, tree, leaf, sigs, m, bound)
  {
    if m > 0 {
      var j: nat := m - 1;
      PayloadDistinct(s, msg, tree, leaf, sigs, j, bound);
      OneLayerUp(s, msg, tree, leaf, sigs, j, m, bound);
    }
  }

  lemma {:induction false} OneLayerUp(s: Scheme, msg: Bytes, tree: nat, leaf: nat, sigs: seq<XmssSig>, j: nat, m: nat,
                                      bound: nat)
    requires Valid(s) && |msg| == s.n && HtShaped(s, sigs) && m == j + 1 <= s.d && tree < bound && leaf < Pow2(s.hp)
    requires LayersDone(s, msg, tree, leaf, sigs, j, bound)
    ensures LayersDone(s, msg, tree, leaf, sigs, m, bound)
  {
    var below, here := PayloadCalls(s, msg, tree, leaf, sigs, j), LayerCalls(s, msg, tree, leaf, sigs, j);
    LayerDistinct(s, msg, tree, leaf, sigs, j, bound);
    LayersJoin(s, below, here, j, m, bound);
    LastLayer(s, msg, tree, leaf, sigs, j, m);
  }

  lemma {:induction false} LayerDistinct(s: Scheme, msg: Bytes, tree: nat, leaf: nat, sigs: seq<XmssSig>, j: nat,
                                         bound: nat)
    requires Valid(s) && |msg| == s.n && HtShaped(s, sigs) && j < s.d && tree < bound && leaf < Pow2(s.hp)
    ensures Distinct(LayerCalls(s, msg, tree, leaf, sigs, j))
    ensures AllAtLayer(s, LayerCalls(s, msg, tree, leaf, sigs, j), j, bound)
  {
    KeyAtSmall(s, tree, leaf, j, bound);
    RootDistinct(s, KeyAt(s, tree, leaf, j), Payload(s, msg, tree, leaf, sigs, j), sigs[j], bound);
  }

  lemma {:induction false} KeyAtSmall(s: Scheme, tree: nat, leaf: nat, j: nat, bound: nat)
    requires j < s.d && tree < bound && leaf < Pow2(s.hp)
    ensures KeySmall(s, KeyAt(s, tree, leaf, j), bound)
  {
    if j > 0 {
      KeyAtSmall(s, tree, leaf, j - 1, bound);
      ShrShrinks(KeyAt(s, tree, leaf, j - 1).tree, s.hp);
    }
  }

  lemma {:induction false} LayersJoin(s: Scheme, below: seq<Call>, here: seq<Call>, j: nat, m: nat, bound: nat)
    requires BelowLayer(s, below, j, bound) && AllAtLayer(s, here, j, bound) && Distinct(below) && Distinct(here)
    requires m == j + 1
    ensures Distinct(below + here) && BelowLayer(s, below + here, m, bound)
  {
    forall x, y | x in below && y in here
      ensures x.adrs != y.adrs
    {
      var i: nat :| i < j && AtLayer(s, x.adrs, i, bound);
      assert AtLayer(s, y.adrs, j, bound);
    }
    DistinctConcat(below, here);
    forall x | x in below + here
      ensures exists i: nat :: i < m && AtLayer(s, x.adrs, i, bound)
    {
      if x in below {
        var i: nat :| i < j && AtLayer(s, x.adrs, i, bound);
      } else {
        assert AtLayer(s, x.adrs, j, bound);
      }
    }
  }

  // ---- the forest ---------------------------------------------------------------------------------

  /** Node i at height h lies in tree t of the forest. */
  predicate InForsTree(s: Scheme, adrs: Address, key: Key, t: nat) {
    && adrs.ForsNode? && adrs.key == key && adrs.height <= s.a
    && t * Pow2(s.a - adrs.height) <= adrs.index < (t + 1) * Pow2(s.a - adrs.height)
  }

  ghost predicate AllInForsTree(s: Scheme, calls: seq<Call>, key: Key, t: nat) {
    forall x :: x in calls ==> InForsTree(s, x.adrs, key, t)
  }

  ghost predicate HeightsUpTo(calls: seq<Call>, h: nat) {
    forall x :: x in calls ==> x.adrs.ForsNode? && x.adrs.height <= h
  }

  lemma {:induction false} ClimbStaysInTree(s: Scheme, key: Key, t: nat, i: nat, h: nat)
    requires i < Pow2(s.a) && h <= s.a
    ensures InForsTree(s, ForsNode(key, h, Shr(ForsLeaf(s, t, i), h)), key, t)
  {
    var p := Pow2(s.a - h);
    ShrOfOffset(t, i, s.a, h);
    ShrBound(i, s.a, h);
    assert (t + 1) * p == t * p + p;
  }

  lemma {:induction false} ForsClimbDistinct(s: Scheme, key: Key, t: nat, i: nat, first: Call, value: Bytes,
                                             path: seq<Bytes>)
    requires i < Pow2(s.a) && |path| <= s.a && first.adrs == ForsNode(key, 0, ForsLeaf(s, t, i))
    ensures var calls := [first] + ClimbCalls(s.th, ForsAdr(key), ForsLeaf(s, t, i), value, path);
            Distinct(calls) && AllInForsTree(s, calls, key, t) && HeightsUpTo(calls, |path|)
  {
    var g := ForsLeaf(s, t, i);
    if path == [] {
      ClimbStaysInTree(s, key, t, i, 0);
    } else {
      var h := |path| - 1;
      var below := [first] + ClimbCalls(s.th, ForsAdr(key), g, value, path[..h]);
      var last := Call(ForsNode(key, h + 1, Shr(g, h + 1)),
                       Ordered(Shr(g, h), Climb(s.th, ForsAdr(key), g, value, path[..h]), path[h]));
      ForsClimbDistinct(s, key, t, i, first, value, path[..h]);
      ClimbStaysInTree(s, key, t, i, h + 1);
      DistinctOne(below, last);
      assert [first] + ClimbCalls(s.th, ForsAdr(key), g, value, path) == below + [last];
    }
  }

  ghost predicate BelowForsTree(s: Scheme, calls: seq<Call>, key: Key, m: nat) {
    forall x :: x in calls ==> exists t: nat :: t < m && InForsTree(s, x.adrs, key, t)
  }

  lemma {:induction false} TreesApart(s: Scheme, below: seq<Call>, here: seq<Call>, key: Key, m: nat, up: nat)
    requires up == m + 1 && BelowForsTree(s, below, key, m) && AllInForsTree(s, here, key, m)
    ensures Apart(below, here)
    ensures BelowForsTree(s, below + here, key, up)
  {
    forall x, y | x in below && y in here
      ensures x.adrs != y.adrs
    {
      var t: nat :| t < m && InForsTree(s, x.adrs, key, t);
      assert InForsTree(s, y.adrs, key, m);
      MulMonotone(t + 1, m, Pow2(s.a - x.adrs.height));
    }
    forall x | x in below + here
      ensures exists t: nat :: t < up && InForsTree(s, x.adrs, key, t)
    {
      if x in below {
        var t: nat :| t < m && InForsTree(s, x.adrs, key, t);
      } else {
        assert InForsTree(s, x.adrs, key, m);
      }
    }
  }

  ghost predicate TreesDone(s: Scheme, key: Key, calls: seq<Call>, m: nat) {
    Distinct(calls) && BelowForsTree(s, calls, key, m)
  }

  /** Indices and paths have the forest's shape. */
  ghost predicate ForestShaped(s: Scheme, indices: seq<nat>, parts: seq<ForsPart>) {
    && |indices| == |parts| == s.k
    && forall t :: 0 <= t < s.k ==> TreeShaped(s, indices[t], parts[t])
  }

  predicate TreeShaped(s: Scheme, index: nat, part: ForsPart) {
    index < Pow2(s.a) && |part.auth| == s.a
  }

  lemma {:induction false} ForestDistinct(s: Scheme, key: Key, indices: seq<nat>, parts: seq<ForsPart>, m: nat)
    requires ForestShaped(s, indices, parts) && m <= s.k
    ensures TreesDone(s, key, ForsClimbsCalls(s, key, indices, parts, m), m)
  {
    if m > 0 {
      var t := m - 1;
      ForestDistinct(s, key, indices, parts, t);
      TreeAdded(s, key, indices, parts, t);
    }
  }

  lemma {:induction false} TreeAdded(s: Scheme, key: Key, indices: seq<nat>, parts: seq<ForsPart>, t: nat)
    requires ForestShaped(s, indices, parts) && t < s.k
    requires TreesDone(s, key, ForsClimbsCalls(s, key, indices, parts, t), t)
    ensures TreesDone(s, key, ForsClimbsCalls(s, key, indices, parts, t + 1), t + 1)
  {
    var index, part := indices[t], parts[t];
    assert TreeShaped(s, index, part);
    LastClimb(s, key, indices, parts, t);
    OneMoreTree(s, key, t, t + 1, index, ForsLeaf(s, t, index), part, ForsClimbsCalls(s, key, indices, parts, t));
  }

  lemma {:induction false} LastClimb(s: Scheme, key: Key, indices: seq<nat>, parts: seq<ForsPart>, t: nat)
    requires |indices| == |parts| == s.k && t < s.k
    ensures ForsClimbsCalls(s, key, indices, parts, t + 1)
         == ForsClimbsCalls(s, key, indices, parts, t)
          + ForsClimbCalls(s, key, ForsLeaf(s, t, indices[t]), parts[t])
  {
  }

  lemma {:induction false} OneMoreTree(s: Scheme, key: Key, t: nat, m: nat, index: nat, g: nat, part: ForsPart,
                                       below: seq<Call>)
    requires m == t + 1 && index < Pow2(s.a) && g == ForsLeaf(s, t, index) && |part.auth| == s.a
    requires TreesDone(s, key, below, t)
    ensures TreesDone(s, key, below + ForsClimbCalls(s, key, g, part), m)
  {
    var here, leaf := ForsClimbCalls(s, key, g, part), ForsNode(key, 0, g);
    ForsClimbDistinct(s, key, t, index, Call(leaf, part.secret), s.th(leaf, part.secret), part.auth);
    TreesApart(s, below, here, key, t, m);
    DistinctConcat(below, here);
  }

  /** Every address of the FORS part of a verification. */
  predicate InForest(s: Scheme, adrs: Address, key: Key) {
    match adrs
    case ForsNode(k, h, i) => k == key && h <= s.a && i < s.k * Pow2(s.a)
    case ForsRoots(k) => k == key
    case _ => false
  }

  lemma {:induction false} ForsDistinct(s: Scheme, key: Key, indices: seq<nat>, parts: seq<ForsPart>)
    requires ForestShaped(s, indices, parts)
    ensures Distinct(ForsRecoveredCalls(s, key, indices, parts))
    ensures forall x :: x in ForsRecoveredCalls(s, key, indices, parts) ==> InForest(s, x.adrs, key)
  {
    var climbs := ForsClimbsCalls(s, key, indices, parts, s.k);
    var last := Call(ForsRoots(key), Flatten(ForsRecoveredRoots(s, key, indices, parts)));
    ForestDistinct(s, key, indices, parts, s.k);
    assert TreesDone(s, key, climbs, s.k);
    forall x | x in climbs
      ensures x.adrs.ForsNode? && InForest(s, x.adrs, key)
    {
      var t: nat :| t < s.k && InForsTree(s, x.adrs, key, t);
      TreeInForest(s, x.adrs, key, t, Pow2(s.a - x.adrs.height));
    }
    DistinctOne(climbs, last);
  }

  lemma {:induction false} TreeInForest(s: Scheme, adrs: Address, key: Key, t: nat, p: nat)
    requires t < s.k && InForsTree(s, adrs, key, t) && p == Pow2(s.a - adrs.height)
    ensures InForest(s, adrs, key)
  {
    MulMonotone(t + 1, s.k, p);
    Pow2Monotone(s.a - adrs.height, s.a);
    MulMonotone(p, Pow2(s.a), s.k);
  }

  /** FORS and then the hypertree: all addresses of one verification are different. */
  lemma {:induction false} VerificationDistinct(s: Scheme, tree: nat, leaf: nat, forsKey: Key, indices: seq<nat>,
                                                parts: seq<ForsPart>, msg: Bytes, sigs: seq<XmssSig>)
    requires Valid(s) && |msg| == s.n && HtShaped(s, sigs) && leaf < Pow2(s.hp)
    requires ForestShaped(s, indices, parts)
    ensures Distinct(ForsRecoveredCalls(s, forsKey, indices, parts) + PayloadCalls(s, msg, tree, leaf, sigs, s.d))
  {
    var forest, layers := ForsRecoveredCalls(s, forsKey, indices, parts), PayloadCalls(s, msg, tree, leaf, sigs, s.d);
    ForsDistinct(s, forsKey, indices, parts);
    PayloadDistinct(s, msg, tree, leaf, sigs, s.d, tree + 1);
    assert Distinct(layers) && BelowLayer(s, layers, s.d, tree + 1);
    forall x, y | x in forest && y in layers
      ensures x.adrs != y.adrs
    {
      assert InForest(s, x.adrs, forsKey);
      var j: nat :| j < s.d && AtLayer(s, y.adrs, j, tree + 1);
    }
    DistinctConcat(forest, layers);
  }
}
