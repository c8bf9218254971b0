/**
 What a verifier and a signer do, as relations: lists of values in which every step is one hash call
 under a written-out address. Each function of `Chains`, `Merkle` and `Schemes` has exactly the
 outcome of such a run.
 */
module Runs {
  import opened ByteStrings
  import opened Bits
  import opened Tweaks
  import opened Chains
  import opened Merkle
  import opened Schemes
  import opened Binding

  // ---- chains -------------------------------------------------------------------------------------

  /** Each value is the hash of the one before, under the position it is hashed at. */
  ghost predicate ChainRun(th: Tweak, key: Key, c: nat, from: nat, vs: seq<Bytes>) {
    |vs| > 0 && forall k :: 0 <= k < |vs| - 1 ==> HashedOnce(th, key, c, from, vs, k)
  }

  ghost predicate HashedOnce(th: Tweak, key: Key, c: nat, from: nat, vs: seq<Bytes>, k: nat)
    requires k + 1 < |vs|
  {
    vs[k + 1] == th(WotsHash(key, c, from + k), vs[k])
  }

  function ChainValues(th: Tweak, key: Key, c: nat, from: nat, steps: nat, value: Bytes): (vs: seq<Bytes>)
    ensures |vs| == steps + 1
  {
    seq(steps + 1, k requires 0 <= k <= steps => Chain(th, key, c, from, k, value))
  }

  lemma {:induction false} ChainValuesRun(th: Tweak, key: Key, c: nat, from: nat, steps: nat, value: Bytes)
    ensures var vs := ChainValues(th, key, c, from, steps, value); ChainRun(th, key, c, from, vs) && vs[0] == value
  {
  }

  /** The k-th value of a run is k steps along the chain. */
  lemma {:induction false} ChainRunAt(th: Tweak, key: Key, c: nat, from: nat, vs: seq<Bytes>, k: nat)
    requires ChainRun(th, key, c, from, vs) && k < |vs|
    ensures vs[k] == Chain(th, key, c, from, k, vs[0])
  {
    if k > 0 {
      var j := k - 1;
      ChainRunAt(th, key, c, from, vs, j);
      assert HashedOnce(th, key, c, from, vs, j);
    }
  }

  // ---- one WOTS+ signature completed ----------------------------------------------------------------

  /** From position d to the end of the chain; a short end fills its field with zeros. */
  ghost predicate TopRun(s: Scheme, key: Key, i: nat, d: nat, chunk: Bytes, top: Bytes) {
    exists vs :: TopValues(s, key, i, d, chunk, top, vs)
  }

  ghost predicate TopValues(s: Scheme, key: Key, i: nat, d: nat, chunk: Bytes, top: Bytes, vs: seq<Bytes>) {
    d + |vs| == s.w && ChainRun(s.th, key, i, d, vs) && vs[0] == chunk && top == PadTo(vs[|vs| - 1], s.n)
  }

  lemma {:induction false} TopIsRun(s: Scheme, key: Key, i: nat, d: nat, chunk: Bytes, top: Bytes)
    requires d < s.w
    ensures TopRun(s, key, i, d, chunk, top) <==> top == PadTo(Chain(s.th, key, i, d, s.w - 1 - d, chunk), s.n)
  {
    var steps := s.w - 1 - d;
    if TopRun(s, key, i, d, chunk, top) {
      var vs :| TopValues(s, key, i, d, chunk, top, vs);
      ChainRunAt(s.th, key, i, d, vs, steps);
    }
    if top == PadTo(Chain(s.th, key, i, d, steps, chunk), s.n) {
      ChainValuesRun(s.th, key, i, d, steps, chunk);
      assert TopValues(s, key, i, d, chunk, top, ChainValues(s.th, key, i, d, steps, chunk));
    }
  }

  ghost predicate TopsRun(s: Scheme, key: Key, ds: seq<nat>, chunks: seq<Bytes>, tops: seq<Bytes>) {
    && |ds| == |chunks| == |tops| == s.len
    && forall i :: 0 <= i < s.len ==> TopRun(s, key, i, ds[i], chunks[i], tops[i])
  }

  lemma {:induction false} TopsAreRun(s: Scheme, key: Key, ds: seq<nat>, chunks: seq<Bytes>, tops: seq<Bytes>)
    requires DigitsOk(s, ds) && |chunks| == |tops| == s.len
    ensures TopsRun(s, key, ds, chunks, tops) <==> tops == RecoveredTops(s, key, ds, chunks)
  {
    forall i | 0 <= i < s.len
      ensures TopRun(s, key, i, ds[i], chunks[i], tops[i]) <==> tops[i] == RecoveredTops(s, key, ds, chunks)[i]
    {
      TopIsRun(s, key, i, ds[i], chunks[i], tops[i]);
    }
  }

  // ---- one authentication path ------------------------------------------------------------------------

  /** Up from node ns[0] at place g: at height z the parity of g >> z says which child stands left. */
  ghost predicate PathRun(th: Tweak, layer: nat, tree: nat, g: nat, path: seq<Bytes>, ns: seq<Bytes>) {
    |ns| == |path| + 1 && forall z :: 0 <= z < |path| ==> PathStep(th, layer, tree, g, path, ns, z)
  }

  ghost predicate PathStep(th: Tweak, layer: nat, tree: nat, g: nat, path: seq<Bytes>, ns: seq<Bytes>, z: nat)
    requires z < |path| && |ns| == |path| + 1
  {
    ns[z + 1] == th(TreeNode(layer, tree, z + 1, Shr(g, z + 1)),
                    if Shr(g, z) % 2 == 0 then ns[z] + path[z] else path[z] + ns[z])
  }

  function PathValues(th: Tweak, adr: NodeAddress, g: nat, path: seq<Bytes>, value: Bytes): (ns: seq<Bytes>)
    ensures |ns| == |path| + 1
  {
    seq(|path| + 1, z requires 0 <= z <= |path| => Climb(th, adr, g, value, path[..z]))
  }

  lemma {:induction false} PathValuesRun(th: Tweak, layer: nat, tree: nat, g: nat, path: seq<Bytes>, value: Bytes)
    ensures var ns := PathValues(th, TreeAdr(layer, tree), g, path, value);
            PathRun(th, layer, tree, g, path, ns) && ns[0] == value
            && ns[|path|] == Climb(th, TreeAdr(layer, tree), g, value, path)
  {
    var ns := PathValues(th, TreeAdr(layer, tree), g, path, value);
    forall z | 0 <= z < |path|
      ensures PathStep(th, layer, tree, g, path, ns, z)
    {
      ClimbStep(th, TreeAdr(layer, tree), g, value, path, z);
    }
    assert path[..0] == [] && path[..|path|] == path;
  }

  lemma {:induction false} PathRunAt(th: Tweak, layer: nat, tree: nat, g: nat, path: seq<Bytes>, ns: seq<Bytes>, z: nat)
    requires PathRun(th, layer, tree, g, path, ns) && z <= |path|
    ensures ns[z] == Climb(th, TreeAdr(layer, tree), g, ns[0], path[..z])
  {
    if z > 0 {
      var y := z - 1;
      PathRunAt(th, layer, tree, g, path, ns, y);
      assert PathStep(th, layer, tree, g, path, ns, y);
      ClimbStep(th, TreeAdr(layer, tree), g, ns[0], path, y);
    }
  }

  // ---- XMSS -----------------------------------------------------------------------------------------

  /** Chains completed, compressed to the leaf, and the path walked to the root. */
  ghost predicate XmssRun(s: Scheme, key: Key, msg: Bytes, sig: XmssSig, root: Bytes) {
    exists tops, ns :: XmssValues(s, key, msg, sig, root, tops, ns)
  }

  ghost predicate XmssValues(s: Scheme, key: Key, msg: Bytes, sig: XmssSig, root: Bytes, tops: seq<Bytes>,
                             ns: seq<Bytes>) {
    && TopsRun(s, key, s.digits(msg), sig.wots, tops)
    && PathRun(s.th, key.layer, key.tree, key.leaf, sig.auth, ns)
    && ns[0] == s.th(WotsPk(key), Flatten(tops)) && ns[|sig.auth|] == root
  }

  lemma {:induction false} XmssIsRun(s: Scheme, key: Key, msg: Bytes, sig: XmssSig, root: Bytes)
    requires DigitsOk(s, s.digits(msg)) && |sig.wots| == s.len
    ensures XmssRun(s, key, msg, sig, root) <==> root == RecoveredRoot(s, key, msg, sig)
  {
    var ds, adr := s.digits(msg), TreeAdr(key.layer, key.tree);
    var recovered := RecoveredTops(s, key, ds, sig.wots);
    if XmssRun(s, key, msg, sig, root) {
      var tops, ns :| XmssValues(s, key, msg, sig, root, tops, ns);
      TopsAreRun(s, key, ds, sig.wots, tops);
      PathRunAt(s.th, key.layer, key.tree, key.leaf, sig.auth, ns, |sig.auth|);
      assert sig.auth[..|sig.auth|] == sig.auth;
    }
    if root == RecoveredRoot(s, key, msg, sig) {
      TopsAreRun(s, key, ds, sig.wots, recovered);
      PathValuesRun(s.th, key.layer, key.tree, key.leaf, sig.auth, LeafValue(s, key, recovered));
      assert XmssValues(s, key, msg, sig, root, recovered,
                        PathValues(s.th, adr, key.leaf, sig.auth, LeafValue(s, key, recovered)));
    }
  }

  // ---- the hypertree ----------------------------------------------------------------------------------

  /** The key pair of layer j: the bits of the path position above layer j - 1, taken hp at a time. */
  function PathKey(hp: nat, tree: nat, leaf: nat, j: nat): Key {
    if j == 0 then Key(0, tree, leaf) else Key(j, Shr(tree, j * hp), Shr(tree, (j - 1) * hp) % Pow2(hp))
  }

  lemma {:induction false} KeyIsPathKey(s: Scheme, tree: nat, leaf: nat, j: nat)
    ensures KeyAt(s, tree, leaf, j) == PathKey(s.hp, tree, leaf, j)
  {
    if j > 0 {
      var i := j - 1;
      KeyIsPathKey(s, tree, leaf, i);
      assert j * s.hp == i * s.hp + s.hp;
      ShrSum(tree, i * s.hp, s.hp);
    }
  }

  /** ps[0] is certified by the bottom layer, and the root of each layer by the next. */
  ghost predicate HtRun(s: Scheme, tree: nat, leaf: nat, sigs: seq<XmssSig>, ps: seq<Bytes>) {
    && |ps| == |sigs| + 1
    && forall j :: 0 <= j < |sigs| ==> LayerRun(s, tree, leaf, sigs, ps, j)
  }

  ghost predicate LayerRun(s: Scheme, tree: nat, leaf: nat, sigs: seq<XmssSig>, ps: seq<Bytes>, j: nat)
    requires j < |sigs| && |ps| == |sigs| + 1
  {
    XmssRun(s, PathKey(s.hp, tree, leaf, j), ps[j], sigs[j], ps[j + 1])
  }

  ghost predicate Wide(s: Scheme, sigs: seq<XmssSig>) {
    forall i :: 0 <= i < |sigs| ==> |sigs[i].wots| == s.len
  }

  function Payloads(s: Scheme, msg: Bytes, tree: nat, leaf: nat, sigs: seq<XmssSig>): (ps: seq<Bytes>)
    requires Valid(s) && |msg| == s.n && (forall i :: 0 <= i < |sigs| ==> |sigs[i].wots| == s.len)
    ensures |ps| == |sigs| + 1
  {
    seq(|sigs| + 1, j requires 0 <= j <= |sigs| => Payload(s, msg, tree, leaf, sigs, j))
  }

  lemma {:induction false} PayloadStep(s: Scheme, msg: Bytes, tree: nat, leaf: nat, sigs: seq<XmssSig>, j: nat)
    requires Valid(s) && |msg| == s.n && Wide(s, sigs) && j < |sigs|
    ensures LayerRun(s, tree, leaf, sigs, Payloads(s, msg, tree, leaf, sigs), j)
  {
    KeyIsPathKey(s, tree, leaf, j);
    XmssIsRun(s, KeyAt(s, tree, leaf, j), Payload(s, msg, tree, leaf, sigs, j), sigs[j],
              Payload(s, msg, tree, leaf, sigs, j + 1));
  }

  lemma {:induction false} PayloadsRun(s: Scheme, msg: Bytes, tree: nat, leaf: nat, sigs: seq<XmssSig>)
    requires Valid(s) && |msg| == s.n && Wide(s, sigs)
    ensures HtRun(s, tree, leaf, sigs, Payloads(s, msg, tree, leaf, sigs))
  {
    forall j | 0 <= j < |sigs|
      ensures LayerRun(s, tree, leaf, sigs, Payloads(s, msg, tree, leaf, sigs), j)
    {
      PayloadStep(s, msg, tree, leaf, sigs, j);
    }
  }

  lemma {:induction false} HtRunAt(s: Scheme, tree: nat, leaf: nat, sigs: seq<XmssSig>, ps: seq<Bytes>, j: nat)
    requires Valid(s) && Wide(s, sigs) && HtRun(s, tree, leaf, sigs, ps) && |ps[0]| == s.n && j <= |sigs|
    ensures ps[j] == Payload(s, ps[0], tree, leaf, sigs, j)
  {
    if j > 0 {
      var i := j - 1;
      HtRunAt(s, tree, leaf, sigs, ps, i);
      assert LayerRun(s, tree, leaf, sigs, ps, i);
      HtRunUp(s, tree, leaf, sigs, ps, i);
    }
  }

  lemma {:induction false} HtRunUp(s: Scheme, tree: nat, leaf: nat, sigs: seq<XmssSig>, ps: seq<Bytes>, i: nat)
    requires Valid(s) && Wide(s, sigs) && |ps| == |sigs| + 1 && |ps[0]| == s.n && i < |sigs|
    requires LayerRun(s, tree, leaf, sigs, ps, i) && ps[i] == Payload(s, ps[0], tree, leaf, sigs, i)
    ensures ps[i + 1] == Payload(s, ps[0], tree, leaf, sigs, i + 1)
  {
    KeyIsPathKey(s, tree, leaf, i);
    XmssIsRun(s, KeyAt(s, tree, leaf, i), ps[i], sigs[i], ps[i + 1]);
  }

  // ---- FORS -------------------------------------------------------------------------------------------

  /** The walk up FORS tree t from its leaf idx, nodes numbered across the forest. */
  ghost predicate ForsTreeRun(s: Scheme, key: Key, t: nat, idx: nat, part: ForsPart, root: Bytes) {
    exists ns :: ForsTreeValues(s, key, t, idx, part, root, ns)
  }

  ghost predicate ForsTreeValues(s: Scheme, key: Key, t: nat, idx: nat, part: ForsPart, root: Bytes, ns: seq<Bytes>) {
    && |part.auth| == s.a && |ns| == s.a + 1
    && ns[0] == s.th(ForsNode(key, 0, t * Pow2(s.a) + idx), part.secret)
    && (forall z :: 0 <= z < s.a ==> ForsStep(s, key, t, idx, part, ns, z))
    && ns[s.a] == root
  }

  ghost predicate ForsStep(s: Scheme, key: Key, t: nat, idx: nat, part: ForsPart, ns: seq<Bytes>, z: nat)
    requires z < s.a == |part.auth| && |ns| == s.a + 1
  {
    ns[z + 1] == s.th(ForsNode(key, z + 1, t * Pow2(s.a - z - 1) + Shr(idx, z + 1)),
                      if Shr(idx, z) % 2 == 0 then ns[z] + part.auth[z] else part.auth[z] + ns[z])
  }

  /** The place and the parity a FORS walk uses at height z. */
  lemma {:induction false} ForsPlace(s: Scheme, t: nat, idx: nat, z: nat)
    requires z < s.a && idx < Pow2(s.a)
    ensures Shr(ForsLeaf(s, t, idx), z + 1) == t * Pow2(s.a - z - 1) + Shr(idx, z + 1)
    ensures Shr(ForsLeaf(s, t, idx), z) % 2 == Shr(idx, z) % 2
  {
    var up, parent := z + 1, t * Pow2(s.a - (z + 1)) + Shr(idx, z) / 2;
    ParentIndex(t, idx, s.a, ForsLeaf(s, t, idx), z, up, Shr(idx, z), parent);
  }

  lemma {:induction false} ForsValuesRun(s: Scheme, key: Key, t: nat, idx: nat, part: ForsPart)
    requires idx < Pow2(s.a) && |part.auth| == s.a
    ensures ForsTreeRun(s, key, t, idx, part, ForsClimb(s, key, ForsLeaf(s, t, idx), part))
  {
    var g := ForsLeaf(s, t, idx);
    var value := s.th(ForsNode(key, 0, g), part.secret);
    var ns := PathValues(s.th, ForsAdr(key), g, part.auth, value);
    forall z | 0 <= z < s.a
      ensures ForsStep(s, key, t, idx, part, ns, z)
    {
      ForsValuesStep(s, key, t, idx, part, value, z);
    }
    assert part.auth[..0] == [] && part.auth[..s.a] == part.auth;
    assert ForsTreeValues(s, key, t, idx, part, ForsClimb(s, key, g, part), ns);
  }

  lemma {:induction false} ForsValuesStep(s: Scheme, key: Key, t: nat, idx: nat, part: ForsPart, value: Bytes, z: nat)
    requires idx < Pow2(s.a) && z < s.a == |part.auth|
    ensures ForsStep(s, key, t, idx, part, PathValues(s.th, ForsAdr(key), ForsLeaf(s, t, idx), part.auth, value), z)
  {
    ClimbStep(s.th, ForsAdr(key), ForsLeaf(s, t, idx), value, part.auth, z);
    ForsPlace(s, t, idx, z);
  }

  lemma {:induction false} ForsRunAt(s: Scheme, key: Key, t: nat, idx: nat, part: ForsPart, root: Bytes, ns: seq<Bytes>,
                                     z: nat)
    requires idx < Pow2(s.a) && ForsTreeValues(s, key, t, idx, part, root, ns) && z <= s.a
    ensures ns[z] == Climb(s.th, ForsAdr(key), ForsLeaf(s, t, idx), ns[0], part.auth[..z])
  {
    if z > 0 {
      var y := z - 1;
      ForsRunAt(s, key, t, idx, part, root, ns, y);
      assert ForsStep(s, key, t, idx, part, ns, y);
      ForsRunUp(s, key, t, idx, part, ns, y);
    }
  }

  lemma {:induction false} ForsRunUp(s: Scheme, key: Key, t: nat, idx: nat, part: ForsPart, ns: seq<Bytes>, y: nat)
    requires idx < Pow2(s.a) && y < s.a == |part.auth| && |ns| == s.a + 1 && ForsStep(s, key, t, idx, part, ns, y)
    requires ns[y] == Climb(s.th, ForsAdr(key), ForsLeaf(s, t, idx), ns[0], part.auth[..y])
    ensures ns[y + 1] == Climb(s.th, ForsAdr(key), ForsLeaf(s, t, idx), ns[0], part.auth[..y + 1])
  {
    ClimbStep(s.th, ForsAdr(key), ForsLeaf(s, t, idx), ns[0], part.auth, y);
    ForsPlace(s, t, idx, y);
  }

  lemma {:induction false} ForsTreeIsRun(s: Scheme, key: Key, t: nat, idx: nat, part: ForsPart, root: Bytes)
    requires idx < Pow2(s.a) && |part.auth| == s.a
    ensures ForsTreeRun(s, key, t, idx, part, root) <==> root == ForsClimb(s, key, ForsLeaf(s, t, idx), part)
  {
    ForsValuesRun(s, key, t, idx, part);
    if ForsTreeRun(s, key, t, idx, part, root) {
      var ns :| ForsTreeValues(s, key, t, idx, part, root, ns);
      ForsRunAt(s, key, t, idx, part, root, ns, s.a);
      assert part.auth[..s.a] == part.auth;
    }
  }

  /** All trees walked, their roots compressed. */
  ghost predicate ForsRun(s: Scheme, key: Key, indices: seq<nat>, parts: seq<ForsPart>, pk: Bytes) {
    exists roots :: ForsValues(s, key, indices, parts, pk, roots)
  }

  ghost predicate ForsValues(s: Scheme, key: Key, indices: seq<nat>, parts: seq<ForsPart>, pk: Bytes,
                             roots: seq<Bytes>) {
    && |indices| == |parts| == |roots| == s.k
    && (forall t :: 0 <= t < s.k ==> ForsTreeRun(s, key, t, indices[t], parts[t], roots[t]))
    && pk == s.th(ForsRoots(key), Flatten(roots))
  }

  ghost predicate ForestFits(s: Scheme, indices: seq<nat>, parts: seq<ForsPart>) {
    && |indices| == |parts| == s.k
    && (forall t :: 0 <= t < s.k ==> indices[t] < Pow2(s.a))
    && (forall t :: 0 <= t < s.k ==> |parts[t].auth| == s.a)
  }

  lemma {:induction false} ForsIsRun(s: Scheme, key: Key, indices: seq<nat>, parts: seq<ForsPart>, pk: Bytes)
    requires ForestFits(s, indices, parts)
    ensures ForsRun(s, key, indices, parts, pk) <==> pk == ForsRecovered(s, key, indices, parts)
  {
    var recovered := ForsRecoveredRoots(s, key, indices, parts);
    if ForsRun(s, key, indices, parts, pk) {
      var roots :| ForsValues(s, key, indices, parts, pk, roots);
      forall t | 0 <= t < s.k
        ensures roots[t] == recovered[t]
      {
        ForsTreeIsRun(s, key, t, indices[t], parts[t], roots[t]);
      }
      assert roots == recovered;
    }
    if pk == ForsRecovered(s, key, indices, parts) {
      forall t | 0 <= t < s.k
        ensures ForsTreeRun(s, key, t, indices[t], parts[t], recovered[t])
      {
        ForsTreeIsRun(s, key, t, indices[t], parts[t], recovered[t]);
      }
      assert ForsValues(s, key, indices, parts, pk, recovered);
    }
  }

  // ---- a whole verification -----------------------------------------------------------------------------

  /** FORS key from the parts, certified layer by layer up to the root. */
  ghost predicate VerifyRun(s: Scheme, tree: nat, leaf: nat, key: Key, indices: seq<nat>, parts: seq<ForsPart>,
                            sigs: seq<XmssSig>, root: Bytes) {
    exists ps :: VerifyValues(s, tree, leaf, key, indices, parts, sigs, root, ps)
  }

  ghost predicate VerifyValues(s: Scheme, tree: nat, leaf: nat, key: Key, indices: seq<nat>, parts: seq<ForsPart>,
                               sigs: seq<XmssSig>, root: Bytes, ps: seq<Bytes>) {
    && |sigs| == s.d && HtRun(s, tree, leaf, sigs, ps)
    && ForsRun(s, key, indices, parts, ps[0]) && ps[s.d] == root
  }

  /** The root a verifier derives is the one root such a run leads to. */
  lemma {:induction false} VerificationIsRun(s: Scheme, tree: nat, leaf: nat, key: Key, indices: seq<nat>,
                                             parts: seq<ForsPart>, sigs: seq<XmssSig>, root: Bytes)
    requires Valid(s) && ForestFits(s, indices, parts) && HtShaped(s, sigs)
    ensures VerifyRun(s, tree, leaf, key, indices, parts, sigs, root)
       <==> root == VerificationRoot(s, tree, leaf, key, indices, parts, sigs)
  {
    var pk := ForsRecovered(s, key, indices, parts);
    if VerifyRun(s, tree, leaf, key, indices, parts, sigs, root) {
      var ps :| VerifyValues(s, tree, leaf, key, indices, parts, sigs, root, ps);
      ForsIsRun(s, key, indices, parts, ps[0]);
      HtRunAt(s, tree, leaf, sigs, ps, s.d);
    }
    if root == VerificationRoot(s, tree, leaf, key, indices, parts, sigs) {
      ForsIsRun(s, key, indices, parts, pk);
      PayloadsRun(s, pk, tree, leaf, sigs);
      assert VerifyValues(s, tree, leaf, key, indices, parts, sigs, root, Payloads(s, pk, tree, leaf, sigs));
    }
  }

  // ---- a whole signature ----------------------------------------------------------------------------------

  /** From the secret of a chain, digit steps to the revealed value. */
  ghost predicate ChunkRun(s: Scheme, sk: Secrets, key: Key, i: nat, digit: nat, chunk: Bytes) {
    exists vs :: ChunkValues(s, sk, key, i, digit, chunk, vs)
  }

  ghost predicate ChunkValues(s: Scheme, sk: Secrets, key: Key, i: nat, digit: nat, chunk: Bytes, vs: seq<Bytes>) {
    |vs| == digit + 1 && ChainRun(s.th, key, i, 0, vs) && vs[0] == sk.wots(key, i) && vs[digit] == chunk
  }

  lemma {:induction false} ChunkIsRun(s: Scheme, sk: Secrets, key: Key, i: nat, digit: nat)
    ensures ChunkRun(s, sk, key, i, digit, Chain(s.th, key, i, 0, digit, sk.wots(key, i)))
  {
    ChainValuesRun(s.th, key, i, 0, digit, sk.wots(key, i));
    assert ChunkValues(s, sk, key, i, digit, Chain(s.th, key, i, 0, digit, sk.wots(key, i)),
                       ChainValues(s.th, key, i, 0, digit, sk.wots(key, i)));
  }

  /** A leaf: the ends of all chains of a key pair, compressed. */
  ghost predicate LeafRun(s: Scheme, sk: Secrets, key: Key, leaf: Bytes) {
    exists tops :: LeafTops(s, sk, key, leaf, tops)
  }

  ghost predicate LeafTops(s: Scheme, sk: Secrets, key: Key, leaf: Bytes, tops: seq<Bytes>) {
    && |tops| == s.len && s.w > 0
    && (forall i :: 0 <= i < s.len ==> ChunkRun(s, sk, key, i, s.w - 1, tops[i]))
    && leaf == s.th(WotsPk(key), Flatten(tops))
  }

  /** nodes(h, i) is node i of height h. */
  type Table = (nat, nat) -> Bytes

  ghost predicate XmssTable(s: Scheme, sk: Secrets, layer: nat, tree: nat, nodes: Table) {
    && (forall i: nat {:trigger nodes(0, i)} :: LeafRun(s, sk, Key(layer, tree, i), nodes(0, i)))
    && (forall h: nat, i: nat :: XmssParent(s, layer, tree, nodes, h, i))
  }

  predicate XmssParent(s: Scheme, layer: nat, tree: nat, nodes: Table, h: nat, i: nat) {
    nodes(h + 1, i) == s.th(TreeNode(layer, tree, h + 1, i), nodes(h, 2 * i) + nodes(h, 2 * i + 1))
  }

  function Nodes(th: Tweak, adr: NodeAddress, leaf: nat -> Bytes): Table {
    (h: nat, i: nat) => Node(th, adr, leaf, h, i)
  }

  lemma {:induction false} LeafIsRun(s: Scheme, sk: Secrets, key: Key)
    requires s.w > 0
    ensures LeafRun(s, sk, key, LeafValue(s, key, PublicTops(s, sk, key)))
  {
    var tops := PublicTops(s, sk, key);
    forall i | 0 <= i < s.len
      ensures ChunkRun(s, sk, key, i, s.w - 1, tops[i])
    {
      ChunkIsRun(s, sk, key, i, s.w - 1);
    }
    assert LeafTops(s, sk, key, LeafValue(s, key, tops), tops);
  }

  lemma {:induction false} NodesAreTable(s: Scheme, sk: Secrets, layer: nat, tree: nat)
    requires s.w > 0
    ensures XmssTable(s, sk, layer, tree, Nodes(s.th, TreeAdr(layer, tree), XmssLeaves(s, sk, layer, tree)))
  {
    var nodes := Nodes(s.th, TreeAdr(layer, tree), XmssLeaves(s, sk, layer, tree));
    forall i: nat
      ensures LeafRun(s, sk, Key(layer, tree, i), nodes(0, i))
    {
      LeafIsRun(s, sk, Key(layer, tree, i));
    }
  }

  /** root is the top of the table over all key pairs of a tree. */
  ghost predicate RootRun(s: Scheme, sk: Secrets, layer: nat, tree: nat, root: Bytes) {
    exists nodes :: XmssTable(s, sk, layer, tree, nodes) && root == nodes(s.hp, 0)
  }

  lemma {:induction false} RootIsRun(s: Scheme, sk: Secrets, layer: nat, tree: nat)
    requires s.w > 0
    ensures RootRun(s, sk, layer, tree, XmssRoot(s, sk, layer, tree))
  {
    NodesAreTable(s, sk, layer, tree);
    var nodes := Nodes(s.th, TreeAdr(layer, tree), XmssLeaves(s, sk, layer, tree));
    assert XmssRoot(s, sk, layer, tree) == nodes(s.hp, 0);
  }

  /** Each chain opened at its digit; for each height the other child on the way up. */
  ghost predicate XmssSigned(s: Scheme, sk: Secrets, key: Key, msg: Bytes, sig: XmssSig) {
    && |s.digits(msg)| == |sig.wots| == s.len && |sig.auth| == s.hp
    && (forall i :: 0 <= i < s.len ==> ChunkRun(s, sk, key, i, s.digits(msg)[i], sig.wots[i]))
    && exists nodes :: XmssTable(s, sk, key.layer, key.tree, nodes) && SiblingsIn(nodes, key.leaf, sig.auth)
  }

  ghost predicate SiblingsIn(nodes: Table, g: nat, auth: seq<Bytes>) {
    forall z :: 0 <= z < |auth| ==> auth[z] == nodes(z, if Shr(g, z) % 2 == 0 then Shr(g, z) + 1 else Shr(g, z) - 1)
  }

  lemma {:induction false} PathInTable(th: Tweak, adr: NodeAddress, leaf: nat -> Bytes, g: nat, m: nat)
    ensures SiblingsIn(Nodes(th, adr, leaf), g, AuthPath(th, adr, leaf, g, m))
  {
    forall z | 0 <= z < m
      ensures AuthPath(th, adr, leaf, g, m)[z]
              == Nodes(th, adr, leaf)(z, if Shr(g, z) % 2 == 0 then Shr(g, z) + 1 else Shr(g, z) - 1)
    {
      AuthPathAt(th, adr, leaf, g, m, z);
    }
  }

  lemma {:induction false} XmssSignIsRun(s: Scheme, sk: Secrets, key: Key, msg: Bytes)
    requires s.w > 0 && DigitsOk(s, s.digits(msg))
    ensures XmssSigned(s, sk, key, msg, XmssSign(s, sk, key, msg))
  {
    var sig := XmssSign(s, sk, key, msg);
    forall i | 0 <= i < s.len
      ensures ChunkRun(s, sk, key, i, s.digits(msg)[i], sig.wots[i])
    {
      ChunkIsRun(s, sk, key, i, s.digits(msg)[i]);
    }
    NodesAreTable(s, sk, key.layer, key.tree);
    PathInTable(s.th, TreeAdr(key.layer, key.tree), XmssLeaves(s, sk, key.layer, key.tree), key.leaf, s.hp);
  }

  /** Every layer signs under the key of its place, and is asked to sign the root of the tree below. */
  ghost predicate HtSigned(s: Scheme, sk: Secrets, tree: nat, leaf: nat, sigs: seq<XmssSig>, ps: seq<Bytes>) {
    |ps| == |sigs| == s.d > 0 && forall j :: 0 <= j < s.d ==> LayerSigned(s, sk, tree, leaf, sigs, ps, j)
  }

  ghost predicate LayerSigned(s: Scheme, sk: Secrets, tree: nat, leaf: nat, sigs: seq<XmssSig>, ps: seq<Bytes>, j: nat)
    requires j < |sigs| == |ps|
  {
    && XmssSigned(s, sk, PathKey(s.hp, tree, leaf, j), ps[j], sigs[j])
    && (j > 0 ==> RootRun(s, sk, j - 1, PathKey(s.hp, tree, leaf, j - 1).tree, ps[j]))
  }

  function HonestPayloads(s: Scheme, sk: Secrets, msg: Bytes, tree: nat, leaf: nat): (ps: seq<Bytes>)
    requires s.w > 0
    ensures |ps| == s.d
  {
    seq(s.d, j requires 0 <= j < s.d => HonestPayload(s, sk, msg, tree, leaf, j))
  }

  lemma {:induction false} LayerIsSigned(s: Scheme, sk: Secrets, msg: Bytes, tree: nat, leaf: nat, j: nat)
    requires Valid(s) && |msg| == s.n && j < s.d
    ensures LayerSigned(s, sk, tree, leaf, HtSign(s, sk, msg, tree, leaf, s.d),
                        HonestPayloads(s, sk, msg, tree, leaf), j)
  {
    HonestPayloadSize(s, sk, msg, tree, leaf, j);
    KeyIsPathKey(s, tree, leaf, j);
    XmssSignIsRun(s, sk, KeyAt(s, tree, leaf, j), HonestPayload(s, sk, msg, tree, leaf, j));
    if j > 0 {
      var i := j - 1;
      KeyIsPathKey(s, tree, leaf, i);
      RootIsRun(s, sk, i, KeyAt(s, tree, leaf, i).tree);
    }
  }

  ghost predicate ForsTable(s: Scheme, sk: Secrets, key: Key, nodes: Table) {
    && (forall g: nat :: nodes(0, g) == s.th(ForsNode(key, 0, g), sk.fors(key, g)))
    && (forall h: nat, i: nat :: ForsParent(s, key, nodes, h, i))
  }

  predicate ForsParent(s: Scheme, key: Key, nodes: Table, h: nat, i: nat) {
    nodes(h + 1, i) == s.th(ForsNode(key, h + 1, i), nodes(h, 2 * i) + nodes(h, 2 * i + 1))
  }

  /** In every tree of the forest the secret of the indexed leaf and its siblings; pk compresses all roots. */
  ghost predicate ForsSigned(s: Scheme, sk: Secrets, key: Key, indices: seq<nat>, parts: seq<ForsPart>, pk: Bytes) {
    |indices| == |parts| == s.k && exists nodes :: SignedIn(s, sk, key, indices, parts, pk, nodes)
  }

  ghost predicate SignedIn(s: Scheme, sk: Secrets, key: Key, indices: seq<nat>, parts: seq<ForsPart>, pk: Bytes,
                           nodes: Table)
    requires |indices| == |parts| == s.k
  {
    && ForsTable(s, sk, key, nodes)
    && (forall t :: 0 <= t < s.k ==> PartSigned(s, sk, key, nodes, t * Pow2(s.a) + indices[t], parts[t]))
    && pk == s.th(ForsRoots(key), Flatten(seq(s.k, t requires 0 <= t < s.k => nodes(s.a, t))))
  }

  ghost predicate PartSigned(s: Scheme, sk: Secrets, key: Key, nodes: Table, g: nat, part: ForsPart) {
    part.secret == sk.fors(key, g) && |part.auth| == s.a && SiblingsIn(nodes, g, part.auth)
  }

  lemma {:induction false} ForsIsSigned(s: Scheme, sk: Secrets, key: Key, indices: seq<nat>)
    requires |indices| == s.k
    ensures ForsSigned(s, sk, key, indices, ForsSign(s, sk, key, indices), ForsPk(s, sk, key))
  {
    var parts, nodes := ForsSign(s, sk, key, indices), Nodes(s.th, ForsAdr(key), ForsLeaves(s, sk, key));
    assert ForsTable(s, sk, key, nodes);
    forall t | 0 <= t < s.k
      ensures PartSigned(s, sk, key, nodes, t * Pow2(s.a) + indices[t], parts[t])
    {
      PartIsSigned(s, sk, key, ForsLeaf(s, t, indices[t]));
    }
    assert ForsTreeRoots(s, sk, key) == seq(s.k, t requires 0 <= t < s.k => nodes(s.a, t));
    assert SignedIn(s, sk, key, indices, parts, ForsPk(s, sk, key), nodes);
  }

  lemma {:induction false} PartIsSigned(s: Scheme, sk: Secrets, key: Key, g: nat)
    ensures PartSigned(s, sk, key, Nodes(s.th, ForsAdr(key), ForsLeaves(s, sk, key)), g, ForsSignTree(s, sk, key, g))
  {
    PathInTable(s.th, ForsAdr(key), ForsLeaves(s, sk, key), g, s.a);
  }

  /** The forest signs the indices, the hypertree the compressed forest. */
  ghost predicate SignRun(s: Scheme, sk: Secrets, tree: nat, leaf: nat, key: Key, indices: seq<nat>,
                          parts: seq<ForsPart>, sigs: seq<XmssSig>) {
    exists ps :: HtSigned(s, sk, tree, leaf, sigs, ps) && ForsSigned(s, sk, key, indices, parts, ps[0])
  }

  lemma {:induction false} SigningIsRun(s: Scheme, sk: Secrets, tree: nat, leaf: nat, key: Key, indices: seq<nat>)
    requires Valid(s) && |indices| == s.k && s.d > 0
    ensures |ForsPk(s, sk, key)| == s.n
    ensures SignRun(s, sk, tree, leaf, key, indices, ForsSign(s, sk, key, indices),
                    HtSign(s, sk, ForsPk(s, sk, key), tree, leaf, s.d))
  {
    var pk := ForsPk(s, sk, key);
    var sigs, ps := HtSign(s, sk, pk, tree, leaf, s.d), HonestPayloads(s, sk, pk, tree, leaf);
    ForsIsSigned(s, sk, key, indices);
    forall j | 0 <= j < s.d
      ensures LayerSigned(s, sk, tree, leaf, sigs, ps, j)
    {
      LayerIsSigned(s, sk, pk, tree, leaf, j);
    }
    assert HtSigned(s, sk, tree, leaf, sigs, ps);
  }
}
