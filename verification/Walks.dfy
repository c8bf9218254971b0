/** The states a verifier passes through, for any scheme and any encoding of addresses. */
module Walks {
  import opened ByteStrings
  import opened Bits
  import opened Tweaks
  import opened Chains
  import opened Merkle
  import opened Schemes

  // ---- one FORS tree ------------------------------------------------------------------------------

  /** The walk from a revealed FORS secret after h levels. */
  ghost predicate Climbed(s: Scheme, enc: Address -> Bytes, key: Key, g: nat, part: ForsPart, h: nat, node: Bytes,
                          log: seq<Sent>)
    requires h <= |part.auth|
  {
    var value := s.th(ForsNode(key, 0, g), part.secret);
    && node == Climb(s.th, ForsAdr(key), g, value, part.auth[..h])
    && log == Encoded(enc,
                      [Call(ForsNode(key, 0, g), part.secret)]
                      + ClimbCalls(s.th, ForsAdr(key), g, value, part.auth[..h]))
  }

  lemma {:induction false} ClimbStart(s: Scheme, enc: Address -> Bytes, key: Key, g: nat, part: ForsPart, adrs: Bytes,
                                      node: Bytes)
    requires adrs == enc(ForsNode(key, 0, g)) && node == s.th(ForsNode(key, 0, g), part.secret)
    ensures Climbed(s, enc, key, g, part, 0, node, [Sent(adrs, part.secret)])
  {
    assert part.auth[..0] == [];
  }

  lemma {:induction false} ClimbedOne(s: Scheme, enc: Address -> Bytes, key: Key, g: nat, part: ForsPart, h: nat,
                                      up: nat, parent: nat, node: Bytes, merged: Bytes, log: seq<Sent>, adrs: Bytes,
                                      node': Bytes)
    requires up == h + 1 <= |part.auth| && Climbed(s, enc, key, g, part, h, node, log) && parent == Shr(g, up)
    requires merged == Ordered(Shr(g, h), node, part.auth[h])
    requires adrs == enc(ForsNode(key, up, parent)) && node' == s.th(ForsNode(key, up, parent), merged)
    ensures Climbed(s, enc, key, g, part, up, node', log + [Sent(adrs, merged)])
  {
    var value, first := s.th(ForsNode(key, 0, g), part.secret), [Call(ForsNode(key, 0, g), part.secret)];
    var calls := ClimbCalls(s.th, ForsAdr(key), g, value, part.auth[..h]);
    var call := Call(ForsNode(key, up, parent), merged);
    ClimbStep(s.th, ForsAdr(key), g, value, part.auth, h);
    EncodedOne(enc, first + calls, ForsNode(key, up, parent), merged);
    assert first + (calls + [call]) == first + calls + [call];
  }

  lemma {:induction false} ClimbDone(s: Scheme, enc: Address -> Bytes, key: Key, g: nat, part: ForsPart, h: nat,
                                     node: Bytes, log: seq<Sent>)
    requires h == |part.auth| && Climbed(s, enc, key, g, part, h, node, log)
    ensures node == ForsClimb(s, key, g, part) && log == Encoded(enc, ForsClimbCalls(s, key, g, part))
  {
    assert part.auth[..h] == part.auth;
  }

  // ---- the forest ---------------------------------------------------------------------------------

  /** The roots of the first m FORS trees. */
  ghost predicate RootsWalked(s: Scheme, enc: Address -> Bytes, key: Key, indices: seq<nat>, parts: seq<ForsPart>,
                              m: nat, roots: seq<Bytes>, log: seq<Sent>)
    requires |indices| == |parts| == s.k && m <= s.k
  {
    && roots == ForsRecoveredRoots(s, key, indices, parts)[..m]
    && log == Encoded(enc, ForsClimbsCalls(s, key, indices, parts, m))
  }

  lemma {:induction false} OneMoreRoot(s: Scheme, enc: Address -> Bytes, key: Key, indices: seq<nat>,
                                       parts: seq<ForsPart>, t: nat, m: nat, roots: seq<Bytes>, log: seq<Sent>, g: nat,
                                       part: ForsPart, node: Bytes, calls: seq<Sent>)
    requires |indices| == |parts| == s.k && m == t + 1 <= s.k && RootsWalked(s, enc, key, indices, parts, t, roots, log)
    requires g == ForsLeaf(s, t, indices[t]) && part == parts[t]
    requires node == ForsClimb(s, key, g, part) && calls == Encoded(enc, ForsClimbCalls(s, key, g, part))
    ensures RootsWalked(s, enc, key, indices, parts, m, roots + [node], log + calls)
  {
    var all := ForsRecoveredRoots(s, key, indices, parts);
    assert all[t] == node;
    assert all[..m] == all[..t] + [all[t]];
    EncodedAppend(enc, ForsClimbsCalls(s, key, indices, parts, t), ForsClimbCalls(s, key, g, part));
  }

  lemma {:induction false} ForestDone(s: Scheme, enc: Address -> Bytes, key: Key, indices: seq<nat>,
                                      parts: seq<ForsPart>, m: nat, roots: seq<Bytes>, log: seq<Sent>, adrs: Bytes,
                                      all: Bytes, root: Bytes)
    requires |indices| == |parts| == s.k && m == s.k && all == Flatten(roots)
    requires RootsWalked(s, enc, key, indices, parts, m, roots, log)
    requires adrs == enc(ForsRoots(key)) && root == s.th(ForsRoots(key), all)
    ensures root == ForsRecovered(s, key, indices, parts)
    ensures log + [Sent(adrs, all)] == Encoded(enc, ForsRecoveredCalls(s, key, indices, parts))
  {
    assert roots == ForsRecoveredRoots(s, key, indices, parts);
    EncodedOne(enc, ForsClimbsCalls(s, key, indices, parts, s.k), ForsRoots(key), all);
  }

  // ---- XMSS and the hypertree ---------------------------------------------------------------------

  /** Chains, compression and climb are the whole derivation of a root. */
  lemma {:induction false} RootLog(s: Scheme, enc: Address -> Bytes, key: Key, msg: Bytes, sig: XmssSig,
                                   chains: seq<Sent>, wpk: Bytes, climb: seq<Sent>)
    requires DigitsOk(s, s.digits(msg)) && |sig.wots| == s.len
    requires wpk == Flatten(RecoveredTops(s, key, s.digits(msg), sig.wots))
    requires chains == Encoded(enc, RecoveredCalls(s, key, s.digits(msg), sig.wots, s.len))
    requires climb
             == Encoded(enc, ClimbCalls(s.th, TreeAdr(key.layer, key.tree), key.leaf, s.th(WotsPk(key), wpk), sig.auth))
    ensures chains + [Sent(enc(WotsPk(key)), wpk)] + climb == Encoded(enc, RecoveredRootCalls(s, key, msg, sig))
  {
    var a := RecoveredCalls(s, key, s.digits(msg), sig.wots, s.len);
    var b := ClimbCalls(s.th, TreeAdr(key.layer, key.tree), key.leaf, s.th(WotsPk(key), wpk), sig.auth);
    EncodedOne(enc, a, WotsPk(key), wpk);
    EncodedAppend(enc, a + [Call(WotsPk(key), wpk)], b);
  }

  ghost predicate Wotsed(s: Scheme, sigs: seq<XmssSig>) {
    forall i :: 0 <= i < |sigs| ==> |sigs[i].wots| == s.len
  }

  /** The verifier before layer j: what it will check there, under which key. */
  ghost predicate LayersWalked(s: Scheme, enc: Address -> Bytes, msg: Bytes, tree: nat, leaf: nat, sigs: seq<XmssSig>,
                               j: nat, payload: Bytes, curTree: nat, curLeaf: nat, log: seq<Sent>)
    requires Valid(s) && |msg| == s.n && j <= |sigs| && Wotsed(s, sigs)
  {
    && KeyAt(s, tree, leaf, j) == Key(j, curTree, curLeaf)
    && payload == Payload(s, msg, tree, leaf, sigs, j) && |payload| == s.n
    && log == Encoded(enc, PayloadCalls(s, msg, tree, leaf, sigs, j))
  }

  lemma {:induction false} OneMoreLayer(s: Scheme, enc: Address -> Bytes, msg: Bytes, tree: nat, leaf: nat,
                                        sigs: seq<XmssSig>, j: nat, up: nat, payload: Bytes, curTree: nat, curLeaf: nat,
                                        log: seq<Sent>, root: Bytes, more: seq<Sent>, upTree: nat, upLeaf: nat)
    requires Valid(s) && |msg| == s.n && up == j + 1 <= |sigs| && Wotsed(s, sigs)
    requires LayersWalked(s, enc, msg, tree, leaf, sigs, j, payload, curTree, curLeaf, log)
    requires DigitsOk(s, s.digits(payload))
    requires root == RecoveredRoot(s, Key(j, curTree, curLeaf), payload, sigs[j])
    requires more == Encoded(enc, RecoveredRootCalls(s, Key(j, curTree, curLeaf), payload, sigs[j]))
    requires upTree == curTree / Pow2(s.hp) && upLeaf == curTree % Pow2(s.hp)
    ensures LayersWalked(s, enc, msg, tree, leaf, sigs, up, root, upTree, upLeaf, log + more)
  {
    ShrIsDivision(curTree, s.hp);
    EncodedAppend(enc, PayloadCalls(s, msg, tree, leaf, sigs, j),
                  RecoveredRootCalls(s, Key(j, curTree, curLeaf), payload, sigs[j]));
  }

  // ---- signing layer by layer ---------------------------------------------------------------------

  /** The signer before layer j: what it signs there, under which key. */
  ghost predicate LayersSigned(s: Scheme, enc: Address -> Bytes, sk: Secrets, msg: Bytes, tree: nat, leaf: nat, j: nat,
                               payload: Bytes, curTree: nat, curLeaf: nat, log: seq<Sent>)
    requires Valid(s) && |msg| == s.n
  {
    && KeyAt(s, tree, leaf, j) == Key(j, curTree, curLeaf) && curLeaf < Pow2(s.hp)
    && payload == HonestPayload(s, sk, msg, tree, leaf, j) && |payload| == s.n
    && log == Encoded(enc, HtSignCalls(s, sk, msg, tree, leaf, j))
  }

  lemma {:induction false} OneMoreSigned(s: Scheme, enc: Address -> Bytes, sk: Secrets, msg: Bytes, tree: nat,
                                         leaf: nat, j: nat, up: nat, payload: Bytes, curTree: nat, curLeaf: nat,
                                         log: seq<Sent>, root: Bytes, l1: seq<Sent>, l2: seq<Sent>, upTree: nat,
                                         upLeaf: nat)
    requires Valid(s) && |msg| == s.n && up == j + 1
    requires LayersSigned(s, enc, sk, msg, tree, leaf, j, payload, curTree, curLeaf, log)
    requires DigitsOk(s, s.digits(payload)) && root == XmssRoot(s, sk, j, curTree)
    requires l1 == Encoded(enc, XmssSignCalls(s, sk, Key(j, curTree, curLeaf), payload))
    requires l2 == Encoded(enc, XmssTreeCalls(s, sk, j, curTree))
    requires upTree == curTree / Pow2(s.hp) && upLeaf == curTree % Pow2(s.hp)
    ensures LayersSigned(s, enc, sk, msg, tree, leaf, up, root, upTree, upLeaf, log + (l1 + l2))
  {
    NextPayload(s, sk, msg, tree, leaf, j, up, curTree, upTree, upLeaf);
    LayerLogStep(s, enc, sk, msg, tree, leaf, j, up, Key(j, curTree, curLeaf), payload, log, l1, l2);
  }

  /** The layer above signs the root of this layer's tree, under the key the tree number spells. */
  lemma {:induction false} NextPayload(s: Scheme, sk: Secrets, msg: Bytes, tree: nat, leaf: nat, j: nat, up: nat,
                                       curTree: nat, upTree: nat, upLeaf: nat)
    requires Valid(s) && |msg| == s.n && up == j + 1 && KeyAt(s, tree, leaf, j).tree == curTree
    requires upTree == curTree / Pow2(s.hp) && upLeaf == curTree % Pow2(s.hp)
    ensures KeyAt(s, tree, leaf, up) == Key(up, upTree, upLeaf) && upLeaf < Pow2(s.hp)
    ensures HonestPayload(s, sk, msg, tree, leaf, up) == XmssRoot(s, sk, j, curTree)
    ensures |HonestPayload(s, sk, msg, tree, leaf, up)| == s.n
  {
    ShrIsDivision(curTree, s.hp);
    HonestPayloadSize(s, sk, msg, tree, leaf, up);
  }

  lemma {:induction false} LayerLogStep(s: Scheme, enc: Address -> Bytes, sk: Secrets, msg: Bytes, tree: nat, leaf: nat,
                                        j: nat, up: nat, key: Key, payload: Bytes, log: seq<Sent>, l1: seq<Sent>,
                                        l2: seq<Sent>)
    requires Valid(s) && |msg| == s.n && up == j + 1 && key == KeyAt(s, tree, leaf, j)
    requires payload == HonestPayload(s, sk, msg, tree, leaf, j) && DigitsOk(s, s.digits(payload))
    requires log == Encoded(enc, HtSignCalls(s, sk, msg, tree, leaf, j))
    requires l1 == Encoded(enc, XmssSignCalls(s, sk, key, payload))
    requires l2 == Encoded(enc, XmssTreeCalls(s, sk, key.layer, key.tree))
    ensures log + (l1 + l2) == Encoded(enc, HtSignCalls(s, sk, msg, tree, leaf, up))
  {
    var a, b := HtSignCalls(s, sk, msg, tree, leaf, j), XmssSignCalls(s, sk, key, payload);
    var c := XmssTreeCalls(s, sk, key.layer, key.tree);
    EncodedAppend(enc, b, c);
    EncodedAppend(enc, a, b + c);
    LastSigned(s, sk, msg, tree, leaf, j);
    assert SignLayerCalls(s, sk, msg, tree, leaf, j) == b + c;
  }

  // ---- completed chains ---------------------------------------------------------------------------

  /** A completed chain, zero bytes filling up what a short chunk left open. */
  lemma {:induction false} TopPadded(s: Scheme, key: Key, ds: seq<nat>, sig: seq<Bytes>, i: nat, start: nat, steps: nat)
    requires DigitsOk(s, ds) && |sig| == s.len && i < s.len && start == ds[i] && steps == s.w - 1 - start
    requires Outputs(s.th, s.n) && |sig[i]| <= s.n
    ensures RecoveredTops(s, key, ds, sig)[i] == PadTo(Chain(s.th, key, i, start, steps, sig[i]), s.n)
    ensures |Chain(s.th, key, i, start, steps, sig[i])| <= s.n && |RecoveredTops(s, key, ds, sig)[i]| == s.n
  {
  }

  /** Every completed chain fills its field. */
  lemma {:induction false} RecoveredSized(s: Scheme, key: Key, ds: seq<nat>, b: Bytes)
    requires DigitsOk(s, ds) && Outputs(s.th, s.n)
    ensures Sized(RecoveredTops(s, key, ds, Chunks(b, s.n, s.len)), s.n)
  {
    forall i | 0 <= i < s.len
      ensures |RecoveredTops(s, key, ds, Chunks(b, s.n, s.len))[i]| == s.n
    {
      FieldInside(i, s.n, s.len);
      ChunkIsSlice(b, s.n, s.len, i, i * s.n, (i + 1) * s.n);
      TopPadded(s, key, ds, Chunks(b, s.n, s.len), i, ds[i], s.w - 1 - ds[i]);
    }
  }
}
