/**
 What a public value pins down, whatever the sizes of the signatures. Collisions are always between
 two calls the compared runs make, so they are exhibited rather than merely said to exist.
 */
module Binding {
  import opened ByteStrings
  import opened Tweaks
  import opened Chains
  import opened Merkle
  import opened Schemes
  import opened Digits
  import opened Walks

  // ---- WOTS+ ----------------------------------------------------------------------------------

  lemma {:induction false} RecoveredCallsContain(s: Scheme, key: Key, ds: seq<nat>, sig: seq<Bytes>, m: nat, i: nat)
    requires DigitsOk(s, ds) && |sig| == s.len && i < m <= s.len
    ensures Within(ChainCalls(s.th, key, i, ds[i], s.w - 1 - ds[i], sig[i]), RecoveredCalls(s, key, ds, sig, m))
  {
    if i < m - 1 {
      RecoveredCallsContain(s, key, ds, sig, m - 1, i);
    }
  }

  lemma {:induction false} ChainCollisionCounts(s: Scheme, key: Key, ds1: seq<nat>, sig1: seq<Bytes>, ds2: seq<nat>,
                                                sig2: seq<Bytes>, i: nat)
    requires DigitsOk(s, ds1) && DigitsOk(s, ds2) && |sig1| == |sig2| == s.len && i < s.len
    requires CollisionIn(s.th, ChainCalls(s.th, key, i, ds1[i], s.w - 1 - ds1[i], sig1[i]),
                               ChainCalls(s.th, key, i, ds2[i], s.w - 1 - ds2[i], sig2[i]))
    ensures CollisionIn(s.th, RecoveredCalls(s, key, ds1, sig1, s.len), RecoveredCalls(s, key, ds2, sig2, s.len))
  {
    RecoveredCallsContain(s, key, ds1, sig1, s.len, i);
    RecoveredCallsContain(s, key, ds2, sig2, s.len, i);
  }

  /**
   Chunks a verifier cannot tell apart at digit d: equal ones, and at the top of the chain, where
   nothing is hashed, ones that are equal once their field is filled up with zero bytes.
   */
  predicate ChunkAgrees(s: Scheme, d: nat, x: Bytes, y: Bytes) {
    x == y || (d == s.w - 1 && PadTo(x, s.n) == PadTo(y, s.n))
  }

  ghost predicate WotsAgrees(s: Scheme, ds: seq<nat>, sig1: seq<Bytes>, sig2: seq<Bytes>)
    requires |ds| == |sig1| == |sig2| == s.len
  {
    forall i :: 0 <= i < s.len ==> ChunkAgrees(s, ds[i], sig1[i], sig2[i])
  }

  /** A chain of at least one step ends in a full hash value. */
  lemma {:induction false} ChainFills(th: Tweak, n: nat, key: Key, c: nat, start: nat, steps: nat, value: Bytes)
    requires Outputs(th, n) && steps > 0
    ensures |Chain(th, key, c, start, steps, value)| == n
  {
  }

  lemma {:induction false} ChunkBinding(s: Scheme, key: Key, i: nat, d: nat, rest: nat, x: Bytes, y: Bytes)
    requires Outputs(s.th, s.n) && rest == s.w - 1 - d
    requires PadTo(Chain(s.th, key, i, d, rest, x), s.n) == PadTo(Chain(s.th, key, i, d, rest, y), s.n)
    ensures ChunkAgrees(s, d, x, y)
            || CollisionIn(s.th, ChainCalls(s.th, key, i, d, rest, x), ChainCalls(s.th, key, i, d, rest, y))
  {
    if rest > 0 {
      ChainFills(s.th, s.n, key, i, d, rest, x);
      ChainFills(s.th, s.n, key, i, d, rest, y);
      ChainBinding(s.th, key, i, d, rest, x, y);
    }
  }

  lemma {:induction false} TopsAt(s: Scheme, key: Key, ds: seq<nat>, sig: seq<Bytes>, i: nat)
    requires DigitsOk(s, ds) && |sig| == s.len && i < s.len
    ensures RecoveredTops(s, key, ds, sig)[i] == PadTo(Chain(s.th, key, i, ds[i], s.w - 1 - ds[i], sig[i]), s.n)
  {
  }

  /** One message: equal chain tops come from agreeing signatures or from a collision. */
  lemma {:induction false} TopsBinding(s: Scheme, key: Key, ds: seq<nat>, sig1: seq<Bytes>, sig2: seq<Bytes>)
    requires Valid(s) && DigitsOk(s, ds) && |sig1| == |sig2| == s.len
    requires RecoveredTops(s, key, ds, sig1) == RecoveredTops(s, key, ds, sig2)
    ensures WotsAgrees(s, ds, sig1, sig2)
            || CollisionIn(s.th, RecoveredCalls(s, key, ds, sig1, s.len), RecoveredCalls(s, key, ds, sig2, s.len))
  {
    if !WotsAgrees(s, ds, sig1, sig2) {
      var i :| 0 <= i < s.len && !ChunkAgrees(s, ds[i], sig1[i], sig2[i]);
      TopsAt(s, key, ds, sig1, i);
      TopsAt(s, key, ds, sig2, i);
      ChunkBinding(s, key, i, ds[i], s.w - 1 - ds[i], sig1[i], sig2[i]);
      ChainCollisionCounts(s, key, ds, sig1, ds, sig2, i);
    }
  }

  /** Hashing one chunk of sig1 forward gives the chunk of sig2 on the same chain. */
  ghost predicate Advances(s: Scheme, key: Key, ds1: seq<nat>, sig1: seq<Bytes>, ds2: seq<nat>, sig2: seq<Bytes>)
    requires |ds1| == |ds2| == |sig1| == |sig2| == s.len
  {
    exists i :: 0 <= i < s.len && AdvancesAt(s, key, i, ds1[i], sig1[i], ds2[i], sig2[i])
  }

  predicate AdvancesAt(s: Scheme, key: Key, i: nat, d1: nat, x: Bytes, d2: nat, y: Bytes) {
    d1 < d2 && ChunkAgrees(s, d2, Chain(s.th, key, i, d1, d2 - d1, x), y)
  }

  lemma {:induction false} ChunkAdvances(s: Scheme, key: Key, i: nat, d1: nat, x: Bytes, d2: nat, y: Bytes)
    requires Outputs(s.th, s.n) && d1 < d2 < s.w
    requires PadTo(Chain(s.th, key, i, d1, s.w - 1 - d1, x), s.n)
             == PadTo(Chain(s.th, key, i, d2, s.w - 1 - d2, y), s.n)
    ensures AdvancesAt(s, key, i, d1, x, d2, y)
            || CollisionIn(s.th, ChainCalls(s.th, key, i, d1, s.w - 1 - d1, x),
                           ChainCalls(s.th, key, i, d2, s.w - 1 - d2, y))
  {
    ChainFills(s.th, s.n, key, i, d1, s.w - 1 - d1, x);
    if d2 < s.w - 1 {
      ChainFills(s.th, s.n, key, i, d2, s.w - 1 - d2, y);
      ChainMeets(s.th, key, i, d1, d2, s.w - 1, x, y);
    }
  }

  /** Two messages: where one signature stands lower on a chain, hashing it forward gives the other, or a collision. */
  lemma {:induction false} AdvanceOrCollide(s: Scheme, key: Key, ds1: seq<nat>, sig1: seq<Bytes>, ds2: seq<nat>,
                                            sig2: seq<Bytes>, i: nat)
    requires Valid(s) && DigitsOk(s, ds1) && DigitsOk(s, ds2) && |sig1| == |sig2| == s.len
    requires RecoveredTops(s, key, ds1, sig1) == RecoveredTops(s, key, ds2, sig2)
    requires i < s.len && ds1[i] < ds2[i]
    ensures Advances(s, key, ds1, sig1, ds2, sig2)
            || CollisionIn(s.th, RecoveredCalls(s, key, ds1, sig1, s.len), RecoveredCalls(s, key, ds2, sig2, s.len))
  {
    TopsAt(s, key, ds1, sig1, i);
    TopsAt(s, key, ds2, sig2, i);
    ChunkAdvances(s, key, i, ds1[i], sig1[i], ds2[i], sig2[i]);
    if !AdvancesAt(s, key, i, ds1[i], sig1[i], ds2[i], sig2[i]) {
      ChainCollisionCounts(s, key, ds1, sig1, ds2, sig2, i);
    }
  }

  /** Two messages never have one digit vector pointwise at or above the other. */
  ghost predicate Dominating(s: Scheme) {
    forall m1: Bytes, m2: Bytes :: NotAbove(s, m1, m2)
  }

  ghost predicate NotAbove(s: Scheme, m1: Bytes, m2: Bytes) {
    |m1| == |m2| == s.n && m1 != m2 && DigitsOk(s, s.digits(m1)) && DigitsOk(s, s.digits(m2))
    ==> Lower(s, s.digits(m1), s.digits(m2))
  }

  ghost predicate Lower(s: Scheme, ds1: seq<nat>, ds2: seq<nat>)
    requires |ds1| == |ds2| == s.len
  {
    exists i :: 0 <= i < s.len && ds1[i] < ds2[i]
  }

  /** Nibbles with their checksum dominate. */
  lemma {:induction false} ChecksumDominates(s: Scheme)
    requires s.digits == ChainDigits && s.n <= 136
    ensures Dominating(s)
  {
    forall m1: Bytes, m2: Bytes
      ensures NotAbove(s, m1, m2)
    {
      if |m1| == |m2| == s.n && m1 != m2 {
        ChecksumDomination(m1, m2);
      }
    }
  }

  /** One key signed two different messages, and each signature gives away a value ahead of one in the other. */
  ghost predicate KeyReuse(s: Scheme, key: Key, msg1: Bytes, sig1: seq<Bytes>, msg2: Bytes, sig2: seq<Bytes>)
    requires DigitsOk(s, s.digits(msg1)) && DigitsOk(s, s.digits(msg2)) && |sig1| == |sig2| == s.len
  {
    && msg1 != msg2
    && Advances(s, key, s.digits(msg1), sig1, s.digits(msg2), sig2)
    && Advances(s, key, s.digits(msg2), sig2, s.digits(msg1), sig1)
  }

  lemma {:induction false} CollisionSwaps(th: Tweak, xs: seq<Call>, ys: seq<Call>)
    requires CollisionIn(th, xs, ys)
    ensures CollisionIn(th, ys, xs)
  {
    var x, y :| x in xs && y in ys && Collide(th, x, y);
    assert Collide(th, y, x);
  }

  lemma {:induction false} WotsBinding(s: Scheme, key: Key, msg1: Bytes, sig1: seq<Bytes>, msg2: Bytes,
                                       sig2: seq<Bytes>)
    requires Valid(s) && Dominating(s) && |msg1| == |msg2| == s.n && |sig1| == |sig2| == s.len
    requires RecoveredTops(s, key, s.digits(msg1), sig1) == RecoveredTops(s, key, s.digits(msg2), sig2)
    ensures (msg1 == msg2 && WotsAgrees(s, s.digits(msg1), sig1, sig2)) || KeyReuse(s, key, msg1, sig1, msg2, sig2)
            || CollisionIn(s.th, RecoveredCalls(s, key, s.digits(msg1), sig1, s.len),
                                 RecoveredCalls(s, key, s.digits(msg2), sig2, s.len))
  {
    var ds1, ds2 := s.digits(msg1), s.digits(msg2);
    if msg1 == msg2 {
      TopsBinding(s, key, ds1, sig1, sig2);
    } else {
      assert NotAbove(s, msg1, msg2) && NotAbove(s, msg2, msg1);
      var i :| 0 <= i < s.len && ds1[i] < ds2[i];
      AdvanceOrCollide(s, key, ds1, sig1, ds2, sig2, i);
      var j :| 0 <= j < s.len && ds2[j] < ds1[j];
      AdvanceOrCollide(s, key, ds2, sig2, ds1, sig1, j);
      if CollisionIn(s.th, RecoveredCalls(s, key, ds2, sig2, s.len), RecoveredCalls(s, key, ds1, sig1, s.len)) {
        CollisionSwaps(s.th, RecoveredCalls(s, key, ds2, sig2, s.len), RecoveredCalls(s, key, ds1, sig1, s.len));
      }
    }
  }

  /** Agreeing signatures complete to the same chain tops. */
  lemma {:induction false} TopsAgree(s: Scheme, key: Key, ds: seq<nat>, sig1: seq<Bytes>, sig2: seq<Bytes>)
    requires DigitsOk(s, ds) && |sig1| == |sig2| == s.len && WotsAgrees(s, ds, sig1, sig2)
    ensures RecoveredTops(s, key, ds, sig1) == RecoveredTops(s, key, ds, sig2)
  {
    forall i | 0 <= i < s.len
      ensures RecoveredTops(s, key, ds, sig1)[i] == RecoveredTops(s, key, ds, sig2)[i]
    {
      assert ChunkAgrees(s, ds[i], sig1[i], sig2[i]);
      TopsAt(s, key, ds, sig1, i);
      TopsAt(s, key, ds, sig2, i);
    }
  }

  // ---- XMSS -----------------------------------------------------------------------------------

  /** As many chunks and siblings as the scheme has, no chunk longer than its field. */
  ghost predicate XmssFits(s: Scheme, sig: XmssSig) {
    |sig.wots| == s.len && |sig.auth| == s.hp && AtMost(sig.wots, s.n)
  }

  ghost predicate XmssAgrees(s: Scheme, msg: Bytes, sig1: XmssSig, sig2: XmssSig)
    requires DigitsOk(s, s.digits(msg)) && |sig1.wots| == |sig2.wots| == s.len
  {
    sig1.auth == sig2.auth && WotsAgrees(s, s.digits(msg), sig1.wots, sig2.wots)
  }

  /** Where every chunk fills its field, agreeing is being equal. */
  lemma {:induction false} SizedAgreeing(s: Scheme, msg: Bytes, sig1: XmssSig, sig2: XmssSig)
    requires DigitsOk(s, s.digits(msg)) && XmssSized(s, sig1) && XmssSized(s, sig2)
    ensures XmssAgrees(s, msg, sig1, sig2) <==> sig1 == sig2
  {
    if XmssAgrees(s, msg, sig1, sig2) {
      forall i | 0 <= i < s.len
        ensures sig1.wots[i] == sig2.wots[i]
      {
        assert ChunkAgrees(s, s.digits(msg)[i], sig1.wots[i], sig2.wots[i]);
      }
    }
  }

  lemma {:induction false} TopsSized(s: Scheme, key: Key, ds: seq<nat>, sig: seq<Bytes>)
    requires Valid(s) && DigitsOk(s, ds) && |sig| == s.len && AtMost(sig, s.n)
    ensures Sized(RecoveredTops(s, key, ds, sig), s.n)
  {
    forall i | 0 <= i < s.len
      ensures |RecoveredTops(s, key, ds, sig)[i]| == s.n
    {
      TopPadded(s, key, ds, sig, i, ds[i], s.w - 1 - ds[i]);
    }
  }

  lemma {:induction false} RootCallsContain(s: Scheme, key: Key, msg: Bytes, sig: XmssSig)
    requires DigitsOk(s, s.digits(msg)) && |sig.wots| == s.len
    ensures var tops, all := RecoveredTops(s, key, s.digits(msg), sig.wots), RecoveredRootCalls(s, key, msg, sig);
            && Within(RecoveredCalls(s, key, s.digits(msg), sig.wots, s.len), all)
            && Call(WotsPk(key), Flatten(tops)) in all
            && Within(ClimbCalls(s.th, TreeAdr(key.layer, key.tree), key.leaf, LeafValue(s, key, tops), sig.auth), all)
  {
  }

  /** Equal roots pin down the path and the chain tops, or calls collide in the path or in the leaf. */
  lemma {:induction false} PathBinding(s: Scheme, key: Key, msg1: Bytes, sig1: XmssSig, msg2: Bytes, sig2: XmssSig)
    requires Valid(s) && |msg1| == |msg2| == s.n && XmssFits(s, sig1) && XmssFits(s, sig2)
    requires RecoveredRoot(s, key, msg1, sig1) == RecoveredRoot(s, key, msg2, sig2)
    ensures (sig1.auth == sig2.auth
             && RecoveredTops(s, key, s.digits(msg1), sig1.wots) == RecoveredTops(s, key, s.digits(msg2), sig2.wots))
            || CollisionIn(s.th, RecoveredRootCalls(s, key, msg1, sig1), RecoveredRootCalls(s, key, msg2, sig2))
  {
    var tops1 := RecoveredTops(s, key, s.digits(msg1), sig1.wots);
    var tops2 := RecoveredTops(s, key, s.digits(msg2), sig2.wots);
    var all1, all2 := RecoveredRootCalls(s, key, msg1, sig1), RecoveredRootCalls(s, key, msg2, sig2);
    var leaf1, leaf2 := LeafValue(s, key, tops1), LeafValue(s, key, tops2);
    RootCallsContain(s, key, msg1, sig1);
    RootCallsContain(s, key, msg2, sig2);
    ClimbBinding(s.th, s.n, TreeAdr(key.layer, key.tree), key.leaf, leaf1, sig1.auth, leaf2, sig2.auth);
    if leaf1 == leaf2 {
      EqualOrCollide(s.th, all1, all2, WotsPk(key), Flatten(tops1), Flatten(tops2));
      if Flatten(tops1) == Flatten(tops2) {
        TopsSized(s, key, s.digits(msg1), sig1.wots);
        TopsSized(s, key, s.digits(msg2), sig2.wots);
        FlattenInjective(tops1, tops2, s.n);
      }
    }
  }

  /** Equal roots at one key: equal payloads and agreeing signatures, or a key used twice, or a collision. */
  lemma {:induction false} XmssBinding(s: Scheme, key: Key, msg1: Bytes, sig1: XmssSig, msg2: Bytes, sig2: XmssSig)
    requires Valid(s) && Dominating(s) && |msg1| == |msg2| == s.n && XmssFits(s, sig1) && XmssFits(s, sig2)
    requires RecoveredRoot(s, key, msg1, sig1) == RecoveredRoot(s, key, msg2, sig2)
    ensures (msg1 == msg2 && XmssAgrees(s, msg1, sig1, sig2)) || KeyReuse(s, key, msg1, sig1.wots, msg2, sig2.wots)
            || CollisionIn(s.th, RecoveredRootCalls(s, key, msg1, sig1), RecoveredRootCalls(s, key, msg2, sig2))
  {
    var all1, all2 := RecoveredRootCalls(s, key, msg1, sig1), RecoveredRootCalls(s, key, msg2, sig2);
    PathBinding(s, key, msg1, sig1, msg2, sig2);
    if !CollisionIn(s.th, all1, all2) {
      WotsBinding(s, key, msg1, sig1.wots, msg2, sig2.wots);
      RootCallsContain(s, key, msg1, sig1);
      RootCallsContain(s, key, msg2, sig2);
    }
  }

  /** Agreeing signatures of one message lead to the same root. */
  lemma {:induction false} RootsAgree(s: Scheme, key: Key, msg: Bytes, sig1: XmssSig, sig2: XmssSig)
    requires DigitsOk(s, s.digits(msg)) && |sig1.wots| == |sig2.wots| == s.len && XmssAgrees(s, msg, sig1, sig2)
    ensures RecoveredRoot(s, key, msg, sig1) == RecoveredRoot(s, key, msg, sig2)
  {
    TopsAgree(s, key, s.digits(msg), sig1.wots, sig2.wots);
  }

  // ---- hypertree ------------------------------------------------------------------------------

  ghost predicate HtFits(s: Scheme, sigs: seq<XmssSig>) {
    |sigs| == s.d && forall j :: 0 <= j < s.d ==> XmssFits(s, sigs[j])
  }

  ghost predicate ReuseAt(s: Scheme, tree: nat, leaf: nat, msg1: Bytes, sigs1: seq<XmssSig>, msg2: Bytes,
                          sigs2: seq<XmssSig>, j: nat)
    requires Valid(s) && |msg1| == |msg2| == s.n && HtFits(s, sigs1) && HtFits(s, sigs2) && j < s.d
  {
    KeyReuse(s, KeyAt(s, tree, leaf, j),
             Payload(s, msg1, tree, leaf, sigs1, j), sigs1[j].wots,
             Payload(s, msg2, tree, leaf, sigs2, j), sigs2[j].wots)
  }

  /** Some layer below m certifies two different payloads with one WOTS+ key. */
  ghost predicate LayerReused(s: Scheme, tree: nat, leaf: nat, msg1: Bytes, sigs1: seq<XmssSig>, msg2: Bytes,
                              sigs2: seq<XmssSig>, m: nat)
    requires Valid(s) && |msg1| == |msg2| == s.n && HtFits(s, sigs1) && HtFits(s, sigs2) && m <= s.d
  {
    exists j :: 0 <= j < m && ReuseAt(s, tree, leaf, msg1, sigs1, msg2, sigs2, j)
  }

  ghost predicate SamePayload(s: Scheme, tree: nat, leaf: nat, msg1: Bytes, sigs1: seq<XmssSig>, msg2: Bytes,
                              sigs2: seq<XmssSig>, j: nat)
    requires Valid(s) && |msg1| == |msg2| == s.n && HtFits(s, sigs1) && HtFits(s, sigs2) && j <= s.d
  {
    Payload(s, msg1, tree, leaf, sigs1, j) == Payload(s, msg2, tree, leaf, sigs2, j)
  }

  /** The signatures of layer j agree at the payload the first of them certifies. */
  ghost predicate LayerAgrees(s: Scheme, tree: nat, leaf: nat, msg: Bytes, sigs1: seq<XmssSig>, sigs2: seq<XmssSig>,
                              j: nat)
    requires Valid(s) && |msg| == s.n && HtFits(s, sigs1) && HtFits(s, sigs2) && j < s.d
  {
    XmssAgrees(s, Payload(s, msg, tree, leaf, sigs1, j), sigs1[j], sigs2[j])
  }

  ghost predicate LayersAgree(s: Scheme, tree: nat, leaf: nat, msg: Bytes, sigs1: seq<XmssSig>, sigs2: seq<XmssSig>,
                              m: nat)
    requires Valid(s) && |msg| == s.n && HtFits(s, sigs1) && HtFits(s, sigs2) && m <= s.d
  {
    forall j :: 0 <= j < m ==> LayerAgrees(s, tree, leaf, msg, sigs1, sigs2, j)
  }

  ghost predicate BoundBelow(s: Scheme, tree: nat, leaf: nat, msg1: Bytes, sigs1: seq<XmssSig>, msg2: Bytes,
                             sigs2: seq<XmssSig>, j: nat)
    requires Valid(s) && |msg1| == |msg2| == s.n && HtFits(s, sigs1) && HtFits(s, sigs2) && j <= s.d
  {
    || (msg1 == msg2 && LayersAgree(s, tree, leaf, msg1, sigs1, sigs2, j))
    || LayerReused(s, tree, leaf, msg1, sigs1, msg2, sigs2, j)
    || CollisionIn(s.th, PayloadCalls(s, msg1, tree, leaf, sigs1, j), PayloadCalls(s, msg2, tree, leaf, sigs2, j))
  }

  ghost predicate Descends(s: Scheme, tree: nat, leaf: nat, msg1: Bytes, sigs1: seq<XmssSig>, msg2: Bytes,
                           sigs2: seq<XmssSig>, j: nat)
    requires Valid(s) && |msg1| == |msg2| == s.n && HtFits(s, sigs1) && HtFits(s, sigs2) && j <= s.d
  {
    SamePayload(s, tree, leaf, msg1, sigs1, msg2, sigs2, j) ==> BoundBelow(s, tree, leaf, msg1, sigs1, msg2, sigs2, j)
  }

  /** Equal values above layer j - 1: everything below agrees, or some layer reuses its key, or calls collide. */
  lemma {:induction false} HtBinding(s: Scheme, tree: nat, leaf: nat, msg1: Bytes, sigs1: seq<XmssSig>, msg2: Bytes,
                                     sigs2: seq<XmssSig>, j: nat)
    requires Valid(s) && Dominating(s) && |msg1| == |msg2| == s.n && HtFits(s, sigs1) && HtFits(s, sigs2) && j <= s.d
    ensures Descends(s, tree, leaf, msg1, sigs1, msg2, sigs2, j)
  {
    if j > 0 {
      var below := j - 1;
      HtBinding(s, tree, leaf, msg1, sigs1, msg2, sigs2, below);
      DescendOneLayer(s, tree, leaf, msg1, sigs1, msg2, sigs2, below);
    }
  }

  lemma {:induction false} DescendOneLayer(s: Scheme, tree: nat, leaf: nat, msg1: Bytes, sigs1: seq<XmssSig>,
                                           msg2: Bytes, sigs2: seq<XmssSig>, j: nat)
    requires Valid(s) && Dominating(s) && |msg1| == |msg2| == s.n && HtFits(s, sigs1) && HtFits(s, sigs2) && j < s.d
    requires Descends(s, tree, leaf, msg1, sigs1, msg2, sigs2, j)
    ensures Descends(s, tree, leaf, msg1, sigs1, msg2, sigs2, j + 1)
  {
    if SamePayload(s, tree, leaf, msg1, sigs1, msg2, sigs2, j + 1) {
      LayerBinding(s, tree, leaf, msg1, sigs1, msg2, sigs2, j);
      if SamePayload(s, tree, leaf, msg1, sigs1, msg2, sigs2, j)
         && LayerAgrees(s, tree, leaf, msg1, sigs1, sigs2, j) {
        BoundRises(s, tree, leaf, msg1, sigs1, msg2, sigs2, j);
      }
    }
  }

  lemma {:induction false} BoundRises(s: Scheme, tree: nat, leaf: nat, msg1: Bytes, sigs1: seq<XmssSig>, msg2: Bytes,
                                      sigs2: seq<XmssSig>, j: nat)
    requires Valid(s) && |msg1| == |msg2| == s.n && HtFits(s, sigs1) && HtFits(s, sigs2) && j < s.d
    requires LayerAgrees(s, tree, leaf, msg1, sigs1, sigs2, j)
    requires BoundBelow(s, tree, leaf, msg1, sigs1, msg2, sigs2, j)
    ensures BoundBelow(s, tree, leaf, msg1, sigs1, msg2, sigs2, j + 1)
  {
    if LayerReused(s, tree, leaf, msg1, sigs1, msg2, sigs2, j) {
      ReuseRises(s, tree, leaf, msg1, sigs1, msg2, sigs2, j);
    } else if msg1 == msg2 && LayersAgree(s, tree, leaf, msg1, sigs1, sigs2, j) {
      AgreementRises(s, tree, leaf, msg1, sigs1, sigs2, j);
    } else {
      CollisionRises(s, tree, leaf, msg1, sigs1, msg2, sigs2, j);
    }
  }

  lemma {:induction false} ReuseRises(s: Scheme, tree: nat, leaf: nat, msg1: Bytes, sigs1: seq<XmssSig>, msg2: Bytes,
                                      sigs2: seq<XmssSig>, j: nat)
    requires Valid(s) && |msg1| == |msg2| == s.n && HtFits(s, sigs1) && HtFits(s, sigs2) && j < s.d
    requires LayerReused(s, tree, leaf, msg1, sigs1, msg2, sigs2, j)
    ensures LayerReused(s, tree, leaf, msg1, sigs1, msg2, sigs2, j + 1)
  {
  }

  lemma {:induction false} AgreementRises(s: Scheme, tree: nat, leaf: nat, msg: Bytes, sigs1: seq<XmssSig>,
                                          sigs2: seq<XmssSig>, j: nat)
    requires Valid(s) && |msg| == s.n && HtFits(s, sigs1) && HtFits(s, sigs2) && j < s.d
    requires LayersAgree(s, tree, leaf, msg, sigs1, sigs2, j) && LayerAgrees(s, tree, leaf, msg, sigs1, sigs2, j)
    ensures LayersAgree(s, tree, leaf, msg, sigs1, sigs2, j + 1)
  {
  }

  lemma {:induction false} CollisionRises(s: Scheme, tree: nat, leaf: nat, msg1: Bytes, sigs1: seq<XmssSig>,
                                          msg2: Bytes, sigs2: seq<XmssSig>, j: nat)
    requires Valid(s) && |msg1| == |msg2| == s.n && HtFits(s, sigs1) && HtFits(s, sigs2) && j < s.d
    requires CollisionIn(s.th, PayloadCalls(s, msg1, tree, leaf, sigs1, j),
                               PayloadCalls(s, msg2, tree, leaf, sigs2, j))
    ensures CollisionIn(s.th, PayloadCalls(s, msg1, tree, leaf, sigs1, j + 1),
                              PayloadCalls(s, msg2, tree, leaf, sigs2, j + 1))
  {
    PayloadCallsGrow(s, tree, leaf, msg1, sigs1, j);
    PayloadCallsGrow(s, tree, leaf, msg2, sigs2, j);
  }

  lemma {:induction false} PayloadCallsGrow(s: Scheme, tree: nat, leaf: nat, msg: Bytes, sigs: seq<XmssSig>, j: nat)
    requires Valid(s) && |msg| == s.n && HtFits(s, sigs) && j < s.d
    ensures Within(PayloadCalls(s, msg, tree, leaf, sigs, j), PayloadCalls(s, msg, tree, leaf, sigs, j + 1))
    ensures Within(LayerCalls(s, msg, tree, leaf, sigs, j), PayloadCalls(s, msg, tree, leaf, sigs, j + 1))
  {
  }

  lemma {:induction false} LayerBinding(s: Scheme, tree: nat, leaf: nat, msg1: Bytes, sigs1: seq<XmssSig>, msg2: Bytes,
                                        sigs2: seq<XmssSig>, j: nat)
    requires Valid(s) && Dominating(s) && |msg1| == |msg2| == s.n && HtFits(s, sigs1) && HtFits(s, sigs2) && j < s.d
    requires SamePayload(s, tree, leaf, msg1, sigs1, msg2, sigs2, j + 1)
    ensures (SamePayload(s, tree, leaf, msg1, sigs1, msg2, sigs2, j)
             && LayerAgrees(s, tree, leaf, msg1, sigs1, sigs2, j))
            || ReuseAt(s, tree, leaf, msg1, sigs1, msg2, sigs2, j)
            || CollisionIn(s.th, PayloadCalls(s, msg1, tree, leaf, sigs1, j + 1),
                           PayloadCalls(s, msg2, tree, leaf, sigs2, j + 1))
  {
    var key := KeyAt(s, tree, leaf, j);
    var p1, p2 := Payload(s, msg1, tree, leaf, sigs1, j), Payload(s, msg2, tree, leaf, sigs2, j);
    assert XmssFits(s, sigs1[j]) && XmssFits(s, sigs2[j]);
    XmssBinding(s, key, p1, sigs1[j], p2, sigs2[j]);
    PayloadCallsGrow(s, tree, leaf, msg1, sigs1, j);
    PayloadCallsGrow(s, tree, leaf, msg2, sigs2, j);
  }

  /** Agreeing layers recover the same payloads. */
  lemma {:induction false} PayloadsAgree(s: Scheme, tree: nat, leaf: nat, msg: Bytes, sigs1: seq<XmssSig>,
                                         sigs2: seq<XmssSig>, m: nat)
    requires Valid(s) && |msg| == s.n && HtFits(s, sigs1) && HtFits(s, sigs2) && m <= s.d
    requires LayersAgree(s, tree, leaf, msg, sigs1, sigs2, m)
    ensures SamePayload(s, tree, leaf, msg, sigs1, msg, sigs2, m)
  {
    if m > 0 {
      var j := m - 1;
      PayloadsAgree(s, tree, leaf, msg, sigs1, sigs2, j);
      PayloadAgreesAbove(s, tree, leaf, msg, sigs1, sigs2, j);
    }
  }

  lemma {:induction false} PayloadAgreesAbove(s: Scheme, tree: nat, leaf: nat, msg: Bytes, sigs1: seq<XmssSig>,
                                              sigs2: seq<XmssSig>, j: nat)
    requires Valid(s) && |msg| == s.n && HtFits(s, sigs1) && HtFits(s, sigs2) && j < s.d
    requires SamePayload(s, tree, leaf, msg, sigs1, msg, sigs2, j) && LayerAgrees(s, tree, leaf, msg, sigs1, sigs2, j)
    ensures SamePayload(s, tree, leaf, msg, sigs1, msg, sigs2, j + 1)
  {
    RootsAgree(s, KeyAt(s, tree, leaf, j), Payload(s, msg, tree, leaf, sigs1, j), sigs1[j], sigs2[j]);
  }

  // ---- FORS -----------------------------------------------------------------------------------

  lemma {:induction false} ForsPartBinding(s: Scheme, key: Key, g: nat, part1: ForsPart, part2: ForsPart)
    requires Valid(s) && |part1.auth| == |part2.auth|
    requires ForsClimb(s, key, g, part1) == ForsClimb(s, key, g, part2)
    ensures part1 == part2 || CollisionIn(s.th, ForsClimbCalls(s, key, g, part1), ForsClimbCalls(s, key, g, part2))
  {
    var adrs := ForsNode(key, 0, g);
    var leaf1, leaf2 := s.th(adrs, part1.secret), s.th(adrs, part2.secret);
    ClimbBinding(s.th, s.n, ForsAdr(key), g, leaf1, part1.auth, leaf2, part2.auth);
    if leaf1 == leaf2 {
      EqualOrCollide(s.th, ForsClimbCalls(s, key, g, part1), ForsClimbCalls(s, key, g, part2), adrs, part1.secret,
                     part2.secret);
    }
  }

  lemma {:induction false} ForsCallsContain(s: Scheme, key: Key, indices: seq<nat>, parts: seq<ForsPart>, m: nat,
                                            t: nat)
    requires |indices| == |parts| == s.k && t < m <= s.k
    ensures Within(ForsClimbCalls(s, key, ForsLeaf(s, t, indices[t]), parts[t]),
                   ForsClimbsCalls(s, key, indices, parts, m))
  {
    if t < m - 1 {
      ForsCallsContain(s, key, indices, parts, m - 1, t);
    }
  }

  ghost predicate ForsFits(s: Scheme, parts: seq<ForsPart>) {
    |parts| == s.k && forall t :: 0 <= t < s.k ==> |parts[t].auth| == s.a
  }

  /** Equal FORS keys for the same indices come from equal signatures or from a collision. */
  lemma {:induction false} ForsBinding(s: Scheme, key: Key, indices: seq<nat>, parts1: seq<ForsPart>,
                                       parts2: seq<ForsPart>)
    requires Valid(s) && |indices| == s.k && ForsFits(s, parts1) && ForsFits(s, parts2)
    requires ForsRecovered(s, key, indices, parts1) == ForsRecovered(s, key, indices, parts2)
    ensures parts1 == parts2
            || CollisionIn(s.th, ForsRecoveredCalls(s, key, indices, parts1),
                           ForsRecoveredCalls(s, key, indices, parts2))
  {
    var roots1, roots2 := ForsRecoveredRoots(s, key, indices, parts1), ForsRecoveredRoots(s, key, indices, parts2);
    var all1, all2 := ForsRecoveredCalls(s, key, indices, parts1), ForsRecoveredCalls(s, key, indices, parts2);
    EqualOrCollide(s.th, all1, all2, ForsRoots(key), Flatten(roots1), Flatten(roots2));
    if parts1 != parts2 && Flatten(roots1) == Flatten(roots2) {
      RootsSized(s, key, indices, parts1);
      RootsSized(s, key, indices, parts2);
      FlattenInjective(roots1, roots2, s.n);
      var t :| 0 <= t < s.k && parts1[t] != parts2[t];
      assert roots1[t] == roots2[t];
      ForsPartBinding(s, key, ForsLeaf(s, t, indices[t]), parts1[t], parts2[t]);
      ForsCallsContain(s, key, indices, parts1, s.k, t);
      ForsCallsContain(s, key, indices, parts2, s.k, t);
    }
  }

  lemma {:induction false} RootsSized(s: Scheme, key: Key, indices: seq<nat>, parts: seq<ForsPart>)
    requires Valid(s) && |indices| == |parts| == s.k
    ensures Sized(ForsRecoveredRoots(s, key, indices, parts), s.n)
  {
    forall t | 0 <= t < s.k
      ensures |ForsRecoveredRoots(s, key, indices, parts)[t]| == s.n
    {
      var g := ForsLeaf(s, t, indices[t]);
      ClimbSize(s.th, s.n, ForsAdr(key), g, s.th(ForsNode(key, 0, g), parts[t].secret), parts[t].auth);
    }
  }

  // ---- a whole signature --------------------------------------------------------------------------

  /** The hash calls of one verification: FORS, then the hypertree over the recovered FORS key. */
  function VerificationCalls(s: Scheme, tree: nat, leaf: nat, key: Key, indices: seq<nat>, parts: seq<ForsPart>,
                             sigs: seq<XmssSig>): seq<Call>
    requires Valid(s) && |indices| == |parts| == s.k && HtShaped(s, sigs)
  {
    ForsRecoveredCalls(s, key, indices, parts)
    + PayloadCalls(s, ForsRecovered(s, key, indices, parts), tree, leaf, sigs, s.d)
  }

  function VerificationRoot(s: Scheme, tree: nat, leaf: nat, key: Key, indices: seq<nat>, parts: seq<ForsPart>,
                            sigs: seq<XmssSig>): Bytes
    requires Valid(s) && |indices| == |parts| == s.k && HtShaped(s, sigs)
  {
    Payload(s, ForsRecovered(s, key, indices, parts), tree, leaf, sigs, s.d)
  }

  /** All that a verifier sees of two signatures is the same. */
  ghost predicate WholeAgrees(s: Scheme, tree: nat, leaf: nat, key: Key, indices: seq<nat>, parts1: seq<ForsPart>,
                              sigs1: seq<XmssSig>, parts2: seq<ForsPart>, sigs2: seq<XmssSig>)
    requires Valid(s) && |indices| == |parts1| == s.k && HtFits(s, sigs1) && HtFits(s, sigs2)
  {
    parts1 == parts2 && LayersAgree(s, tree, leaf, ForsRecovered(s, key, indices, parts1), sigs1, sigs2, s.d)
  }

  /** One root for one digest: agreeing signatures, or a layer's key reused, or the two verifications collide. */
  lemma {:induction false} WholeBinding(s: Scheme, tree: nat, leaf: nat, key: Key, indices: seq<nat>,
                                        parts1: seq<ForsPart>, sigs1: seq<XmssSig>, parts2: seq<ForsPart>,
                                        sigs2: seq<XmssSig>)
    requires Valid(s) && Dominating(s) && |indices| == s.k
    requires ForsFits(s, parts1) && ForsFits(s, parts2) && HtFits(s, sigs1) && HtFits(s, sigs2)
    requires VerificationRoot(s, tree, leaf, key, indices, parts1, sigs1)
             == VerificationRoot(s, tree, leaf, key, indices, parts2, sigs2)
    ensures WholeAgrees(s, tree, leaf, key, indices, parts1, sigs1, parts2, sigs2)
            || LayerReused(s, tree, leaf, ForsRecovered(s, key, indices, parts1), sigs1,
                           ForsRecovered(s, key, indices, parts2), sigs2, s.d)
            || CollisionIn(s.th, VerificationCalls(s, tree, leaf, key, indices, parts1, sigs1),
                                 VerificationCalls(s, tree, leaf, key, indices, parts2, sigs2))
  {
    var f1, f2 := ForsRecovered(s, key, indices, parts1), ForsRecovered(s, key, indices, parts2);
    var a1, a2 := ForsRecoveredCalls(s, key, indices, parts1), ForsRecoveredCalls(s, key, indices, parts2);
    var b1, b2 := PayloadCalls(s, f1, tree, leaf, sigs1, s.d), PayloadCalls(s, f2, tree, leaf, sigs2, s.d);
    HtBinding(s, tree, leaf, f1, sigs1, f2, sigs2, s.d);
    assert SamePayload(s, tree, leaf, f1, sigs1, f2, sigs2, s.d);
    if CollisionIn(s.th, b1, b2) {
      CollisionInParts(s.th, a1, b1, a2, b2);
    } else if f1 == f2 && LayersAgree(s, tree, leaf, f1, sigs1, sigs2, s.d) {
      ForsBinding(s, key, indices, parts1, parts2);
      if parts1 != parts2 {
        CollisionInParts(s.th, a1, b1, a2, b2);
      }
    }
  }

  /** Conversely, agreeing signatures lead to the same root. */
  lemma {:induction false} AgreeingRoots(s: Scheme, tree: nat, leaf: nat, key: Key, indices: seq<nat>,
                                         parts1: seq<ForsPart>, sigs1: seq<XmssSig>, parts2: seq<ForsPart>,
                                         sigs2: seq<XmssSig>)
    requires Valid(s) && |indices| == |parts1| == s.k && HtFits(s, sigs1) && HtFits(s, sigs2)
    requires WholeAgrees(s, tree, leaf, key, indices, parts1, sigs1, parts2, sigs2)
    ensures VerificationRoot(s, tree, leaf, key, indices, parts1, sigs1)
         == VerificationRoot(s, tree, leaf, key, indices, parts2, sigs2)
  {
    PayloadsAgree(s, tree, leaf, ForsRecovered(s, key, indices, parts1), sigs1, sigs2, s.d);
  }

  /** Where every chunk fills its field, agreeing is being equal. */
  lemma {:induction false} SizedLayers(s: Scheme, tree: nat, leaf: nat, msg: Bytes, sigs1: seq<XmssSig>,
                                       sigs2: seq<XmssSig>)
    requires Valid(s) && |msg| == s.n && HtFits(s, sigs1) && HtFits(s, sigs2)
    requires forall j :: 0 <= j < s.d ==> XmssSized(s, sigs1[j]) && XmssSized(s, sigs2[j])
    requires LayersAgree(s, tree, leaf, msg, sigs1, sigs2, s.d)
    ensures sigs1 == sigs2
  {
    forall j | 0 <= j < s.d
      ensures sigs1[j] == sigs2[j]
    {
      assert LayerAgrees(s, tree, leaf, msg, sigs1, sigs2, j);
      SizedAgreeing(s, Payload(s, msg, tree, leaf, sigs1, j), sigs1[j], sigs2[j]);
    }
  }
}
