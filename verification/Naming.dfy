/**
 Under one key pair an address names one place: every call a signer makes hashes the message that
 the recursive definitions put at its address, whatever is being signed.
 */
module Naming {
  import opened ByteStrings
  import opened Bits
  import opened Tweaks
  import opened Chains
  import opened Merkle
  import opened Schemes
  import opened Correctness

  /** The message that belongs at an address. */
  function Preimage(s: Scheme, sk: Secrets, adrs: Address): Bytes
    requires s.w > 0
  {
    match adrs
    case WotsHash(key, c, j) => Chain(s.th, key, c, 0, j, sk.wots(key, c))
    case WotsPk(key) => Flatten(PublicTops(s, sk, key))
    case TreeNode(layer, tree, h, i) => Children(s.th, TreeAdr(layer, tree), XmssLeaves(s, sk, layer, tree), h, i)
    case ForsNode(key, h, i) =>
      if h == 0 then sk.fors(key, i) else Children(s.th, ForsAdr(key), ForsLeaves(s, sk, key), h, i)
    case ForsRoots(key) => Flatten(ForsTreeRoots(s, sk, key))
  }

  /** Every field fits the four or eight bytes an encoded address gives it. */
  predicate KeyFits(key: Key) {
    key.layer < 0x1_0000_0000 && key.tree < 0x1_0000_0000_0000_0000 && key.leaf < 0x1_0000_0000
  }

  predicate Fits(adrs: Address) {
    match adrs
    case WotsHash(key, c, j) => KeyFits(key) && c < 0x1_0000_0000 && j < 0x1_0000_0000
    case WotsPk(key) => KeyFits(key)
    case TreeNode(layer, tree, h, i) => KeyFits(Key(layer, tree, 0)) && h < 0x1_0000_0000 && i < 0x1_0000_0000
    case ForsNode(key, h, i) => KeyFits(key) && h < 0x1_0000_0000 && i < 0x1_0000_0000
    case ForsRoots(key) => KeyFits(key)
  }

  predicate Small(s: Scheme) {
    && 0 < s.w < 0x1_0000_0000 && s.len < 0x1_0000_0000 && s.d < 0x1_0000_0000
    && s.hp < 0x1_0000_0000 && Pow2(s.hp) < 0x1_0000_0000
    && s.a < 0x1_0000_0000 && s.k * Pow2(s.a) < 0x1_0000_0000
  }

  ghost predicate Named(s: Scheme, sk: Secrets, c: Call)
    requires s.w > 0
  {
    Fits(c.adrs) && c.msg == Preimage(s, sk, c.adrs)
  }

  ghost predicate AllNamed(s: Scheme, sk: Secrets, calls: seq<Call>)
    requires s.w > 0
  {
    forall c :: c in calls ==> Named(s, sk, c)
  }

  lemma {:induction false} ChainNamed(s: Scheme, sk: Secrets, key: Key, i: nat, steps: nat)
    requires Small(s) && KeyFits(key) && i < s.len && steps < s.w
    ensures AllNamed(s, sk, ChainCalls(s.th, key, i, 0, steps, sk.wots(key, i)))
  {
    if steps > 0 {
      var calls := ChainCalls(s.th, key, i, 0, steps, sk.wots(key, i));
      ChainNamed(s, sk, key, i, steps - 1);
      assert Named(s, sk, Call(WotsHash(key, i, steps - 1), Chain(s.th, key, i, 0, steps - 1, sk.wots(key, i))));
    }
  }

  lemma {:induction false} PublicNamed(s: Scheme, sk: Secrets, key: Key, m: nat)
    requires Small(s) && KeyFits(key) && m <= s.len
    ensures AllNamed(s, sk, PublicCalls(s, sk, key, m))
  {
    if m > 0 {
      PublicNamed(s, sk, key, m - 1);
      ChainNamed(s, sk, key, m - 1, s.w - 1);
    }
  }

  lemma {:induction false} SignedNamed(s: Scheme, sk: Secrets, key: Key, ds: seq<nat>, m: nat)
    requires Small(s) && KeyFits(key) && DigitsOk(s, ds) && m <= s.len
    ensures AllNamed(s, sk, SignedCalls(s, sk, key, ds, m))
  {
    if m > 0 {
      SignedNamed(s, sk, key, ds, m - 1);
      ChainNamed(s, sk, key, m - 1, ds[m - 1]);
    }
  }

  lemma {:induction false} LeavesNamed(s: Scheme, sk: Secrets, layer: nat, tree: nat, m: nat)
    requires Small(s) && KeyFits(Key(layer, tree, 0)) && m <= Pow2(s.hp)
    ensures AllNamed(s, sk, LeavesCalls(s, sk, layer, tree, m))
  {
    if m > 0 {
      var key := Key(layer, tree, m - 1);
      LeavesNamed(s, sk, layer, tree, m - 1);
      PublicNamed(s, sk, key, s.len);
      assert Named(s, sk, Call(WotsPk(key), Flatten(PublicTops(s, sk, key))));
    }
  }

  lemma {:induction false} Pow2Monotone(j: nat, k: nat)
    requires j <= k
    ensures Pow2(j) <= Pow2(k)
  {
    if j < k {
      Pow2Monotone(j, k - 1);
    }
  }

  lemma {:induction false} XmssLevelsNamed(s: Scheme, sk: Secrets, layer: nat, tree: nat, h: nat)
    requires Small(s) && KeyFits(Key(layer, tree, 0)) && h <= s.hp
    ensures AllNamed(s, sk, TreeCalls(s.th, TreeAdr(layer, tree), XmssLeaves(s, sk, layer, tree), 0, s.hp, h))
  {
    if h > 0 {
      var adr, leaves, n := TreeAdr(layer, tree), XmssLeaves(s, sk, layer, tree), Pow2(s.hp - h);
      XmssLevelsNamed(s, sk, layer, tree, h - 1);
      Pow2Monotone(s.hp - h, s.hp);
      var level := LevelCalls(s.th, adr, leaves, h, 0 * n, n);
      forall i | 0 <= i < n
        ensures Named(s, sk, level[i])
      {
        assert level[i] == Call(TreeNode(layer, tree, h, i), Children(s.th, adr, leaves, h, i));
      }
    }
  }

  lemma {:induction false} XmssTreeNamed(s: Scheme, sk: Secrets, layer: nat, tree: nat)
    requires Small(s) && KeyFits(Key(layer, tree, 0))
    ensures AllNamed(s, sk, XmssTreeCalls(s, sk, layer, tree))
  {
    LeavesNamed(s, sk, layer, tree, Pow2(s.hp));
    XmssLevelsNamed(s, sk, layer, tree, s.hp);
  }

  lemma {:induction false} KeyAtFits(s: Scheme, tree: nat, leaf: nat, j: nat)
    requires Small(s) && j < 0x1_0000_0000 && tree < 0x1_0000_0000_0000_0000 && leaf < Pow2(s.hp)
    ensures KeyFits(KeyAt(s, tree, leaf, j))
  {
    if j > 0 {
      KeyAtFits(s, tree, leaf, j - 1);
      ShrShrinks(KeyAt(s, tree, leaf, j - 1).tree, s.hp);
    }
  }

  lemma {:induction false} ShrShrinks(v: nat, k: nat)
    ensures Shr(v, k) <= v
  {
    if k > 0 {
      ShrShrinks(v, k - 1);
    }
  }

  lemma {:induction false} HtSignNamed(s: Scheme, sk: Secrets, msg: Bytes, tree: nat, leaf: nat, m: nat)
    requires Valid(s) && Small(s) && |msg| == s.n && m <= s.d && tree < 0x1_0000_0000_0000_0000 && leaf < Pow2(s.hp)
    ensures AllNamed(s, sk, HtSignCalls(s, sk, msg, tree, leaf, m))
  {
    if m > 0 {
      var key := KeyAt(s, tree, leaf, m - 1);
      HtSignNamed(s, sk, msg, tree, leaf, m - 1);
      HonestPayloadSize(s, sk, msg, tree, leaf, m - 1);
      KeyAtFits(s, tree, leaf, m - 1);
      SignedNamed(s, sk, key, s.digits(HonestPayload(s, sk, msg, tree, leaf, m - 1)), s.len);
      XmssTreeNamed(s, sk, key.layer, key.tree);
    }
  }

  // ---- FORS -----------------------------------------------------------------------------------

  lemma {:induction false} ForestBound(s: Scheme, t: nat, h: nat, i: nat)
    requires Small(s) && t < s.k && h <= s.a && i < Pow2(s.a - h)
    ensures t * Pow2(s.a - h) + i < 0x1_0000_0000
  {
    var p := Pow2(s.a - h);
    Pow2Monotone(s.a - h, s.a);
    assert (t + 1) * p == t * p + p;
    MulMonotone(t + 1, s.k, p);
    assert s.k * p <= s.k * Pow2(s.a) by {
      MulMonotone(p, Pow2(s.a), s.k);
    }
  }

  lemma {:induction false} ForsLeavesNamed(s: Scheme, sk: Secrets, key: Key, t: nat, m: nat)
    requires Small(s) && KeyFits(key) && t < s.k && m <= Pow2(s.a)
    ensures AllNamed(s, sk, ForsLeavesCalls(s, sk, key, t * Pow2(s.a), m))
  {
    if m > 0 {
      ForsLeavesNamed(s, sk, key, t, m - 1);
      ForestBound(s, t, 0, m - 1);
    }
  }

  lemma {:induction false} ForsLevelsNamed(s: Scheme, sk: Secrets, key: Key, t: nat, h: nat)
    requires Small(s) && KeyFits(key) && t < s.k && h <= s.a
    ensures AllNamed(s, sk, TreeCalls(s.th, ForsAdr(key), ForsLeaves(s, sk, key), t, s.a, h))
  {
    if h > 0 {
      var adr, leaves, n := ForsAdr(key), ForsLeaves(s, sk, key), Pow2(s.a - h);
      ForsLevelsNamed(s, sk, key, t, h - 1);
      var level := LevelCalls(s.th, adr, leaves, h, t * n, n);
      forall i | 0 <= i < n
        ensures Named(s, sk, level[i])
      {
        ForestBound(s, t, h, i);
        assert level[i] == Call(ForsNode(key, h, t * n + i), Children(s.th, adr, leaves, h, t * n + i));
      }
    }
  }

  lemma {:induction false} ForsSignNamed(s: Scheme, sk: Secrets, key: Key, m: nat)
    requires Small(s) && KeyFits(key) && m <= s.k
    ensures AllNamed(s, sk, ForsSignCalls(s, sk, key, m))
  {
    if m > 0 {
      ForsSignNamed(s, sk, key, m - 1);
      ForsLeavesNamed(s, sk, key, m - 1, Pow2(s.a));
      ForsLevelsNamed(s, sk, key, m - 1, s.a);
    }
  }

  /** Recovering the key from an honest FORS signature makes only calls of the trees, plus the one for the roots. */
  lemma {:induction false} ForsRecoveredNamed(s: Scheme, sk: Secrets, key: Key, indices: seq<nat>)
    requires Small(s) && KeyFits(key) && |indices| == s.k
    requires forall t :: 0 <= t < s.k ==> indices[t] < Pow2(s.a)
    ensures AllNamed(s, sk, ForsRecoveredCalls(s, key, indices, ForsSign(s, sk, key, indices)))
  {
    ForsSignNamed(s, sk, key, s.k);
    ForestRepeats(s, sk, key, indices, s.k);
    HonestRoots(s, sk, key, indices);
    assert Named(s, sk, Call(ForsRoots(key), Flatten(ForsTreeRoots(s, sk, key))));
  }
}
