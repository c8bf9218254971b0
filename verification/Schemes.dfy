/**
 The hash-based signature construction both reference modules instantiate: WOTS+ one-time
 signatures, XMSS trees of them, a hypertree of XMSS trees, and a FORS forest at the bottom.
 Every size is a parameter. Next to each value stands the sequence of hash calls that computes it.
 */
module Schemes {
  import opened ByteStrings
  import opened Bits
  import opened Tweaks
  import opened Chains
  import opened Merkle

  /**
   n: bytes of a hash value; w: chain length; len: chains per key; hp: height of an XMSS tree;
   d: layers; a: height of a FORS tree; k: FORS trees; th: the tweakable hash;
   digits: the chain positions a message is signed at.
   */
  datatype Scheme = Scheme(n: nat, w: nat, len: nat, hp: nat, d: nat, a: nat, k: nat,
                           th: Tweak, digits: Bytes -> seq<nat>)

  predicate DigitsOk(s: Scheme, ds: seq<nat>) {
    |ds| == s.len && forall i :: 0 <= i < s.len ==> ds[i] < s.w
  }

  ghost predicate Valid(s: Scheme) {
    && s.w > 0
    && Outputs(s.th, s.n)
    && forall m: Bytes {:trigger s.digits(m)} :: |m| == s.n ==> DigitsOk(s, s.digits(m))
  }

  /** How a signer derives the secret of a WOTS+ chain and of a FORS leaf. */
  datatype Secrets = Secrets(wots: (Key, nat) -> Bytes, fors: (Key, nat) -> Bytes)

  ghost predicate SecretsOk(s: Scheme, sk: Secrets) {
    && (forall key, i :: |sk.wots(key, i)| == s.n)
    && (forall key, i :: |sk.fors(key, i)| == s.n)
  }

  // ---- WOTS+ ----------------------------------------------------------------------------------

  function PublicTops(s: Scheme, sk: Secrets, key: Key): (tops: seq<Bytes>)
    requires s.w > 0
    ensures |tops| == s.len
  {
    seq(s.len, i requires 0 <= i < s.len => Chain(s.th, key, i, 0, s.w - 1, sk.wots(key, i)))
  }

  function PublicCalls(s: Scheme, sk: Secrets, key: Key, m: nat): seq<Call>
    requires s.w > 0
  {
    if m == 0 then []
    else PublicCalls(s, sk, key, m - 1) + ChainCalls(s.th, key, m - 1, 0, s.w - 1, sk.wots(key, m - 1))
  }

  lemma {:induction false} PublicLogStep(s: Scheme, enc: Address -> Bytes, sk: Secrets, key: Key, i: nat,
                                         log: seq<Sent>, more: seq<Sent>)
    requires s.w > 0 && log == Encoded(enc, PublicCalls(s, sk, key, i))
    requires more == Encoded(enc, ChainCalls(s.th, key, i, 0, s.w - 1, sk.wots(key, i)))
    ensures log + more == Encoded(enc, PublicCalls(s, sk, key, i + 1))
  {
    EncodedAppend(enc, PublicCalls(s, sk, key, i), ChainCalls(s.th, key, i, 0, s.w - 1, sk.wots(key, i)));
  }

  function SignedChunks(s: Scheme, sk: Secrets, key: Key, ds: seq<nat>): (sig: seq<Bytes>)
    requires DigitsOk(s, ds)
    ensures |sig| == s.len
  {
    seq(s.len, i requires 0 <= i < s.len => Chain(s.th, key, i, 0, ds[i], sk.wots(key, i)))
  }

  function SignedCalls(s: Scheme, sk: Secrets, key: Key, ds: seq<nat>, m: nat): seq<Call>
    requires DigitsOk(s, ds) && m <= s.len
  {
    if m == 0 then []
    else SignedCalls(s, sk, key, ds, m - 1) + ChainCalls(s.th, key, m - 1, 0, ds[m - 1], sk.wots(key, m - 1))
  }

  lemma {:induction false} SignedLogStep(s: Scheme, enc: Address -> Bytes, sk: Secrets, key: Key, ds: seq<nat>, i: nat,
                                         log: seq<Sent>, more: seq<Sent>)
    requires DigitsOk(s, ds) && i < s.len && log == Encoded(enc, SignedCalls(s, sk, key, ds, i))
    requires more == Encoded(enc, ChainCalls(s.th, key, i, 0, ds[i], sk.wots(key, i)))
    ensures log + more == Encoded(enc, SignedCalls(s, sk, key, ds, i + 1))
  {
    EncodedAppend(enc, SignedCalls(s, sk, key, ds, i), ChainCalls(s.th, key, i, 0, ds[i], sk.wots(key, i)));
  }

  /** The chain tops a verifier completes out of a signature. A short chunk leaves zero bytes behind it. */
  function RecoveredTops(s: Scheme, key: Key, ds: seq<nat>, sig: seq<Bytes>): (tops: seq<Bytes>)
    requires DigitsOk(s, ds) && |sig| == s.len
    ensures |tops| == s.len
  {
    seq(s.len, i requires 0 <= i < s.len => PadTo(Chain(s.th, key, i, ds[i], s.w - 1 - ds[i], sig[i]), s.n))
  }

  function RecoveredCalls(s: Scheme, key: Key, ds: seq<nat>, sig: seq<Bytes>, m: nat): seq<Call>
    requires DigitsOk(s, ds) && |sig| == s.len && m <= s.len
  {
    if m == 0 then []
    else RecoveredCalls(s, key, ds, sig, m - 1)
         + ChainCalls(s.th, key, m - 1, ds[m - 1], s.w - 1 - ds[m - 1], sig[m - 1])
  }

  lemma {:induction false} RecoveredLogStep(s: Scheme, enc: Address -> Bytes, key: Key, ds: seq<nat>, sig: seq<Bytes>,
                                            i: nat, log: seq<Sent>, start: nat, steps: nat, more: seq<Sent>)
    requires DigitsOk(s, ds) && |sig| == s.len && i < s.len && log == Encoded(enc, RecoveredCalls(s, key, ds, sig, i))
    requires start == ds[i] && steps == s.w - 1 - ds[i]
    requires more == Encoded(enc, ChainCalls(s.th, key, i, start, steps, sig[i]))
    ensures log + more == Encoded(enc, RecoveredCalls(s, key, ds, sig, i + 1))
  {
    EncodedAppend(enc, RecoveredCalls(s, key, ds, sig, i), ChainCalls(s.th, key, i, ds[i], s.w - 1 - ds[i], sig[i]));
  }

  // ---- XMSS -----------------------------------------------------------------------------------

  datatype XmssSig = XmssSig(wots: seq<Bytes>, auth: seq<Bytes>)

  ghost predicate XmssSized(s: Scheme, sig: XmssSig) {
    && |sig.wots| == s.len && Sized(sig.wots, s.n)
    && |sig.auth| == s.hp && Sized(sig.auth, s.n)
  }

  function TreeAdr(layer: nat, tree: nat): NodeAddress {
    (h: nat, i: nat) => TreeNode(layer, tree, h, i)
  }

  /** The WOTS+ public key of one leaf, compressed. */
  function LeafValue(s: Scheme, key: Key, tops: seq<Bytes>): Bytes {
    s.th(WotsPk(key), Flatten(tops))
  }

  function XmssLeaves(s: Scheme, sk: Secrets, layer: nat, tree: nat): nat -> Bytes
    requires s.w > 0
  {
    (j: nat) => LeafValue(s, Key(layer, tree, j), PublicTops(s, sk, Key(layer, tree, j)))
  }

  function XmssRoot(s: Scheme, sk: Secrets, layer: nat, tree: nat): Bytes
    requires s.w > 0
  {
    Node(s.th, TreeAdr(layer, tree), XmssLeaves(s, sk, layer, tree), s.hp, 0)
  }

  function LeavesCalls(s: Scheme, sk: Secrets, layer: nat, tree: nat, m: nat): seq<Call>
    requires s.w > 0
  {
    if m == 0 then []
    else LeavesCalls(s, sk, layer, tree, m - 1) + LeafCalls(s, sk, Key(layer, tree, m - 1))
  }

  function LeafCalls(s: Scheme, sk: Secrets, key: Key): seq<Call>
    requires s.w > 0
  {
    PublicCalls(s, sk, key, s.len) + [Call(WotsPk(key), Flatten(PublicTops(s, sk, key)))]
  }

  /** All calls that build one XMSS tree. */
  function XmssTreeCalls(s: Scheme, sk: Secrets, layer: nat, tree: nat): seq<Call>
    requires s.w > 0
  {
    LeavesCalls(s, sk, layer, tree, Pow2(s.hp))
    + TreeCalls(s.th, TreeAdr(layer, tree), XmssLeaves(s, sk, layer, tree), 0, s.hp, s.hp)
  }

  function XmssSign(s: Scheme, sk: Secrets, key: Key, msg: Bytes): XmssSig
    requires s.w > 0 && DigitsOk(s, s.digits(msg))
  {
    XmssSig(SignedChunks(s, sk, key, s.digits(msg)),
            AuthPath(s.th, TreeAdr(key.layer, key.tree), XmssLeaves(s, sk, key.layer, key.tree), key.leaf, s.hp))
  }

  function XmssSignCalls(s: Scheme, sk: Secrets, key: Key, msg: Bytes): seq<Call>
    requires s.w > 0 && DigitsOk(s, s.digits(msg))
  {
    SignedCalls(s, sk, key, s.digits(msg), s.len) + XmssTreeCalls(s, sk, key.layer, key.tree)
  }

  /** The root a verifier derives from an XMSS signature. */
  function RecoveredRoot(s: Scheme, key: Key, msg: Bytes, sig: XmssSig): Bytes
    requires DigitsOk(s, s.digits(msg)) && |sig.wots| == s.len
  {
    Climb(s.th, TreeAdr(key.layer, key.tree), key.leaf,
          LeafValue(s, key, RecoveredTops(s, key, s.digits(msg), sig.wots)), sig.auth)
  }

  function RecoveredRootCalls(s: Scheme, key: Key, msg: Bytes, sig: XmssSig): seq<Call>
    requires DigitsOk(s, s.digits(msg)) && |sig.wots| == s.len
  {
    var tops := RecoveredTops(s, key, s.digits(msg), sig.wots);
    RecoveredCalls(s, key, s.digits(msg), sig.wots, s.len)
    + [Call(WotsPk(key), Flatten(tops))]
    + ClimbCalls(s.th, TreeAdr(key.layer, key.tree), key.leaf, LeafValue(s, key, tops), sig.auth)
  }

  // ---- hypertree ------------------------------------------------------------------------------

  /** The key pair used at layer j on the path that starts at key pair leaf of tree. */
  function KeyAt(s: Scheme, tree: nat, leaf: nat, j: nat): (key: Key)
    ensures key.layer == j
  {
    if j == 0 then Key(0, tree, leaf)
    else
      var below := KeyAt(s, tree, leaf, j - 1).tree;
      Key(j, Shr(below, s.hp), below % Pow2(s.hp))
  }

  ghost predicate HtShaped(s: Scheme, sigs: seq<XmssSig>) {
    |sigs| == s.d && forall j :: 0 <= j < s.d ==> |sigs[j].wots| == s.len && |sigs[j].auth| == s.hp
  }

  /** What layer j is asked to sign: msg at the bottom, the recovered root of the layer below elsewhere. */
  function Payload(s: Scheme, msg: Bytes, tree: nat, leaf: nat, sigs: seq<XmssSig>, j: nat): (r: Bytes)
    requires Valid(s) && |msg| == s.n && j <= |sigs|
    requires forall i :: 0 <= i < |sigs| ==> |sigs[i].wots| == s.len
    ensures |r| == s.n
  {
    if j == 0 then msg
    else
      var below := Payload(s, msg, tree, leaf, sigs, j - 1);
      var key := KeyAt(s, tree, leaf, j - 1);
      ClimbSize(s.th, s.n, TreeAdr(key.layer, key.tree), key.leaf,
                LeafValue(s, key, RecoveredTops(s, key, s.digits(below), sigs[j - 1].wots)), sigs[j - 1].auth);
      RecoveredRoot(s, key, below, sigs[j - 1])
  }

  /** The hash calls that derive the root of layer j. */
  function LayerCalls(s: Scheme, msg: Bytes, tree: nat, leaf: nat, sigs: seq<XmssSig>, j: nat): seq<Call>
    requires Valid(s) && |msg| == s.n && j < |sigs|
    requires forall i :: 0 <= i < |sigs| ==> |sigs[i].wots| == s.len
  {
    RecoveredRootCalls(s, KeyAt(s, tree, leaf, j), Payload(s, msg, tree, leaf, sigs, j), sigs[j])
  }

  function PayloadCalls(s: Scheme, msg: Bytes, tree: nat, leaf: nat, sigs: seq<XmssSig>, j: nat): seq<Call>
    requires Valid(s) && |msg| == s.n && j <= |sigs|
    requires forall i :: 0 <= i < |sigs| ==> |sigs[i].wots| == s.len
  {
    if j == 0 then []
    else PayloadCalls(s, msg, tree, leaf, sigs, j - 1) + LayerCalls(s, msg, tree, leaf, sigs, j - 1)
  }

  lemma {:induction false} LastLayer(s: Scheme, msg: Bytes, tree: nat, leaf: nat, sigs: seq<XmssSig>, j: nat, m: nat)
    requires Valid(s) && |msg| == s.n && m == j + 1 <= |sigs|
    requires forall i :: 0 <= i < |sigs| ==> |sigs[i].wots| == s.len
    ensures PayloadCalls(s, msg, tree, leaf, sigs, m)
         == PayloadCalls(s, msg, tree, leaf, sigs, j) + LayerCalls(s, msg, tree, leaf, sigs, j)
  {
  }

  /** What an honest signer has layer j sign. */
  function HonestPayload(s: Scheme, sk: Secrets, msg: Bytes, tree: nat, leaf: nat, j: nat): Bytes
    requires s.w > 0
  {
    if j == 0 then msg else XmssRoot(s, sk, j - 1, KeyAt(s, tree, leaf, j - 1).tree)
  }

  lemma {:induction false} HonestPayloadSize(s: Scheme, sk: Secrets, msg: Bytes, tree: nat, leaf: nat, j: nat)
    requires Valid(s) && |msg| == s.n
    ensures |HonestPayload(s, sk, msg, tree, leaf, j)| == s.n
  {
  }

  function HtSignLayer(s: Scheme, sk: Secrets, msg: Bytes, tree: nat, leaf: nat, j: nat): (sig: XmssSig)
    requires Valid(s) && |msg| == s.n
    ensures |sig.wots| == s.len && |sig.auth| == s.hp
  {
    HonestPayloadSize(s, sk, msg, tree, leaf, j);
    XmssSign(s, sk, KeyAt(s, tree, leaf, j), HonestPayload(s, sk, msg, tree, leaf, j))
  }

  function HtSign(s: Scheme, sk: Secrets, msg: Bytes, tree: nat, leaf: nat, m: nat): (sigs: seq<XmssSig>)
    requires Valid(s) && |msg| == s.n
    ensures |sigs| == m
    ensures forall i :: 0 <= i < m ==> |sigs[i].wots| == s.len && |sigs[i].auth| == s.hp
  {
    seq(m, j requires 0 <= j < m => HtSignLayer(s, sk, msg, tree, leaf, j))
  }

  /** What signing does at layer j: sign its payload, then build its tree once more for the layer above. */
  function SignLayerCalls(s: Scheme, sk: Secrets, msg: Bytes, tree: nat, leaf: nat, j: nat): seq<Call>
    requires Valid(s) && |msg| == s.n
  {
    HonestPayloadSize(s, sk, msg, tree, leaf, j);
    var key := KeyAt(s, tree, leaf, j);
    XmssSignCalls(s, sk, key, HonestPayload(s, sk, msg, tree, leaf, j)) + XmssTreeCalls(s, sk, key.layer, key.tree)
  }

  function HtSignCalls(s: Scheme, sk: Secrets, msg: Bytes, tree: nat, leaf: nat, m: nat): seq<Call>
    requires Valid(s) && |msg| == s.n
  {
    if m == 0 then []
    else HtSignCalls(s, sk, msg, tree, leaf, m - 1) + SignLayerCalls(s, sk, msg, tree, leaf, m - 1)
  }

  lemma {:induction false} LastSigned(s: Scheme, sk: Secrets, msg: Bytes, tree: nat, leaf: nat, j: nat)
    requires Valid(s) && |msg| == s.n
    ensures HtSignCalls(s, sk, msg, tree, leaf, j + 1)
         == HtSignCalls(s, sk, msg, tree, leaf, j) + SignLayerCalls(s, sk, msg, tree, leaf, j)
  {
  }

  // ---- FORS -----------------------------------------------------------------------------------

  datatype ForsPart = ForsPart(secret: Bytes, auth: seq<Bytes>)

  function ForsAdr(key: Key): NodeAddress {
    (h: nat, i: nat) => ForsNode(key, h, i)
  }

  function ForsLeaves(s: Scheme, sk: Secrets, key: Key): nat -> Bytes {
    (g: nat) => s.th(ForsNode(key, 0, g), sk.fors(key, g))
  }

  function ForsTreeRoot(s: Scheme, sk: Secrets, key: Key, t: nat): Bytes {
    Node(s.th, ForsAdr(key), ForsLeaves(s, sk, key), s.a, t)
  }

  function ForsTreeRoots(s: Scheme, sk: Secrets, key: Key): (roots: seq<Bytes>)
    ensures |roots| == s.k
  {
    seq(s.k, t requires 0 <= t < s.k => ForsTreeRoot(s, sk, key, t))
  }

  /** The FORS public key: all k Merkle roots, compressed. */
  function ForsPk(s: Scheme, sk: Secrets, key: Key): Bytes {
    s.th(ForsRoots(key), Flatten(ForsTreeRoots(s, sk, key)))
  }

  /** Leaf i of tree t in the numbering of the whole forest. */
  function ForsLeaf(s: Scheme, t: nat, i: nat): nat {
    t * Pow2(s.a) + i
  }

  function ForsSignTree(s: Scheme, sk: Secrets, key: Key, g: nat): ForsPart {
    ForsPart(sk.fors(key, g), AuthPath(s.th, ForsAdr(key), ForsLeaves(s, sk, key), g, s.a))
  }

  function ForsSign(s: Scheme, sk: Secrets, key: Key, indices: seq<nat>): (parts: seq<ForsPart>)
    requires |indices| == s.k
    ensures |parts| == s.k
  {
    seq(s.k, t requires 0 <= t < s.k => ForsSignTree(s, sk, key, ForsLeaf(s, t, indices[t])))
  }

  function ForsLeavesCalls(s: Scheme, sk: Secrets, key: Key, lo: nat, m: nat): seq<Call> {
    if m == 0 then []
    else ForsLeavesCalls(s, sk, key, lo, m - 1)
         + [Call(ForsNode(key, 0, lo + m - 1), sk.fors(key, lo + m - 1))]
  }

  /** All calls that build FORS tree t. */
  function ForsTreeCalls(s: Scheme, sk: Secrets, key: Key, t: nat): seq<Call> {
    ForsLeavesCalls(s, sk, key, t * Pow2(s.a), Pow2(s.a))
    + TreeCalls(s.th, ForsAdr(key), ForsLeaves(s, sk, key), t, s.a, s.a)
  }

  function ForsSignCalls(s: Scheme, sk: Secrets, key: Key, m: nat): seq<Call> {
    if m == 0 then [] else ForsSignCalls(s, sk, key, m - 1) + ForsTreeCalls(s, sk, key, m - 1)
  }

  function ForsClimb(s: Scheme, key: Key, g: nat, part: ForsPart): Bytes {
    Climb(s.th, ForsAdr(key), g, s.th(ForsNode(key, 0, g), part.secret), part.auth)
  }

  function ForsClimbCalls(s: Scheme, key: Key, g: nat, part: ForsPart): seq<Call> {
    [Call(ForsNode(key, 0, g), part.secret)]
    + ClimbCalls(s.th, ForsAdr(key), g, s.th(ForsNode(key, 0, g), part.secret), part.auth)
  }

  function ForsRecoveredRoots(s: Scheme, key: Key, indices: seq<nat>, parts: seq<ForsPart>): (roots: seq<Bytes>)
    requires |indices| == |parts| == s.k
    ensures |roots| == s.k
  {
    seq(s.k, t requires 0 <= t < s.k => ForsClimb(s, key, ForsLeaf(s, t, indices[t]), parts[t]))
  }

  /** The FORS public key a verifier derives from a FORS signature. */
  function ForsRecovered(s: Scheme, key: Key, indices: seq<nat>, parts: seq<ForsPart>): Bytes
    requires |indices| == |parts| == s.k
  {
    s.th(ForsRoots(key), Flatten(ForsRecoveredRoots(s, key, indices, parts)))
  }

  function ForsClimbsCalls(s: Scheme, key: Key, indices: seq<nat>, parts: seq<ForsPart>, m: nat): seq<Call>
    requires |indices| == |parts| == s.k && m <= s.k
  {
    if m == 0 then []
    else ForsClimbsCalls(s, key, indices, parts, m - 1)
         + ForsClimbCalls(s, key, ForsLeaf(s, m - 1, indices[m - 1]), parts[m - 1])
  }

  function ForsRecoveredCalls(s: Scheme, key: Key, indices: seq<nat>, parts: seq<ForsPart>): seq<Call>
    requires |indices| == |parts| == s.k
  {
    ForsClimbsCalls(s, key, indices, parts, s.k)
    + [Call(ForsRoots(key), Flatten(ForsRecoveredRoots(s, key, indices, parts)))]
  }
}
