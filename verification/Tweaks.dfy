/** Addresses, tweakable hashes and the calls a run makes to them. */
module Tweaks {
  import opened ByteStrings

  /** A WOTS+ or FORS key pair: layer, tree within the layer, key pair within the tree. */
  datatype Key = Key(layer: nat, tree: nat, leaf: nat)

  /** The hash addresses of section 4.2 of FIPS 205; each names one place of the signature structure. */
  datatype Address =
    | WotsHash(key: Key, chain: nat, hash: nat)
    | WotsPk(key: Key)
    | TreeNode(layer: nat, tree: nat, height: nat, index: nat)
    | ForsNode(key: Key, height: nat, index: nat)
    | ForsRoots(key: Key)

  type Tweak = (Address, Bytes) -> Bytes

  ghost predicate Outputs(th: Tweak, n: nat) {
    forall a, m :: |th(a, m)| == n
  }

  /** One evaluation of a tweakable hash. */
  datatype Call = Call(adrs: Address, msg: Bytes)

  /** The same evaluation as the code sees it: the encoded address and the message. */
  datatype Sent = Sent(adrs: Bytes, msg: Bytes)

  function Encoded(enc: Address -> Bytes, calls: seq<Call>): (r: seq<Sent>)
    ensures |r| == |calls|
  {
    seq(|calls|, i requires 0 <= i < |calls| => Sent(enc(calls[i].adrs), calls[i].msg))
  }

  lemma {:induction false} EncodedAppend(enc: Address -> Bytes, xs: seq<Call>, ys: seq<Call>)
    ensures Encoded(enc, xs + ys) == Encoded(enc, xs) + Encoded(enc, ys)
  {
  }

  lemma {:induction false} EncodedOne(enc: Address -> Bytes, xs: seq<Call>, adrs: Address, msg: Bytes)
    ensures Encoded(enc, xs + [Call(adrs, msg)]) == Encoded(enc, xs) + [Sent(enc(adrs), msg)]
  {
  }

  /** A call of one run and a call of another hash different messages at one address to one value. */
  ghost predicate CollisionIn(th: Tweak, xs: seq<Call>, ys: seq<Call>) {
    exists x, y :: x in xs && y in ys && Collide(th, x, y)
  }

  ghost predicate Collide(th: Tweak, x: Call, y: Call) {
    x.adrs == y.adrs && x.msg != y.msg && th(x.adrs, x.msg) == th(y.adrs, y.msg)
  }

  /** Every call of xs is one of ys. */
  ghost predicate Within(xs: seq<Call>, ys: seq<Call>) {
    forall c :: c in xs ==> c in ys
  }

  lemma {:induction false} CollisionExtends(th: Tweak, xs: seq<Call>, ys: seq<Call>, xs': seq<Call>, ys': seq<Call>)
    requires CollisionIn(th, xs, ys) && Within(xs, xs') && Within(ys, ys')
    ensures CollisionIn(th, xs', ys')
  {
  }

  lemma {:induction false} WithinParts(a: seq<Call>, a': seq<Call>, b: seq<Call>, b': seq<Call>)
    requires Within(a, a') && Within(b, b')
    ensures Within(a + b, a' + b')
  {
  }

  lemma {:induction false} CollisionInParts(th: Tweak, a1: seq<Call>, b1: seq<Call>, a2: seq<Call>, b2: seq<Call>)
    requires CollisionIn(th, a1, a2) || CollisionIn(th, b1, b2)
    ensures CollisionIn(th, a1 + b1, a2 + b2)
  {
  }

  /** Equal outputs at one address come from equal messages or from a collision. */
  lemma {:induction false} EqualOrCollide(th: Tweak, xs: seq<Call>, ys: seq<Call>, adrs: Address, m1: Bytes, m2: Bytes)
    requires Call(adrs, m1) in xs && Call(adrs, m2) in ys
    requires th(adrs, m1) == th(adrs, m2)
    ensures m1 == m2 || CollisionIn(th, xs, ys)
  {
    assert m1 != m2 ==> Collide(th, Call(adrs, m1), Call(adrs, m2));
  }

  // ---- tweakable hashes made of SHA-256 ------------------------------------------------------------

  /** SHA-256 over seed, encoded address and message. */
  function Keyed(sha: Hash, seed: Bytes, enc: Address -> Bytes): Tweak {
    (a: Address, m: Bytes) => sha(seed + enc(a) + m)
  }

  lemma {:induction false} KeyedOutputs(sha: Hash, seed: Bytes, enc: Address -> Bytes)
    ensures Outputs(Keyed(sha, seed, enc), 32)
  {
  }

  /** th hashes prefix, encoded address and message with SHA-256 and keeps the first cut bytes. */
  ghost predicate HashesAs(th: Tweak, sha: Hash, prefix: Bytes, cut: nat, enc: Address -> Bytes)
    requires cut <= 32
  {
    forall a, m :: th(a, m) == sha(prefix + enc(a) + m)[..cut]
  }

  lemma {:induction false} KeyedHashes(sha: Hash, seed: Bytes, enc: Address -> Bytes)
    ensures HashesAs(Keyed(sha, seed, enc), sha, seed, 32, enc)
  {
  }

  /** Two hash calls under one address: different SHA-256 inputs, digests that share their first cut bytes. */
  ghost predicate Collides(sha: Hash, prefix: Bytes, cut: nat, x: Sent, y: Sent)
    requires cut <= 32
  {
    && x.adrs == y.adrs && x.msg != y.msg
    && prefix + x.adrs + x.msg != prefix + y.adrs + y.msg
    && sha(prefix + x.adrs + x.msg)[..cut] == sha(prefix + y.adrs + y.msg)[..cut]
  }

  /** Some call of one run collides with a call of the other under the same address. */
  ghost predicate ShaCollision(sha: Hash, prefix: Bytes, cut: nat, log1: seq<Sent>, log2: seq<Sent>)
    requires cut <= 32
  {
    exists i, j :: 0 <= i < |log1| && 0 <= j < |log2| && Collides(sha, prefix, cut, log1[i], log2[j])
  }

  lemma {:induction false} CollisionIsSha(th: Tweak, sha: Hash, prefix: Bytes, cut: nat, enc: Address -> Bytes,
                                          xs: seq<Call>, ys: seq<Call>)
    requires cut <= 32 && HashesAs(th, sha, prefix, cut, enc) && CollisionIn(th, xs, ys)
    ensures ShaCollision(sha, prefix, cut, Encoded(enc, xs), Encoded(enc, ys))
  {
    var x, y :| x in xs && y in ys && Collide(th, x, y);
    var i, j :| 0 <= i < |xs| && 0 <= j < |ys| && xs[i] == x && ys[j] == y;
    SuffixDiffers(prefix + enc(x.adrs), x.msg, y.msg);
    assert Collides(sha, prefix, cut, Encoded(enc, xs)[i], Encoded(enc, ys)[j]);
  }

  lemma {:induction false} SuffixDiffers(p: Bytes, x: Bytes, y: Bytes)
    requires x != y
    ensures p + x != p + y
  {
    assert (p + x)[|p|..] == x && (p + y)[|p|..] == y;
  }
}
