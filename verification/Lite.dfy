/** packages/pqc/src/slh-dsa-ref.ts: digest splitting, key generation, signing and verification. */
module Lite {
  import opened ByteStrings
  import opened Bits
  import opened Results
  import opened Tweaks
  import opened Schemes
  import opened Layout
  import opened Correctness
  import opened LiteSpec
  import Trees = LiteTrees
  import Hypertree = LiteHypertree
  import Fors = LiteFors

  // ---- digest splitting ---------------------------------------------------------------------------

  function Octal(v: nat, k: nat): nat {
    if k == 0 then v else Octal(v, k - 1) / 8
  }

  /** The four low octal digits of v, most significant first. */
  function OctalDigits(v: nat): seq<nat> {
    [v / 512 % 8, v / 64 % 8, v / 8 % 8, v % 8]
  }

  /** The loop of splitDigest that peels off the FORS indices, last one first. */
  method ForsIndices(v0: nat) returns (indices: seq<nat>)
    ensures indices == OctalDigits(v0)
  {
    var v := v0;
    var fors := new nat[4];
    var i := 3;
    while i >= 0
      invariant -1 <= i <= 3 && v == Octal(v0, 3 - i)
      invariant forall t :: i < t <= 3 ==> fors[t] == Octal(v0, 3 - t) % 8
    {
      fors[i] := v % 8;
      v := v / 8;
      i := i - 1;
    }
    OctalSteps(v0);
    indices := fors[..];
  }

  lemma {:induction false} OctalSteps(v: nat)
    ensures Octal(v, 0) == v && Octal(v, 1) == v / 8 && Octal(v, 2) == v / 64 && Octal(v, 3) == v / 512
  {
    assert Octal(v, 1) == v / 8 && Octal(v, 2) == v / 8 / 8 && Octal(v, 3) == v / 8 / 8 / 8;
    assert v / 8 / 8 == v / 64;
    assert v / 64 / 8 == v / 512;
  }

  /** The first loop of splitDigest. */
  method FirstTwoBytes(digest: Bytes) returns (v: nat)
    ensures v == ByteAt(digest, 0) * 256 + ByteAt(digest, 1)
  {
    v := 0;
    for i := 0 to 2
      invariant i == 0 ==> v == 0
      invariant i == 1 ==> v == ByteAt(digest, 0)
      invariant i == 2 ==> v == ByteAt(digest, 0) * 256 + ByteAt(digest, 1)
    {
      v := v * 256 + ByteAt(digest, i);
    }
  }

  /** The second: one byte of tree and leaf addressing. */
  method PathByte(digest: Bytes) returns (path: nat)
    ensures path == ByteAt(digest, 2)
  {
    path := 0;
    for j := 0 to 1
      invariant j == 0 ==> path == 0
      invariant j == 1 ==> path == ByteAt(digest, 2)
    {
      path := path * 256 + ByteAt(digest, 2 + j);
    }
  }

  method SplitDigest(digest: Bytes) returns (sp: Split)
    ensures sp == SplitOf(digest)
  {
    var v := FirstTwoBytes(digest);
    var fors := ForsIndices(v);
    var path := PathByte(digest);
    path := path % 256;
    var leafIdx := path % 16;
    var treeIdx := path / 16;
    sp := Split(fors, treeIdx % 16, leafIdx);
  }

  /**
   Exactly what of a digest is used: the low nibble of the first byte and the next two bytes. In
   particular the top four bits never matter.
   */
  lemma {:induction false} SplitDetermines(x: Bytes, y: Bytes)
    ensures SplitOf(x) == SplitOf(y)
       <==> ByteAt(x, 0) % 16 == ByteAt(y, 0) % 16 && ByteAt(x, 1) == ByteAt(y, 1) && ByteAt(x, 2) == ByteAt(y, 2)
  {
    var p, q := SplitOf(x), SplitOf(y);
    OctalSame(ByteAt(x, 0) * 256 + ByteAt(x, 1), ByteAt(y, 0) * 256 + ByteAt(y, 1));
    LowTwelve(ByteAt(x, 0), ByteAt(x, 1), ByteAt(y, 0), ByteAt(y, 1));
    SameNibbles(ByteAt(x, 2), ByteAt(y, 2));
    assert p == q <==> p.fors == q.fors && p.tree == q.tree && p.leaf == q.leaf;
  }

  lemma {:induction false} LowTwelve(a: byte, b: byte, c: byte, d: byte)
    ensures (a * 256 + b) % 4096 == (c * 256 + d) % 4096 <==> a % 16 == c % 16 && b == d
  {
    LowNibble(a, b);
    LowNibble(c, d);
  }

  lemma {:induction false} SameNibbles(a: byte, b: byte)
    ensures a == b <==> a / 16 == b / 16 && a % 16 == b % 16
  {
  }

  lemma {:induction false} OctalSame(v: nat, w: nat)
    ensures OctalDigits(v) == OctalDigits(w) <==> v % 4096 == w % 4096
  {
    OctalValue(v);
    OctalValue(w);
    if v % 4096 == w % 4096 {
      MostFirstInjective(OctalDigits(v), OctalDigits(w), 8);
    }
  }

  lemma {:induction false} OctalValue(v: nat)
    ensures FromMostFirst(OctalDigits(v), 8) == v % 4096
  {
    var (p, q, r) := (v / 512 % 8, v / 64 % 8, v / 8 % 8);
    AppendedDigit([], p, 8);
    assert [] + [p] == [p];
    AppendedDigit([p], q, 8);
    assert [p] + [q] == [p, q];
    AppendedDigit([p, q], r, 8);
    assert [p, q] + [r] == [p, q, r];
    AppendedDigit([p, q, r], v % 8, 8);
    assert [p, q, r] + [v % 8] == OctalDigits(v);
    Regrouped(v);
  }

  lemma {:induction false} Regrouped(v: nat)
    ensures ((v / 512 % 8 * 8 + v / 64 % 8) * 8 + v / 8 % 8) * 8 + v % 8 == v % 4096
  {
    OctalSteps(v);
    var (a, b, c) := (v / 8, v / 64, v / 512);
    FourDigits(v, a, b, c, c / 8, v % 8, a % 8, b % 8, c % 8);
  }

  lemma {:induction false} FourDigits(v: nat, a: nat, b: nat, c: nat, q: nat, d0: nat, d1: nat, d2: nat, d3: nat)
    requires v == 8 * a + d0 && a == 8 * b + d1 && b == 8 * c + d2 && c == 8 * q + d3
    requires d0 < 8 && d1 < 8 && d2 < 8 && d3 < 8
    ensures ((d3 * 8 + d2) * 8 + d1) * 8 + d0 == v % 4096
  {
    QuotientUnique(v, q, ((d3 * 8 + d2) * 8 + d1) * 8 + d0, 4096);
  }

  lemma {:induction false} LowNibble(a: byte, b: byte)
    ensures (a * 256 + b) % 4096 == a % 16 * 256 + b
  {
  }

  /**
   The source describes the indices as the high a * k bits of the digest. That reading, most
   significant bit first, is what the code computes exactly when the four nibbles of the first two
   bytes are all equal.
   */
  lemma {:induction false} HighBitsReading(digest: Bytes)
    requires |digest| == 32
    ensures Fields(digest, 3, 4) == SplitOf(digest).fors
       <==> digest[0] / 16 == digest[0] % 16 == digest[1] / 16 == digest[1] % 16
  {
    var b0: nat, b1: nat := digest[0], digest[1];
    var v := b0 * 256 + b1;
    BothReadings(digest, v);
    NibbleShift(b0 / 16, b0 % 16, b1 / 16, b1 % 16);
    LowNibble(digest[0], digest[1]);
    assert v / 16 == b0 * 16 + b1 / 16;
    assert b0 == 16 * (b0 / 16) + b0 % 16 && b1 == 16 * (b1 / 16) + b1 % 16;
  }

  lemma {:induction false} NibbleShift(p: nat, q: nat, r: nat, s: nat)
    requires p < 16 && q < 16 && r < 16 && s < 16
    ensures 256 * p + 16 * q + r == 256 * q + 16 * r + s <==> p == q == r == s
  {
  }

  lemma {:induction false} BothReadings(digest: Bytes, v: nat)
    requires |digest| >= 2 && v == ByteAt(digest, 0) * 256 + ByteAt(digest, 1)
    ensures Fields(digest, 3, 4) == SplitOf(digest).fors <==> v / 16 == v % 4096
  {
    var fields, fors := Fields(digest, 3, 4), SplitOf(digest).fors;
    assert Pow2(3) == 8;
    FirstTwelveBits(digest, v);
    FieldsValue(digest, 3, 4, 12);
    OctalValue(v);
    assert fors == OctalDigits(v);
    if v / 16 == v % 4096 {
      MostFirstInjective(fields, fors, 8);
    }
  }

  lemma {:induction false} FirstTwelveBits(digest: Bytes, v: nat)
    requires |digest| >= 2 && v == ByteAt(digest, 0) * 256 + ByteAt(digest, 1)
    ensures ReadBits(digest, 0, 12) == v / 16
  {
    ReadBitsSplit(digest, 0, 8, 4);
    ReadOneByte(digest, 0);
    HighNibble(digest, 1, 8);
    ShiftBytes(ByteAt(digest, 0), ByteAt(digest, 1));
  }

  lemma {:induction false} HighNibble(b: Bytes, m: nat, lo: nat)
    requires m < |b| && lo == 8 * m
    ensures ReadBits(b, lo, 4) == b[m] / 16 && Pow2(4) == 16
  {
    TopBits(b, m, 4);
  }

  lemma {:induction false} ShiftBytes(a: nat, b: nat)
    ensures (a * 256 + b) / 16 == a * 16 + b / 16
  {
    assert a * 256 + b == (a * 16 + b / 16) * 16 + b % 16;
  }

  /** On every digest that starts with the bytes 16 and 0 the two disagree: the bit set is one the code never uses. */
  lemma {:induction false} HighBitsReadingFails(digest: Bytes)
    requires |digest| == 32 && digest[0] == 16 && digest[1] == 0
    ensures Fields(digest, 3, 4) != SplitOf(digest).fors && SplitOf(digest) == SplitOf(digest[0 := 0])
  {
    HighBitsReading(digest);
    SplitDetermines(digest, digest[0 := 0]);
  }

  // ---- keys, signing, verification ------------------------------------------------------------------

  method Keygen(sha: Hash, seed: Bytes, skSeed: Bytes) returns (pk: PublicKey, sk: SecretKey, ghost log: seq<Sent>)
    ensures pk == PublicKeyOf(sha, seed, skSeed) && sk == SecretKey(seed, skSeed)
    ensures log == Encoded(LiteEnc(), KeygenCalls(sha, seed, skSeed))
  {
    var root;
    root, log := Trees.XmssRootOf(sha, seed, skSeed, 1, 0);
    pk := PublicKey(seed, root);
    sk := SecretKey(seed, skSeed);
  }

  lemma {:induction false} HonestPartsFit(sha: Hash, seed: Bytes, skSeed: Bytes, tree: nat, indices: seq<nat>)
    requires |indices| == 4
    ensures PartsFit(ForsSign(LiteScheme(sha, seed), LiteSecrets(sha, skSeed), Key(0, tree, 0), indices), 32, 3)
  {
    var s, secrets, key := LiteScheme(sha, seed), LiteSecrets(sha, skSeed), Key(0, tree, 0);
    forall t | 0 <= t < 4
      ensures PartFits(ForsSign(s, secrets, key, indices)[t], 32, 3)
    {
      Fors.PathSizes(sha, seed, skSeed, tree, ForsLeaf(s, t, indices[t]));
    }
  }

  /**
   The FORS key recomputed from a FORS signature made by the signer is T_len of the k Merkle roots
   over all leaves, whatever indices were signed.
   */
  lemma {:induction false} ForsRootFixed(sha: Hash, seed: Bytes, skSeed: Bytes, tree: nat, indices: seq<nat>)
    requires |indices| == 4 && forall t :: 0 <= t < 4 ==> indices[t] < 8
    ensures var s, secrets, key := LiteScheme(sha, seed), LiteSecrets(sha, skSeed), Key(0, tree, 0);
            var sig := Flatten(FlatParts(ForsSign(s, secrets, key, indices)));
            && ParsedFors(sig) == ForsSign(s, secrets, key, indices)
            && ForsRecovered(s, key, indices, ParsedFors(sig)) == ForsPk(s, secrets, key)
  {
    var s, secrets, key := LiteScheme(sha, seed), LiteSecrets(sha, skSeed), Key(0, tree, 0);
    HonestPartsFit(sha, seed, skSeed, tree, indices);
    PartsOfFlat(ForsSign(s, secrets, key, indices), 32, 3, 128, 4);
    assert Pow2(3) == 8;
    ForsKeyRecovered(s, secrets, key, indices);
  }

  lemma {:induction false} SignLog(sha: Hash, sk: SecretKey, message: Bytes, l1: seq<Sent>, l2: seq<Sent>,
                                   l3: seq<Sent>)
    requires Valid(LiteScheme(sha, sk.seed))
    requires var (s, secrets,
                  sp) := (LiteScheme(sha, sk.seed), LiteSecrets(sha, sk.skSeed), SplitOf(sha(sk.seed + message)));
             && l1 == Encoded(LiteEnc(), ForsSignCalls(s, secrets, ForsKey(sp), 4))
             && l2 == Encoded(LiteEnc(),
                              ForsRecoveredCalls(s, ForsKey(sp), sp.fors, ForsSign(s, secrets, ForsKey(sp), sp.fors)))
             && l3 == Encoded(LiteEnc(), HtSignCalls(s, secrets, ForsPk(s, secrets, ForsKey(sp)), sp.tree, sp.leaf, 2))
    ensures l1 + l2 + l3 == Encoded(LiteEnc(), SignCalls(sha, sk, message))
  {
    var (s, secrets, sp) := (LiteScheme(sha, sk.seed), LiteSecrets(sha, sk.skSeed), SplitOf(sha(sk.seed + message)));
    var a := ForsSignCalls(s, secrets, ForsKey(sp), 4);
    var b := ForsRecoveredCalls(s, ForsKey(sp), sp.fors, ForsSign(s, secrets, ForsKey(sp), sp.fors));
    EncodedAppend(LiteEnc(), a, b);
    EncodedAppend(LiteEnc(), a + b, HtSignCalls(s, secrets, ForsPk(s, secrets, ForsKey(sp)), sp.tree, sp.leaf, 2));
  }

  method Sign(sha: Hash, sk: SecretKey, message: Bytes) returns (sig: Signature, ghost log: seq<Sent>)
    ensures sig == SignatureOf(sha, sk, message)
    ensures log == Encoded(LiteEnc(), SignCalls(sha, sk, message))
  {
    var digest := sha(sk.seed + message);
    var sp := SplitDigest(digest);
    var forsSig, l1 := Fors.ForsSignAll(sha, sk.seed, sk.skSeed, sp.tree, sp.fors);
    var forsRoot, l2 := Fors.ForsRootFromSig(sha, sk.seed, sp.tree, sp.fors, forsSig);
    ForsRootFixed(sha, sk.seed, sk.skSeed, sp.tree, sp.fors);
    var layers, l3 := Hypertree.HtSign(sha, sk.seed, sk.skSeed, forsRoot, sp.tree, sp.leaf);
    SignLog(sha, sk, message, l1, l2, l3);
    log := l1 + l2 + l3;
    sig := Signature(forsSig, layers);
  }

  /** A signature with fewer than two layers makes the original throw; every other one gets an answer. */
  method Verify(sha: Hash, pk: PublicKey, message: Bytes, sig: Signature)
    returns (r: Result<bool>, ghost log: seq<Sent>)
    ensures r.Err? <==> |sig.layers| < 2
    ensures r.Ok? ==> r.value == Accepts(sha, pk, message, sig)
    ensures r.Ok? ==> log == Encoded(LiteEnc(), VerifyCalls(sha, pk.seed, sha(pk.seed + message), sig))
  {
    var digest := sha(pk.seed + message);
    var sp := SplitDigest(digest);
    var forsRoot, l1 := Fors.ForsRootFromSig(sha, pk.seed, sp.tree, sp.fors, sig.fors);
    var derived, l2 := Hypertree.HtRootFromSig(sha, pk.seed, forsRoot, sp.tree, sp.leaf, sig.layers);
    log := l1 + l2;
    if derived.Err? {
      return Err(derived.message), log;
    }
    EncodedAppend(LiteEnc(), ForsRecoveredCalls(LiteScheme(sha, pk.seed), ForsKey(sp), sp.fors, ParsedFors(sig.fors)),
                  PayloadCalls(LiteScheme(sha, pk.seed), forsRoot, sp.tree, sp.leaf, ParsedLayers(sig.layers), 2));
    if |derived.value| != |pk.root| {
      return Ok(false), log;
    }
    var same := SameBytes(derived.value, pk.root);
    r := Ok(same);
  }
}
