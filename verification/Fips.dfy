/** packages/pqc/src/slh-dsa-128s-ref.ts: splitting the message digest, and verification. */
module Fips {
  import opened ByteStrings
  import opened Bits
  import opened Results
  import opened Tweaks
  import opened Schemes
  import opened Binding
  import opened FipsSpec
  import opened FipsHash
  import Trees = FipsTrees
  import Fors = FipsFors

  /** A big-endian number read byte by byte. */
  method ReadNumber(digest: Bytes, off: nat, count: nat) returns (v: nat)
    requires off + count <= |digest|
    ensures v == ValueOf(digest[off..off + count])
  {
    v := 0;
    for i := 0 to count
      invariant v == ValueOf(digest[off..off + i])
    {
      assert digest[off..off + i + 1][..i] == digest[off..off + i];
      v := v * 256 + digest[off + i];
    }
  }

  /** A digest too short for the tree bytes makes the original throw; short leaf bytes read as zero. */
  method SplitDigest(digest: Bytes) returns (r: Result<Split>)
    ensures r.Err? <==> |digest| < 28
    ensures r.Ok? ==> r.value == SplitOf(digest)
  {
    if |digest| < 28 {
      return Err("cannot convert undefined to a BigInt");
    }
    var md := Slice(digest, 0, 21);
    var treeIdx := ReadNumber(digest, 21, 7);
    treeIdx := treeIdx % Pow2(54);
    var leafIdx := 0;
    for i := 0 to 2
      invariant i == 0 ==> leafIdx == 0
      invariant i == 1 ==> leafIdx == ByteAt(digest, 28)
      invariant i == 2 ==> leafIdx == ByteAt(digest, 28) * 256 + ByteAt(digest, 29)
    {
      leafIdx := leafIdx * 256 + ByteAt(digest, 28 + i);
    }
    leafIdx := leafIdx % 512;
    r := Ok(Split(md, treeIdx, leafIdx));
  }

  /** The part of verify between the digest and the comparison. */
  method RecoverRoot(sha: Hash, pkSeed: Bytes, digest: Bytes, sigFors: Bytes, sigHt: Bytes)
    returns (htRoot: Bytes, ghost log: seq<Sent>)
    requires |digest| >= 28
    ensures Valid(FipsScheme(sha, pkSeed)) && |htRoot| == 16
    ensures var sp := SplitOf(digest);
            htRoot == Payload(FipsScheme(sha, pkSeed), RecoveredFors(sha, pkSeed, sp, sigFors), sp.tree, sp.leaf,
                              ParsedHt(sigHt), 7) &&
            log == Encoded(FipsEnc(),
                           VerificationCalls(FipsScheme(sha, pkSeed), sp.tree, sp.leaf, ForsKey(sp), Indices(sp.md),
                                             ParsedFors(sigFors), ParsedHt(sigHt)))
  {
    var parts := SplitDigest(digest);
    var sp := parts.value;
    var adrs := new Adrs();
    adrs.layer := 0;
    adrs.tree := sp.tree;
    adrs.typ := 3;
    adrs.keypair := sp.leaf;
    var forsRoot, l1 := Fors.ForsPkFromSig(sha, sigFors, sp.md, pkSeed, adrs, ForsKey(sp));
    ghost var l2;
    htRoot, l2 := Trees.HtRootFromSig(sha, sigHt, forsRoot, sp.tree, sp.leaf, pkSeed);
    EncodedAppend(FipsEnc(),
                  ForsRecoveredCalls(FipsScheme(sha, pkSeed), ForsKey(sp), Indices(sp.md), ParsedFors(sigFors)),
                  PayloadCalls(FipsScheme(sha, pkSeed), forsRoot, sp.tree, sp.leaf, ParsedHt(sigHt), 7));
    log := l1 + l2;
  }

  /** verify once the sizes are right. */
  method VerifySized(sha: Hash, pk: Bytes, msg: Bytes, sig: Bytes, ctx: Bytes) returns (ok: bool, ghost log: seq<Sent>)
    requires SizesOk(pk, sig, ctx)
    ensures ok <==> DerivedRoot(sha, pk, msg, sig, ctx) == pk[16..]
    ensures log == Encoded(FipsEnc(), VerifyCalls(sha, pk, msg, sig, ctx))
  {
    var pkSeed := Slice(pk, 0, 16);
    var pkRoot := Slice(pk, 16, 32);
    var size: byte := |ctx|;
    var wrappedM := [0, size] + ctx + msg;
    var r := Slice(sig, 0, 16);
    var sigFors := Slice(sig, 16, 2928);
    var sigHt := Slice(sig, 2928, |sig|);
    var digest := Hmsg(sha, r, pkSeed, pkRoot, wrappedM);
    assert digest == DigestOf(sha, pk, msg, sig, ctx) by {
      assert pkSeed == pk[..16] && pkRoot == pk[16..] && r == sig[..16] && wrappedM == Wrapped(ctx, msg);
    }
    assert pkSeed == pk[..16] && pkRoot == pk[16..];
    var htRoot;
    htRoot, log := RecoverRoot(sha, pkSeed, digest, sigFors, sigHt);
    if |htRoot| != |pkRoot| {
      return false, log;
    }
    ok := SameBytes(htRoot, pkRoot);
  }

  method Verify(sha: Hash, pk: Bytes, msg: Bytes, sig: Bytes, ctx: Bytes) returns (ok: bool, ghost log: seq<Sent>)
    ensures ok <==> Accepts(sha, pk, msg, sig, ctx)
    ensures SizesOk(pk, sig, ctx) ==> log == Encoded(FipsEnc(), VerifyCalls(sha, pk, msg, sig, ctx))
  {
    log := [];
    if |pk| != 32 {
      return false, log;
    }
    if |sig| != 7856 {
      return false, log;
    }
    if |ctx| > 255 {
      return false, log;
    }
    ok, log := VerifySized(sha, pk, msg, sig, ctx);
  }
}
