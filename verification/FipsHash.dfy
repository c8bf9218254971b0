/** packages/pqc/src/slh-dsa-128s-ref.ts: mutable addresses, tweakable hash, message digest and WOTS+ digits. */
module FipsHash {
  import opened ByteStrings
  import opened Bits
  import opened Tweaks
  import opened Digits
  import opened FipsSpec

  // ---- addresses ----------------------------------------------------------------------------------

  /** The address object the verifier's functions share and rewrite. */
  class Adrs {
    var layer: nat
    var tree: nat
    var typ: nat
    var keypair: nat
    var treeHeight: nat
    var treeIndex: nat

    /** newAdrs: all fields zero. */
    constructor ()
      ensures layer == 0 && tree == 0 && typ == 0 && keypair == 0 && treeHeight == 0 && treeIndex == 0
    {
      layer, tree, typ, keypair, treeHeight, treeIndex := 0, 0, 0, 0, 0, 0;
    }

    /** A copy made by object spread. */
    constructor Copy(a: Adrs)
      ensures layer == a.layer && tree == a.tree && typ == a.typ && keypair == a.keypair
      ensures treeHeight == a.treeHeight && treeIndex == a.treeIndex
    {
      layer, tree, typ, keypair, treeHeight, treeIndex := a.layer, a.tree, a.typ, a.keypair, a.treeHeight, a.treeIndex;
    }

    function Bytes(): Bytes
      reads this
    {
      Compressed(layer, tree, typ, keypair, treeHeight, treeIndex)
    }

    ghost predicate Under(key: Key)
      reads this
    {
      layer == key.layer && tree == key.tree && keypair == key.leaf
    }
  }

  /** A 22-byte buffer filled up to some offset. */
  ghost predicate Filled(buf: Bytes, done: Bytes) {
    |done| <= 22 && buf == done + Zeros(22 - |done|)
  }

  lemma {:induction false} FilledMore(buf: Bytes, done: Bytes, chunk: Bytes, off: nat)
    requires Filled(buf, done) && off == |done| && off + |chunk| <= 22
    ensures Filled(Splice(buf, off, chunk), done + chunk)
  {
    SpliceZeros(done, 22 - off, 22 - off - |chunk|, chunk, |chunk|);
  }

  method WriteU8(buf: array<byte>, off: nat, v: nat, ghost done: Bytes)
    requires buf.Length == 22 && off < 22 && off == |done| && Filled(buf[..], done)
    modifies buf
    ensures Filled(buf[..], done + BytesOf(v, 1))
  {
    FilledMore(buf[..], done, BytesOf(v, 1), off);
    buf[off] := v % 256;
    assert BytesOf(v, 1) == [v % 256] by {
      assert BytesOf(v / 256, 0) == [];
    }
    assert buf[..] == Splice(old(buf[..]), off, BytesOf(v, 1));
  }

  method WriteU32(buf: array<byte>, off: nat, v: nat, ghost done: Bytes)
    requires buf.Length == 22 && off + 4 <= 22 && off == |done| && Filled(buf[..], done)
    modifies buf
    ensures Filled(buf[..], done + U32(v))
  {
    FilledMore(buf[..], done, U32(v), off);
    Put32Inside(buf[..], off, v);
    WriteU32BE(buf, off, v);
  }

  /** Byte by byte from the last, the number shifted right by eight bits each time. */
  method WriteU64BE(buf: array<byte>, off: nat, v: nat)
    requires off + 8 <= buf.Length
    modifies buf
    ensures buf[..] == Splice(old(buf[..]), off, U64(v))
  {
    ghost var before := buf[..];
    var n := v;
    var i := 7;
    while i >= 0
      invariant -1 <= i <= 7
      invariant |buf[..]| == |before| && buf[..off + i + 1] == before[..off + i + 1]
      invariant buf[off + 8..] == before[off + 8..]
      invariant U64(v) == BytesOf(n, i + 1) + buf[off + i + 1..off + 8]
    {
      assert BytesOf(n, i + 1) == BytesOf(n / 256, i) + [n % 256];
      buf[off + i] := n % 256;
      n := n / 256;
      assert buf[off + i..off + 8] == [buf[off + i]] + buf[off + i + 1..off + 8];
      i := i - 1;
    }
  }

  method WriteU64(buf: array<byte>, off: nat, v: nat, ghost done: Bytes)
    requires buf.Length == 22 && off + 8 <= 22 && off == |done| && Filled(buf[..], done)
    modifies buf
    ensures Filled(buf[..], done + U64(v))
  {
    FilledMore(buf[..], done, U64(v), off);
    WriteU64BE(buf, off, v);
  }

  method CompressAdrs(a: Adrs) returns (out: Bytes)
    ensures out == a.Bytes()
  {
    var buf := ZeroBuffer(22);
    WriteU8(buf, 0, a.layer, []);
    ghost var done := BytesOf(a.layer, 1);
    WriteU64(buf, 1, a.tree, done);
    done := done + U64(a.tree);
    WriteU8(buf, 9, a.typ, done);
    done := done + BytesOf(a.typ, 1);
    WriteU32(buf, 10, a.keypair, done);
    done := done + U32(a.keypair);
    WriteU32(buf, 14, a.treeHeight, done);
    done := done + U32(a.treeHeight);
    WriteU32(buf, 18, a.treeIndex, done);
    out := buf[..];
  }

  // ---- hashing ------------------------------------------------------------------------------------

  /** F, H and T_l; at is the place the address object names. */
  method Thash(sha: Hash, pkSeed: Bytes, adrs: Adrs, msg: Bytes, ghost at: Address) returns (h: Bytes, ghost sent: Sent)
    requires adrs.Bytes() == FipsEnc()(at)
    ensures |h| == 16 && h == FipsScheme(sha, pkSeed).th(at, msg)
    ensures sent == Sent(FipsEnc()(at), msg)
  {
    var adrsC := CompressAdrs(adrs);
    sent := Sent(adrsC, msg);
    var digest := sha(ThashInput(pkSeed, adrsC, msg));
    h := digest[..16];
  }

  method Mgf1Sha256(sha: Hash, seed: Bytes, outLen: nat) returns (r: Bytes)
    ensures r == Mgf1(sha, seed, outLen)
  {
    var out: Bytes := [];
    var counter := 0;
    while |out| < outLen
      invariant out == Blocks(sha, seed, counter) && 32 * counter < outLen + 32
      decreases outLen - |out|
    {
      var c := CounterBytes(counter);
      out := out + sha(seed + c);
      counter := counter + 1;
    }
    assert counter == (outLen + 31) / 32;
    r := out[..outLen];
  }

  method Hmsg(sha: Hash, r: Bytes, pkSeed: Bytes, pkRoot: Bytes, m: Bytes) returns (digest: Bytes)
    ensures digest == MessageDigest(sha, r, pkSeed, pkRoot, m)
  {
    var inner := sha(r + pkSeed + pkRoot + m);
    digest := Mgf1Sha256(sha, r + pkSeed + inner, 30);
  }

  // ---- digits -------------------------------------------------------------------------------------

  /** Digit i of a message read four bits at a time; bytes past the end read as zero. */
  function DigitAt(msg: Bytes, i: nat): (d: nat)
    ensures d < 16
  {
    if i % 2 == 0 then ByteAt(msg, i / 2) / 16 else ByteAt(msg, i / 2) % 16
  }

  method BaseW(msg: Bytes, outlen: nat) returns (out: seq<nat>)
    ensures |out| == outlen && forall i :: 0 <= i < outlen ==> out[i] == DigitAt(msg, i)
  {
    out := [];
    var inIdx, bits, total := 0, 0, 0;
    for i := 0 to outlen
      invariant |out| == i && forall k :: 0 <= k < i ==> out[k] == DigitAt(msg, k)
      invariant bits == (if i % 2 == 0 then 0 else 4) && inIdx == (i + 1) / 2
      invariant i % 2 == 1 ==> total == ByteAt(msg, i / 2)
    {
      if bits == 0 {
        total := ByteAt(msg, inIdx);
        inIdx := inIdx + 1;
        bits := 8;
      }
      bits := bits - 4;
      ByteShift(total);
      out := out + [Shr(total, bits) % 16];
    }
  }

  lemma {:induction false} ByteShift(v: nat)
    ensures Shr(v, 0) == v && Shr(v, 4) == v / 16
  {
    ShrIsDivision(v, 4);
    assert Pow2(4) == 16;
  }

  /** The last two bytes of a number, last one first. */
  method TwoBytes(v: nat) returns (b: Bytes)
    ensures b == [v / 256 % 256, v % 256]
  {
    var rest := v;
    var csumBytes := ZeroBuffer(2);
    var i := 1;
    while i >= 0
      invariant -1 <= i <= 1
      invariant i == 1 ==> rest == v
      invariant i == 0 ==> rest == v / 256
      invariant i <= 0 ==> csumBytes[1] == v % 256
      invariant i == -1 ==> csumBytes[0] == v / 256 % 256
    {
      csumBytes[i] := rest % 256;
      rest := rest / 256;
      i := i - 1;
    }
    b := csumBytes[..];
  }

  method WotsChecksum(msgDigits: seq<nat>) returns (r: seq<nat>)
    requires |msgDigits| == 32 && Below(msgDigits, 16)
    ensures r == ThreeDigits(Deficit(msgDigits))
  {
    var csum := 0;
    for i := 0 to 32
      invariant csum == Deficit(msgDigits[..i])
    {
      assert msgDigits[..i + 1][..i] == msgDigits[..i];
      csum := csum + (15 - msgDigits[i]);
    }
    assert msgDigits[..32] == msgDigits;
    DeficitBound(msgDigits);
    var csumBytes := TwoBytes(csum * 16);
    r := BaseW(csumBytes, 3);
    ChecksumDigits(csum, csumBytes, r);
  }

  lemma {:induction false} ChecksumDigits(c: nat, b: Bytes, r: seq<nat>)
    requires c < 4096 && b == [c * 16 / 256 % 256, c * 16 % 256]
    requires |r| == 3 && forall i :: 0 <= i < 3 ==> r[i] == DigitAt(b, i)
    ensures r == ThreeDigits(c)
  {
    ShiftedChecksum(c);
    assert r == [DigitAt(b, 0), DigitAt(b, 1), DigitAt(b, 2)];
  }

  method MsgToChainDigits(msg16: Bytes) returns (digits: seq<nat>)
    ensures digits == ChainDigits(Exactly16(msg16))
  {
    var m := BaseW(msg16, 32);
    assert m == Nibbles(Exactly16(msg16));
    var c := WotsChecksum(m);
    digits := m + c;
  }
}
