/** packages/pqc/src/slh-dsa-128s-ref.ts: FORS indices and the FORS public key of a signature. */
module FipsFors {
  import opened ByteStrings
  import opened Bits
  import opened Tweaks
  import opened Schemes
  import opened Walks
  import opened Layout
  import opened FipsSpec
  import opened FipsHash

  // ---- indices ------------------------------------------------------------------------------------

  /** Twelve bits of md from bitOff on, one by one. */
  method ReadIndex(md: Bytes, bitOff: nat) returns (v: nat)
    ensures v == ReadBits(md, bitOff, 12)
  {
    v := 0;
    for b := 0 to 12
      invariant v == ReadBits(md, bitOff, b)
    {
      var bitIdx := bitOff + b;
      var byt := ByteAt(md, bitIdx / 8);
      ShrIsDivision(byt, 7 - bitIdx % 8);
      v := v * 2 + Shr(byt, 7 - bitIdx % 8) % 2;
    }
  }

  method ExtractIndices(md: Bytes) returns (indices: seq<nat>)
    ensures indices == Indices(md) && forall t :: 0 <= t < 14 ==> indices[t] < 4096
  {
    indices := [];
    var bitOff := 0;
    for i := 0 to 14
      invariant bitOff == i * 12 && indices == Fields(md, 12, i)
    {
      var v := ReadIndex(md, bitOff);
      indices := indices + [v];
      bitOff := bitOff + 12;
    }
    Powers();
    assert Below(Fields(md, 12, 14), 4096);
  }

  // ---- one tree -----------------------------------------------------------------------------------

  /** One level of a FORS walk: height and parent index go into the address object, the pair is hashed. */
  method ClimbRound(sha: Hash, i: nat, ghost idx: nat, auth: Bytes, j: nat, cur: nat, node: Bytes, pkSeed: Bytes,
                    leafAdrs: Adrs, ghost key: Key, ghost g: nat, ghost part: ForsPart, ghost log: seq<Sent>)
    returns (node': Bytes, ghost log': seq<Sent>)
    requires leafAdrs.Under(key) && leafAdrs.typ == 3
    requires idx < Pow2(12) && g == i * Pow2(12) + idx && j < 12 && cur == Shr(idx, j)
    requires part.auth == Chunks(auth, 16, 12)
    requires Climbed(FipsScheme(sha, pkSeed), FipsEnc(), key, g, part, j, node, log)
    modifies leafAdrs
    ensures leafAdrs.Under(key) && leafAdrs.typ == 3
    ensures |node'| == 16 && Climbed(FipsScheme(sha, pkSeed), FipsEnc(), key, g, part, j + 1, node', log')
  {
    var up := j + 1;
    var lo, hi := j * 16, up * 16;
    var sib := Slice(auth, lo, hi);
    ChunkIsSlice(auth, 16, 12, j, lo, hi);
    var parent := ParentWord(i, 12, up, cur, idx, g, j);
    leafAdrs.treeHeight := up;
    leafAdrs.treeIndex := parent;
    var merged := if cur % 2 == 0 then node + sib else sib + node;
    ghost var sent;
    node', sent := Thash(sha, pkSeed, leafAdrs, merged, ForsNode(key, up, parent));
    ClimbedOne(FipsScheme(sha, pkSeed), FipsEnc(), key, g, part, j, up, parent, node, merged, log, sent.adrs, node');
    log' := log + [sent];
  }

  /** One tree of forsPkFromSig: the leaf from the revealed secret, then the walk up its path. */
  method TreeFromSig(sha: Hash, sk: Bytes, authPath: Bytes, i: nat, idx: nat, pkSeed: Bytes, adrs: Adrs, ghost key: Key,
                     ghost g: nat, ghost part: ForsPart)
    returns (node: Bytes, ghost log: seq<Sent>)
    requires adrs.Under(key) && idx < Pow2(12) && g == i * Pow2(12) + idx
    requires part == ForsPart(sk, Chunks(authPath, 16, 12))
    ensures |node| == 16 && node == ForsClimb(FipsScheme(sha, pkSeed), key, g, part)
    ensures log == Encoded(FipsEnc(), ForsClimbCalls(FipsScheme(sha, pkSeed), key, g, part))
  {
    ghost var s := FipsScheme(sha, pkSeed);
    var leafAdrs := new Adrs.Copy(adrs);
    leafAdrs.typ := 3;
    leafAdrs.treeHeight := 0;
    leafAdrs.treeIndex := i * Pow2(12) + idx;
    ghost var sent;
    node, sent := Thash(sha, pkSeed, leafAdrs, sk, ForsNode(key, 0, g));
    log := [sent];
    ClimbStart(s, FipsEnc(), key, g, part, sent.adrs, node);
    var cur := idx;
    for j := 0 to 12
      invariant leafAdrs.Under(key) && leafAdrs.typ == 3 && cur == Shr(idx, j) && |node| == 16
      invariant Climbed(s, FipsEnc(), key, g, part, j, node, log)
    {
      node, log := ClimbRound(sha, i, idx, authPath, j, cur, node, pkSeed, leafAdrs, key, g, part, log);
      cur := cur / 2;
    }
    ClimbDone(s, FipsEnc(), key, g, part, 12, node, log);
  }

  // ---- the forest ---------------------------------------------------------------------------------

  lemma {:induction false} PartFields(fors: Bytes, t: nat, off: nat, end: nat)
    requires t < 14 && off == t * 208 && end == off + 208
    ensures ParsedFors(fors)[t] == ForsPart(Slice(fors, off, off + 16), Chunks(Slice(fors, off + 16, end), 16, 12))
  {
    assert ParsedFors(fors)[t] == PartAt(fors, 16, 12, 208, off);
  }

  /** One round of forsPkFromSig: part i walked to its root, whose bytes join the others. */
  method NextRoot(sha: Hash, sigFors: Bytes, i: nat, indices: seq<nat>, pkSeed: Bytes, adrs: Adrs, roots: Bytes,
                  ghost key: Key, ghost parts: seq<ForsPart>, ghost list: seq<Bytes>, ghost log: seq<Sent>)
    returns (roots': Bytes, ghost list': seq<Bytes>, ghost log': seq<Sent>)
    requires adrs.Under(key) && i < 14 && |indices| == 14 && indices[i] < Pow2(12) && parts == ParsedFors(sigFors)
    requires roots == Flatten(list)
    requires RootsWalked(FipsScheme(sha, pkSeed), FipsEnc(), key, indices, parts, i, list, log)
    ensures roots' == Flatten(list')
    ensures RootsWalked(FipsScheme(sha, pkSeed), FipsEnc(), key, indices, parts, i + 1, list', log')
  {
    var off, end := i * 208, (i + 1) * 208;
    var sk := Slice(sigFors, off, off + 16);
    var authPath := Slice(sigFors, off + 16, end);
    ghost var part := ForsPart(sk, Chunks(authPath, 16, 12));
    PartFields(sigFors, i, off, end);
    var idx := indices[i];
    ghost var g := ForsLeaf(FipsScheme(sha, pkSeed), i, idx);
    var node, calls := TreeFromSig(sha, sk, authPath, i, idx, pkSeed, adrs, key, g, part);
    OneMoreRoot(FipsScheme(sha, pkSeed), FipsEnc(), key, indices, parts, i, i + 1, list, log, g, part, node, calls);
    FlattenAppend(list, node);
    list' := list + [node];
    log' := log + calls;
    roots' := roots + node;
  }

  /** The loop over the trees: the bytes of all roots. */
  method AllRoots(sha: Hash, sigFors: Bytes, indices: seq<nat>, pkSeed: Bytes, adrs: Adrs, ghost key: Key,
                  ghost parts: seq<ForsPart>)
    returns (roots: Bytes, ghost list: seq<Bytes>, ghost log: seq<Sent>)
    requires adrs.Under(key) && |indices| == 14 && parts == ParsedFors(sigFors)
    requires forall t :: 0 <= t < 14 ==> indices[t] < Pow2(12)
    ensures roots == Flatten(list)
    ensures RootsWalked(FipsScheme(sha, pkSeed), FipsEnc(), key, indices, parts, 14, list, log)
  {
    roots, list, log := [], [], [];
    for i := 0 to 14
      invariant roots == Flatten(list)
      invariant RootsWalked(FipsScheme(sha, pkSeed), FipsEnc(), key, indices, parts, i, list, log)
    {
      roots, list, log := NextRoot(sha, sigFors, i, indices, pkSeed, adrs, roots, key, parts, list, log);
    }
  }

  method ForsPkFromSig(sha: Hash, sigFors: Bytes, md: Bytes, pkSeed: Bytes, adrs: Adrs, ghost key: Key)
    returns (pk: Bytes, ghost log: seq<Sent>)
    requires adrs.Under(key)
    ensures |pk| == 16 && pk == ForsRecovered(FipsScheme(sha, pkSeed), key, Indices(md), ParsedFors(sigFors))
    ensures log
            == Encoded(FipsEnc(), ForsRecoveredCalls(FipsScheme(sha, pkSeed), key, Indices(md), ParsedFors(sigFors)))
  {
    var indices := ExtractIndices(md);
    Powers();
    ghost var parts := ParsedFors(sigFors);
    var roots;
    ghost var list;
    roots, list, log := AllRoots(sha, sigFors, indices, pkSeed, adrs, key, parts);
    var rootsAdrs := new Adrs.Copy(adrs);
    rootsAdrs.typ := 4;
    rootsAdrs.treeHeight := 0;
    rootsAdrs.treeIndex := 0;
    ghost var sent;
    pk, sent := Thash(sha, pkSeed, rootsAdrs, roots, ForsRoots(key));
    ForestDone(FipsScheme(sha, pkSeed), FipsEnc(), key, indices, parts, 14, list, log, sent.adrs, roots, pk);
    log := log + [sent];
  }
}
