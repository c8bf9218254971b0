/** packages/pqc/src/slh-dsa-ref.ts: signatures as chunks and as wire bytes. */
module LiteWire {
  import opened ByteStrings
  import opened Schemes
  import opened Layout
  import opened LiteSpec

  // ---- chunks -------------------------------------------------------------------------------------

  lemma {:induction false} ParsedOfFlat(sig: XmssSig)
    requires |sig.wots| == 67 && |sig.auth| == 4 && Sized(sig.wots, 32) && Sized(sig.auth, 32)
    ensures Parsed(Flat(sig)) == sig
    ensures |Flat(sig).wotsSig| == 2144 && |Flat(sig).authPath| == 128
  {
    ChunksOfFlatten(sig.wots, 32);
    ChunksOfFlatten(sig.auth, 32);
    FlattenLength(sig.wots, 32);
    FlattenLength(sig.auth, 32);
  }

  lemma {:induction false} FlatOfParsed(sig: LayerSig)
    requires |sig.wotsSig| == 2144 && |sig.authPath| == 128
    ensures Flat(Parsed(sig)) == sig
    ensures Sized(Parsed(sig).wots, 32) && Sized(Parsed(sig).auth, 32)
  {
    FlattenOfChunks(sig.wotsSig, 32, 67);
    FlattenOfChunks(sig.authPath, 32, 4);
    ChunksSized(sig.wotsSig, 32, 67);
    ChunksSized(sig.authPath, 32, 4);
  }

  // ---- wire bytes ---------------------------------------------------------------------------------

  /** Bytes of the FORS part, of a WOTS+ signature and of a path, and the number of layers. */
  datatype Shape = Shape(fors: nat, wots: nat, auth: nat, layers: nat)

  function ShapeOf(n: nat, len: nat, hp: nat, d: nat, a: nat, k: nat): Shape {
    Shape(k * (1 + a) * n, len * n, hp * n, d)
  }

  function LiteShape(): Shape {
    Shape(512, 2144, 128, 2)
  }

  predicate WellSized(sh: Shape, sig: Signature) {
    && |sig.fors| == sh.fors && |sig.layers| == sh.layers
    && forall i :: 0 <= i < sh.layers ==> LayerSized(sh, sig.layers[i])
  }

  predicate LayerSized(sh: Shape, layer: LayerSig) {
    |layer.wotsSig| == sh.wots && |layer.authPath| == sh.auth
  }

  function LayerBytes(layers: seq<LayerSig>): (r: seq<Bytes>)
    ensures |r| == |layers|
  {
    seq(|layers|, i requires 0 <= i < |layers| => layers[i].wotsSig + layers[i].authPath)
  }

  function Packed(sig: Signature): Bytes {
    sig.fors + Flatten(LayerBytes(sig.layers))
  }

  function LayerAt(sh: Shape, bytes: Bytes, off: nat): LayerSig {
    LayerSig(Slice(bytes, off, off + sh.wots), Slice(bytes, off + sh.wots, off + (sh.wots + sh.auth)))
  }

  function Unpacked(sh: Shape, bytes: Bytes): (sig: Signature)
    ensures |sig.layers| == sh.layers
  {
    Signature(Slice(bytes, 0, sh.fors),
              seq(sh.layers, i requires 0 <= i < sh.layers => LayerAt(sh, bytes, sh.fors + i * (sh.wots + sh.auth))))
  }

  method PackSignature(sig: Signature) returns (bytes: Bytes)
    ensures bytes == Packed(sig)
  {
    var parts := [sig.fors];
    PackStart(sig);
    for i := 0 to |sig.layers|
      invariant PackedSoFar(sig, parts, i)
    {
      var l := sig.layers[i];
      PackOne(sig, parts, i);
      parts := parts + [l.wotsSig];
      parts := parts + [l.authPath];
    }
    assert LayerBytes(sig.layers)[..|sig.layers|] == LayerBytes(sig.layers);
    bytes := Concat(parts);
  }

  ghost predicate PackedSoFar(sig: Signature, parts: seq<Bytes>, i: nat) {
    i <= |sig.layers| && Flatten(parts) == sig.fors + Flatten(LayerBytes(sig.layers)[..i])
  }

  lemma {:induction false} PackStart(sig: Signature)
    ensures PackedSoFar(sig, [sig.fors], 0)
  {
    FlattenAppend([], sig.fors);
    assert LayerBytes(sig.layers)[..0] == [];
  }

  lemma {:induction false} PackOne(sig: Signature, parts: seq<Bytes>, i: nat)
    requires PackedSoFar(sig, parts, i) && i < |sig.layers|
    ensures PackedSoFar(sig, parts + [sig.layers[i].wotsSig] + [sig.layers[i].authPath], i + 1)
  {
    FlattenAppend(parts, sig.layers[i].wotsSig);
    FlattenAppend(parts + [sig.layers[i].wotsSig], sig.layers[i].authPath);
    FlattenStep(LayerBytes(sig.layers), i);
  }

  method UnpackSignature(bytes: Bytes) returns (sig: Signature)
    ensures sig == Unpacked(LiteShape(), bytes)
  {
    var forsSig := Slice(bytes, 0, 512);
    var layers: seq<LayerSig> := [];
    var off := 512;
    for i := 0 to 2
      invariant off == 512 + i * 2272
      invariant layers == Unpacked(LiteShape(), bytes).layers[..i]
    {
      var wotsSig := Slice(bytes, off, off + 2144);
      var authPath := Slice(bytes, off + 2144, off + 2272);
      layers := layers + [LayerSig(wotsSig, authPath)];
      off := off + 2272;
    }
    sig := Signature(forsSig, layers);
  }

  lemma {:induction false} LayersLength(sh: Shape, sig: Signature)
    requires WellSized(sh, sig)
    ensures Sized(LayerBytes(sig.layers), sh.wots + sh.auth)
    ensures |Flatten(LayerBytes(sig.layers))| == sh.layers * (sh.wots + sh.auth)
    ensures |Packed(sig)| == sh.fors + sh.layers * (sh.wots + sh.auth)
  {
    forall i | 0 <= i < sh.layers
      ensures |LayerBytes(sig.layers)[i]| == sh.wots + sh.auth
    {
      assert LayerSized(sh, sig.layers[i]);
    }
    FlattenLength(LayerBytes(sig.layers), sh.wots + sh.auth);
  }

  /** The packed length, for any parameters. */
  lemma {:induction false} PackedLength(n: nat, len: nat, hp: nat, d: nat, a: nat, k: nat, sig: Signature)
    requires WellSized(ShapeOf(n, len, hp, d, a, k), sig)
    ensures |Packed(sig)| == k * (1 + a) * n + d * (len + hp) * n
  {
    LayersLength(ShapeOf(n, len, hp, d, a, k), sig);
    Regroup(d, len, hp, n);
  }

  lemma {:induction false} Regroup(d: nat, len: nat, hp: nat, n: nat)
    ensures d * (len * n + hp * n) == d * (len + hp) * n
  {
    assert len * n + hp * n == (len + hp) * n;
    assert d * ((len + hp) * n) == d * (len + hp) * n;
  }

  lemma {:induction false} LiteShapeIs()
    ensures LiteShape() == ShapeOf(32, 67, 4, 2, 3, 4)
  {
  }

  /** Unpacking what was packed gives every well-sized signature back. */
  lemma {:induction false} UnpackOfPack(sh: Shape, sig: Signature)
    requires WellSized(sh, sig)
    ensures Unpacked(sh, Packed(sig)) == sig
  {
    var b, size := Packed(sig), sh.wots + sh.auth;
    LayersLength(sh, sig);
    assert b[..sh.fors] == sig.fors;
    forall i | 0 <= i < sh.layers
      ensures Unpacked(sh, b).layers[i] == sig.layers[i]
    {
      FlattenAt(LayerBytes(sig.layers), size, i);
      assert LayerSized(sh, sig.layers[i]);
      FieldInside(i, size, sh.layers);
      LayerOfField(sh, b, Flatten(LayerBytes(sig.layers)), i * size, sh.fors + i * size, sig.layers[i]);
    }
  }

  lemma {:induction false} LayerOfField(sh: Shape, b: Bytes, rest: Bytes, at: nat, off: nat, layer: LayerSig)
    requires sh.fors <= |b| && rest == b[sh.fors..] && off == sh.fors + at && at + (sh.wots + sh.auth) <= |rest|
    requires rest[at..at + (sh.wots + sh.auth)] == layer.wotsSig + layer.authPath && LayerSized(sh, layer)
    ensures LayerAt(sh, b, off) == layer
  {
    assert b[off..off + (sh.wots + sh.auth)] == rest[at..at + (sh.wots + sh.auth)];
    FieldSplit(b, off, sh.wots, sh.wots + sh.auth, layer.wotsSig, layer.authPath);
  }

  /** Packing what was unpacked gives every string of the full length back. */
  lemma {:induction false} PackOfUnpack(sh: Shape, b: Bytes)
    requires |b| == sh.fors + sh.layers * (sh.wots + sh.auth)
    ensures WellSized(sh, Unpacked(sh, b))
    ensures Packed(Unpacked(sh, b)) == b
  {
    var size := sh.wots + sh.auth;
    MulMonotone(0, sh.layers, size);
    UnpackedLayers(sh, b, b[sh.fors..], size);
    assert b == b[..sh.fors] + b[sh.fors..];
  }

  lemma {:induction false} UnpackedLayers(sh: Shape, b: Bytes, rest: Bytes, size: nat)
    requires sh.fors <= |b| && rest == b[sh.fors..] && size == sh.wots + sh.auth && |rest| == sh.layers * size
    ensures forall i :: 0 <= i < sh.layers ==> LayerSized(sh, Unpacked(sh, b).layers[i])
    ensures Flatten(LayerBytes(Unpacked(sh, b).layers)) == rest
  {
    forall i | 0 <= i < sh.layers
      ensures LayerSized(sh, Unpacked(sh, b).layers[i])
      ensures LayerBytes(Unpacked(sh, b).layers)[i] == Chunks(rest, size, sh.layers)[i]
    {
      FieldInside(i, size, sh.layers);
      UnpackedLayer(sh, b, rest, size, i, i * size, (i + 1) * size);
    }
    assert LayerBytes(Unpacked(sh, b).layers) == Chunks(rest, size, sh.layers);
    FlattenOfChunks(rest, size, sh.layers);
  }

  lemma {:induction false} UnpackedLayer(sh: Shape, b: Bytes, rest: Bytes, size: nat, i: nat, at: nat, end: nat)
    requires i < sh.layers && size == sh.wots + sh.auth && at == i * size && end == (i + 1) * size == at + size
    requires sh.fors <= |b| && rest == b[sh.fors..] && end <= |rest|
    ensures LayerSized(sh, Unpacked(sh, b).layers[i])
    ensures LayerBytes(Unpacked(sh, b).layers)[i] == Chunks(rest, size, sh.layers)[i]
  {
    ChunkIsSlice(rest, size, sh.layers, i, at, end);
    FieldOfLayer(sh, b, rest, at, end, sh.fors + at);
  }

  lemma {:induction false} FieldOfLayer(sh: Shape, b: Bytes, rest: Bytes, at: nat, end: nat, off: nat)
    requires sh.fors <= |b| && rest == b[sh.fors..] && off == sh.fors + at && end == at + (sh.wots + sh.auth) <= |rest|
    ensures LayerSized(sh, LayerAt(sh, b, off))
    ensures LayerAt(sh, b, off).wotsSig + LayerAt(sh, b, off).authPath == rest[at..end]
  {
  }

  /** The 5056 bytes of the LITE parameters. */
  lemma {:induction false} LiteRoundTrips(sig: Signature, b: Bytes)
    ensures WellSized(LiteShape(), sig) ==> |Packed(sig)| == 5056 && Unpacked(LiteShape(), Packed(sig)) == sig
    ensures |b| == 5056 ==> WellSized(LiteShape(), Unpacked(LiteShape(), b)) && Packed(Unpacked(LiteShape(), b)) == b
  {
    if WellSized(LiteShape(), sig) {
      LiteShapeIs();
      PackedLength(32, 67, 4, 2, 3, 4, sig);
      UnpackOfPack(LiteShape(), sig);
    }
    if |b| == 5056 {
      PackOfUnpack(LiteShape(), b);
    }
  }
}
