/** FORS and XMSS signatures as the flat byte strings the code slices and fills. */
module Layout {
  import opened ByteStrings
  import opened Schemes

  // ---- FORS ---------------------------------------------------------------------------------------

  function FlatPart(part: ForsPart): Bytes {
    part.secret + Flatten(part.auth)
  }

  function FlatParts(parts: seq<ForsPart>): (r: seq<Bytes>)
    ensures |r| == |parts|
  {
    seq(|parts|, t requires 0 <= t < |parts| => FlatPart(parts[t]))
  }

  /** The part in the size bytes at off: an n-byte secret, then a siblings of n bytes. */
  function PartAt(b: Bytes, n: nat, a: nat, size: nat, off: nat): (part: ForsPart)
    ensures |part.auth| == a
  {
    ForsPart(Slice(b, off, off + n), Chunks(Slice(b, off + n, off + size), n, a))
  }

  function PartsOf(b: Bytes, n: nat, a: nat, size: nat, k: nat): (parts: seq<ForsPart>)
    ensures |parts| == k && forall t :: 0 <= t < k ==> |parts[t].auth| == a
  {
    seq(k, t requires 0 <= t < k => PartAt(b, n, a, size, t * size))
  }

  ghost predicate PartFits(part: ForsPart, n: nat, a: nat) {
    |part.secret| == n && |part.auth| == a && Sized(part.auth, n)
  }

  ghost predicate PartsFit(parts: seq<ForsPart>, n: nat, a: nat) {
    forall t :: 0 <= t < |parts| ==> PartFits(parts[t], n, a)
  }

  lemma {:induction false} FlatPartsSized(parts: seq<ForsPart>, n: nat, a: nat, size: nat)
    requires PartsFit(parts, n, a) && size == n + a * n
    ensures Sized(FlatParts(parts), size) && |Flatten(FlatParts(parts))| == |parts| * size
  {
    forall t | 0 <= t < |parts|
      ensures |FlatParts(parts)[t]| == size
    {
      assert PartFits(parts[t], n, a);
      FlattenLength(parts[t].auth, n);
    }
    FlattenLength(FlatParts(parts), size);
  }

  /** Cutting up flattened parts gives the parts back. */
  lemma {:induction false} PartsOfFlat(parts: seq<ForsPart>, n: nat, a: nat, size: nat, k: nat)
    requires PartsFit(parts, n, a) && size == n + a * n && |parts| == k
    ensures PartsOf(Flatten(FlatParts(parts)), n, a, size, k) == parts
  {
    var b := Flatten(FlatParts(parts));
    FlatPartsSized(parts, n, a, size);
    forall t | 0 <= t < k
      ensures PartsOf(b, n, a, size, k)[t] == parts[t]
    {
      FlattenAt(FlatParts(parts), size, t);
      FieldInside(t, size, k);
      assert PartFits(parts[t], n, a);
      PartOfField(b, n, a, size, t * size, parts[t]);
    }
  }

  lemma {:induction false} PartOfField(b: Bytes, n: nat, a: nat, size: nat, off: nat, part: ForsPart)
    requires size == n + a * n && off + size <= |b| && PartFits(part, n, a) && b[off..off + size] == FlatPart(part)
    ensures PartAt(b, n, a, size, off) == part
  {
    FlattenLength(part.auth, n);
    ChunksOfFlatten(part.auth, n);
    FieldSplit(b, off, n, size, part.secret, Flatten(part.auth));
  }

  lemma {:induction false} FieldSplit(b: Bytes, off: nat, n: nat, size: nat, x: Bytes, y: Bytes)
    requires |x| == n <= size && |x| + |y| == size && off + size <= |b| && b[off..off + size] == x + y
    ensures Slice(b, off, off + n) == x && Slice(b, off + n, off + size) == y
  {
    var field := b[off..off + size];
    assert b[off..off + n] == field[..n];
    assert b[off + n..off + size] == field[n..];
  }

  /** Flattening what was cut gives every string of the full length back. */
  lemma {:induction false} FlatOfParts(b: Bytes, n: nat, a: nat, size: nat, k: nat)
    requires size == n + a * n && |b| == k * size
    ensures Flatten(FlatParts(PartsOf(b, n, a, size, k))) == b
    ensures PartsFit(PartsOf(b, n, a, size, k), n, a)
  {
    var parts := PartsOf(b, n, a, size, k);
    forall t | 0 <= t < k
      ensures FlatPart(parts[t]) == Chunks(b, size, k)[t] && PartFits(parts[t], n, a)
    {
      FieldInside(t, size, k);
      FieldOfPart(b, n, a, size, t * size);
      ChunkIsSlice(b, size, k, t, t * size, (t + 1) * size);
    }
    assert FlatParts(parts) == Chunks(b, size, k);
    FlattenOfChunks(b, size, k);
  }

  lemma {:induction false} FieldOfPart(b: Bytes, n: nat, a: nat, size: nat, off: nat)
    requires size == n + a * n && 0 <= a * n && off + size <= |b|
    ensures FlatPart(PartAt(b, n, a, size, off)) == b[off..off + size] && PartFits(PartAt(b, n, a, size, off), n, a)
  {
    assert b[off..off + size] == b[off..off + n] + b[off + n..off + size];
    FlattenOfChunks(b[off + n..off + size], n, a);
    ChunksSized(b[off + n..off + size], n, a);
  }

  // ---- XMSS ---------------------------------------------------------------------------------------

  function FlatXmss(sig: XmssSig): Bytes {
    Flatten(sig.wots) + Flatten(sig.auth)
  }

  function FlatXmssAll(sigs: seq<XmssSig>): (r: seq<Bytes>)
    ensures |r| == |sigs|
  {
    seq(|sigs|, j requires 0 <= j < |sigs| => FlatXmss(sigs[j]))
  }

  /** len chunks of n bytes in the first cut bytes, then hp siblings of n bytes up to size. */
  function XmssOf(b: Bytes, n: nat, len: nat, hp: nat, cut: nat, size: nat): (sig: XmssSig)
    ensures |sig.wots| == len && |sig.auth| == hp
  {
    XmssSig(Chunks(Slice(b, 0, cut), n, len), Chunks(Slice(b, cut, size), n, hp))
  }

  lemma {:induction false} XmssOfFlat(sig: XmssSig, n: nat, len: nat, hp: nat, cut: nat, size: nat)
    requires cut == len * n && size == cut + hp * n
    requires |sig.wots| == len && |sig.auth| == hp && Sized(sig.wots, n) && Sized(sig.auth, n)
    ensures XmssOf(FlatXmss(sig), n, len, hp, cut, size) == sig
    ensures |FlatXmss(sig)| == size
  {
    FlattenLength(sig.wots, n);
    FlattenLength(sig.auth, n);
    ChunksOfFlatten(sig.wots, n);
    ChunksOfFlatten(sig.auth, n);
    TwoFields(Flatten(sig.wots), Flatten(sig.auth), cut, size);
  }

  lemma {:induction false} TwoFields(x: Bytes, y: Bytes, cut: nat, size: nat)
    requires |x| == cut && |x| + |y| == size
    ensures Slice(x + y, 0, cut) == x && Slice(x + y, cut, size) == y
  {
  }

  lemma {:induction false} FlatOfXmss(b: Bytes, n: nat, len: nat, hp: nat, cut: nat, size: nat)
    requires cut == len * n && size == cut + hp * n && |b| == size && cut <= size
    ensures FlatXmss(XmssOf(b, n, len, hp, cut, size)) == b
    ensures Sized(XmssOf(b, n, len, hp, cut, size).wots, n) && Sized(XmssOf(b, n, len, hp, cut, size).auth, n)
  {
    var head, tail := Slice(b, 0, cut), Slice(b, cut, size);
    assert b == head + tail;
    ChunksWhole(head, n, len);
    ChunksWhole(tail, n, hp);
  }

  lemma {:induction false} ChunksWhole(b: Bytes, n: nat, count: nat)
    requires |b| == count * n
    ensures Flatten(Chunks(b, n, count)) == b && Sized(Chunks(b, n, count), n)
  {
    FlattenOfChunks(b, n, count);
    ChunksSized(b, n, count);
  }
}
