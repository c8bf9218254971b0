/** Byte strings, big-endian numbers and the buffer operations the TypeScript modules share. */
module ByteStrings {
  type byte = x: int | 0 <= x < 256
  type Bytes = seq<byte>

  function Zeros(k: nat): Bytes {
    seq(k, _ => 0)
  }

  // SHA-256 is a parameter everywhere: any function from byte strings to 32-byte strings.
  type Digest = b: Bytes | |b| == 32 witness Zeros(32)
  type Hash = Bytes -> Digest

  // ---- big-endian numbers -------------------------------------------------------------------

  /** The k low-order bytes of v, most significant first. */
  function BytesOf(v: nat, k: nat): (b: Bytes)
    ensures |b| == k
  {
    if k == 0 then [] else BytesOf(v / 256, k - 1) + [v % 256]
  }

  function U32(v: nat): Bytes {
    BytesOf(v, 4)
  }

  function U64(v: nat): Bytes {
    BytesOf(v, 8)
  }

  function ValueOf(b: Bytes): nat {
    if b == [] then 0 else ValueOf(b[..|b| - 1]) * 256 + b[|b| - 1]
  }

  function Pow256(k: nat): (p: nat)
    ensures p > 0
  {
    if k == 0 then 1 else 256 * Pow256(k - 1)
  }

  lemma {:induction false} BytesOfValue(b: Bytes)
    ensures BytesOf(ValueOf(b), |b|) == b
  {
    if b != [] {
      BytesOfValue(b[..|b| - 1]);
    }
  }

  lemma {:induction false} ValueOfBytes(v: nat, k: nat)
    requires v < Pow256(k)
    ensures ValueOf(BytesOf(v, k)) == v
  {
    if k > 0 {
      ValueOfBytes(v / 256, k - 1);
    }
  }

  lemma {:induction false} BytesOfInjective(v: nat, w: nat, k: nat)
    requires v < Pow256(k) && w < Pow256(k)
    requires BytesOf(v, k) == BytesOf(w, k)
    ensures v == w
  {
    ValueOfBytes(v, k);
    ValueOfBytes(w, k);
  }

  lemma {:induction false} BytesOfExplicit(v: nat)
    ensures U32(v) == [v / 0x100_0000 % 256, v / 0x1_0000 % 256, v / 0x100 % 256, v % 256]
  {
    var a := v / 256;
    var b := a / 256;
    var c := b / 256;
    Quotients(v);
    assert BytesOf(c, 1) == BytesOf(c / 256, 0) + [c % 256] == [c % 256];
    assert BytesOf(b, 2) == BytesOf(c, 1) + [b % 256];
    assert BytesOf(a, 3) == BytesOf(b, 2) + [a % 256];
    assert BytesOf(v, 4) == BytesOf(a, 3) + [v % 256];
  }

  lemma {:induction false} Quotients(v: nat)
    ensures v / 256 / 256 == v / 0x1_0000 && v / 256 / 256 / 256 == v / 0x100_0000
  {
  }

  lemma {:induction false} ValueOfConcat(x: Bytes, y: Bytes)
    ensures ValueOf(x + y) == ValueOf(x) * Pow256(|y|) + ValueOf(y)
  {
    if y == [] {
      assert x + y == x;
    } else {
      var m := |y| - 1;
      assert (x + y)[..|x + y| - 1] == x + y[..m];
      ValueOfConcat(x, y[..m]);
      Shifted(ValueOf(x), Pow256(m), ValueOf(y[..m]), y[m]);
    }
  }

  lemma {:induction false} Shifted(a: nat, p: nat, b: nat, d: nat)
    ensures (a * p + b) * 256 + d == a * (256 * p) + (b * 256 + d)
  {
  }

  // ---- slices, padding, chunks ------------------------------------------------------------

  /** Uint8Array.slice: both ends are clamped to the length. */
  function Slice(b: Bytes, lo: nat, hi: nat): (r: Bytes)
    ensures |r| <= if hi >= lo then hi - lo else 0
    ensures lo <= hi <= |b| ==> r == b[lo..hi]
  {
    var h := if hi <= |b| then hi else |b|;
    if lo <= h then b[lo..h] else []
  }

  /** A chunk written into a zeroed n-byte field. */
  function PadTo(b: Bytes, n: nat): (r: Bytes)
    ensures |b| <= n ==> |r| == n
    ensures |b| == n ==> r == b
  {
    if |b| < n then b + Zeros(n - |b|) else b
  }

  function Flatten(xs: seq<Bytes>): Bytes {
    if xs == [] then [] else Flatten(xs[..|xs| - 1]) + xs[|xs| - 1]
  }

  ghost predicate Sized(xs: seq<Bytes>, n: nat) {
    forall i :: 0 <= i < |xs| ==> |xs[i]| == n
  }

  ghost predicate AtMost(xs: seq<Bytes>, n: nat) {
    forall i :: 0 <= i < |xs| ==> |xs[i]| <= n
  }

  function Chunks(b: Bytes, n: nat, count: nat): (xs: seq<Bytes>)
    ensures |xs| == count
  {
    seq(count, i requires 0 <= i < count => Slice(b, i * n, (i + 1) * n))
  }

  lemma {:induction false} ChunkIsSlice(b: Bytes, n: nat, count: nat, i: nat, lo: nat, hi: nat)
    requires i < count && lo == i * n && hi == (i + 1) * n
    ensures Chunks(b, n, count)[i] == Slice(b, lo, hi)
  {
  }

  /** Chunk i of a string long enough to hold it is its n bytes from i * n. */
  lemma {:induction false} ChunkAt(b: Bytes, n: nat, count: nat, i: nat)
    requires |b| == count * n && i < count
    ensures 0 <= i * n <= (i + 1) * n <= |b|
    ensures Chunks(b, n, count)[i] == Slice(b, i * n, (i + 1) * n) == b[i * n..(i + 1) * n]
    ensures |Chunks(b, n, count)[i]| == n
  {
    FieldInside(i, n, count);
  }

  lemma {:induction false} FlattenStep(xs: seq<Bytes>, i: nat)
    requires i < |xs|
    ensures Flatten(xs[..i + 1]) == Flatten(xs[..i]) + xs[i]
  {
    assert xs[..i + 1][..i] == xs[..i];
  }

  lemma {:induction false} FlattenLength(xs: seq<Bytes>, n: nat)
    requires Sized(xs, n)
    ensures |Flatten(xs)| == |xs| * n
  {
    if xs != [] {
      FlattenLength(xs[..|xs| - 1], n);
      assert |xs| * n == (|xs| - 1) * n + n;
    }
  }

  lemma {:induction false} FlattenAt(xs: seq<Bytes>, n: nat, i: nat)
    requires Sized(xs, n) && i < |xs|
    ensures 0 <= i * n <= (i + 1) * n <= |Flatten(xs)|
    ensures Flatten(xs)[i * n..(i + 1) * n] == xs[i]
  {
    var m := |xs| - 1;
    FlattenLength(xs, n);
    FlattenLength(xs[..m], n);
    MulMonotone(i + 1, m + 1, n);
    MulMonotone(i, i + 1, n);
    if i < m {
      FlattenAt(xs[..m], n, i);
    }
  }

  lemma {:induction false} MulMonotone(x: nat, y: nat, n: nat)
    requires x <= y
    ensures 0 <= x * n <= y * n
  {
    assert y * n == x * n + (y - x) * n;
  }

  /** Cutting a flattened list of n-byte chunks gives the list back. */
  lemma {:induction false} ChunksOfFlatten(xs: seq<Bytes>, n: nat)
    requires Sized(xs, n)
    ensures Chunks(Flatten(xs), n, |xs|) == xs
  {
    var b := Flatten(xs);
    forall i | 0 <= i < |xs|
      ensures Chunks(b, n, |xs|)[i] == xs[i]
    {
      FlattenAt(xs, n, i);
    }
  }

  lemma {:induction false} ChunksSized(b: Bytes, n: nat, count: nat)
    requires |b| == count * n
    ensures Sized(Chunks(b, n, count), n)
  {
    forall i | 0 <= i < count
      ensures |Chunks(b, n, count)[i]| == n
    {
      MulMonotone(i, i + 1, n);
      MulMonotone(i + 1, count, n);
      assert (i + 1) * n == i * n + n;
    }
  }

  /** Chunks cut out of any string are no longer than their field. */
  lemma {:induction false} ChunksAtMost(b: Bytes, n: nat, count: nat)
    ensures AtMost(Chunks(b, n, count), n)
  {
    forall i | 0 <= i < count
      ensures |Chunks(b, n, count)[i]| <= n
    {
      FieldInside(i, n, count);
      ChunkIsSlice(b, n, count, i, i * n, (i + 1) * n);
    }
  }

  lemma {:induction false} SliceOfPrefix(b: Bytes, cut: nat, lo: nat, hi: nat)
    requires hi <= cut
    ensures Slice(Slice(b, 0, cut), lo, hi) == Slice(b, lo, hi)
  {
  }

  lemma {:induction false} SliceOfSlice(b: Bytes, from: nat, to: nat, lo: nat, hi: nat)
    requires from + hi <= to && lo <= hi
    ensures Slice(Slice(b, from, to), lo, hi) == Slice(b, from + lo, from + hi)
  {
    var end := if to <= |b| then to else |b|;
    if from + lo <= end {
      var inner, stop := b[from..end], if hi <= end - from then hi else end - from;
      assert Slice(b, from, to) == inner && stop == if hi <= |inner| then hi else |inner|;
      assert inner[lo..stop] == b[from + lo..from + stop];
    } else {
      assert |Slice(b, from, to)| < lo || lo == 0;
    }
  }

  /** Cutting count chunks reads no more than count * n bytes. */
  lemma {:induction false} ChunksOfPrefix(b: Bytes, n: nat, count: nat)
    ensures 0 <= count * n && Chunks(Slice(b, 0, count * n), n, count) == Chunks(b, n, count)
  {
    MulMonotone(0, count, n);
    forall i | 0 <= i < count
      ensures Chunks(Slice(b, 0, count * n), n, count)[i] == Chunks(b, n, count)[i]
    {
      FieldInside(i, n, count);
      SliceOfPrefix(b, count * n, i * n, (i + 1) * n);
      ChunkIsSlice(b, n, count, i, i * n, (i + 1) * n);
      ChunkIsSlice(Slice(b, 0, count * n), n, count, i, i * n, (i + 1) * n);
    }
  }

  /** Flattening the chunks of a string of the right length gives the string back. */
  lemma {:induction false} FlattenOfChunks(b: Bytes, n: nat, count: nat)
    requires |b| == count * n
    ensures Flatten(Chunks(b, n, count)) == b
  {
    if count > 0 {
      var m := count - 1;
      var cut := m * n;
      FieldInside(m, n, count);
      FlattenOfChunks(b[..cut], n, m);
      forall i | 0 <= i < m
        ensures Chunks(b, n, count)[i] == Chunks(b[..cut], n, m)[i]
      {
        FieldInside(i, n, m);
        PrefixChunk(b, n, count, m, cut, i, i * n, (i + 1) * n);
      }
      assert Chunks(b, n, count)[..m] == Chunks(b[..cut], n, m);
      ChunkIsSlice(b, n, count, m, cut, |b|);
      assert b == b[..cut] + b[cut..];
    }
  }

  lemma {:induction false} PrefixChunk(b: Bytes, n: nat, count: nat, m: nat, cut: nat, i: nat, lo: nat, hi: nat)
    requires i < m < count && lo == i * n && hi == (i + 1) * n && lo <= hi <= cut <= |b|
    ensures Chunks(b, n, count)[i] == Chunks(b[..cut], n, m)[i]
  {
    ChunkIsSlice(b, n, count, i, lo, hi);
    ChunkIsSlice(b[..cut], n, m, i, lo, hi);
  }

  /** Equal concatenations of equally long left parts have equal parts. */
  lemma {:induction false} ConcatInjective(a: Bytes, b: Bytes, c: Bytes, d: Bytes)
    requires |a| == |c| && a + b == c + d
    ensures a == c && b == d
  {
    assert a == (a + b)[..|a|] && c == (c + d)[..|c|];
    assert b == (a + b)[|a|..] && d == (c + d)[|c|..];
  }

  lemma {:induction false} FlattenInjective(xs: seq<Bytes>, ys: seq<Bytes>, n: nat)
    requires Sized(xs, n) && Sized(ys, n) && |xs| == |ys|
    requires Flatten(xs) == Flatten(ys)
    ensures xs == ys
  {
    ChunksOfFlatten(xs, n);
    ChunksOfFlatten(ys, n);
  }

  // ---- buffers --------------------------------------------------------------------------------

  /** b with the four bytes at off replaced by the big-endian v, as far as b reaches. */
  function Put32(b: Bytes, off: nat, v: nat): (r: Bytes)
    ensures |r| == |b|
  {
    seq(|b|, k requires 0 <= k < |b| => if off <= k < off + 4 then U32(v)[k - off] else b[k])
  }

  lemma {:induction false} Put32Inside(b: Bytes, off: nat, v: nat)
    requires off + 4 <= |b|
    ensures Put32(b, off, v) == Splice(b, off, U32(v))
  {
  }

  /** An element written past the end of a Uint8Array is dropped. */
  method WriteByte(buf: array<byte>, i: nat, x: byte)
    modifies buf
    ensures buf[..] == if i < buf.Length then old(buf[..])[i := x] else old(buf[..])
  {
    if i < buf.Length {
      buf[i] := x;
    }
  }

  method WriteU32BE(buf: array<byte>, off: nat, v: nat)
    modifies buf
    ensures buf[..] == Put32(old(buf[..]), off, v)
  {
    BytesOfExplicit(v);
    WriteByte(buf, off + 0, v / 0x100_0000 % 256);
    WriteByte(buf, off + 1, v / 0x1_0000 % 256);
    WriteByte(buf, off + 2, v / 0x100 % 256);
    WriteByte(buf, off + 3, v % 256);
  }

  /** b with chunk written over it at off. */
  function Splice(b: Bytes, off: nat, chunk: Bytes): (r: Bytes)
    requires off + |chunk| <= |b|
    ensures |r| == |b|
  {
    b[..off] + chunk + b[off + |chunk|..]
  }

  /** A zeroed buffer of the given size whose first fields hold the first i of xs. */
  ghost predicate FilledTo(b: Bytes, size: nat, xs: seq<Bytes>, i: nat) {
    && i <= |xs| && |Flatten(xs[..i])| <= size
    && b == Flatten(xs[..i]) + Zeros(size - |Flatten(xs[..i])|)
  }

  lemma {:induction false} FilledToStart(size: nat, xs: seq<Bytes>)
    ensures FilledTo(Zeros(size), size, xs, 0)
  {
    assert xs[..0] == [];
  }

  /** Field i of a buffer of |xs| n-byte fields starts where the first i of xs end. */
  lemma {:induction false} FieldStart(xs: seq<Bytes>, n: nat, i: nat)
    requires Sized(xs, n) && i < |xs|
    ensures |Flatten(xs[..i])| == i * n && 0 <= i * n && i * n + n <= |xs| * n
  {
    FlattenLength(xs[..i], n);
    FieldInside(i, n, |xs|);
  }

  lemma {:induction false} FieldInside(i: nat, n: nat, total: nat)
    requires i < total
    ensures 0 <= i * n && i * n + n <= total * n
    ensures (i + 1) * n == i * n + n
  {
    assert (i + 1) * n == i * n + n;
    MulMonotone(i + 1, total, n);
  }

  /** Writing the next chunk, padded by the zeros already there. */
  lemma {:induction false} FilledToStep(b: Bytes, size: nat, xs: seq<Bytes>, n: nat, i: nat, chunk: Bytes, off: nat)
    requires FilledTo(b, size, xs, i) && i < |xs|
    requires off == |Flatten(xs[..i])| && off + n <= size
    requires |chunk| <= n && PadTo(chunk, n) == xs[i]
    ensures off + n <= |b| == size
    ensures FilledTo(Splice(b, off, chunk), size, xs, i + 1)
  {
    FlattenStep(xs, i);
    SpliceZeros(Flatten(xs[..i]), size - off, size - off - n, chunk, n);
  }

  lemma {:induction false} SpliceZeros(f: Bytes, z: nat, z': nat, chunk: Bytes, n: nat)
    requires z == z' + n && |chunk| <= n
    ensures Splice(f + Zeros(z), |f|, chunk) == f + PadTo(chunk, n) + Zeros(z')
  {
  }

  lemma {:induction false} FilledToEnd(b: Bytes, size: nat, xs: seq<Bytes>, n: nat)
    requires FilledTo(b, size, xs, |xs|) && Sized(xs, n) && |xs| * n == size
    ensures b == Flatten(xs)
  {
    assert xs[..|xs|] == xs;
    FlattenLength(xs, n);
  }

  lemma {:induction false} FlattenAppend(xs: seq<Bytes>, x: Bytes)
    ensures Flatten(xs + [x]) == Flatten(xs) + x
  {
    assert (xs + [x])[..|xs|] == xs;
  }

  /** Uint8Array.set: copies chunk to off, leaving the other bytes alone. */
  method SetBytes(buf: array<byte>, off: nat, chunk: Bytes)
    requires off + |chunk| <= buf.Length
    modifies buf
    ensures buf[..] == Splice(old(buf[..]), off, chunk)
  {
    ghost var before := buf[..];
    for i := 0 to |chunk|
      invariant buf[..] == before[..off] + chunk[..i] + before[off + i..]
    {
      buf[off + i] := chunk[i];
      assert buf[..] == before[..off] + chunk[..i + 1] + before[off + i + 1..];
    }
    assert chunk[..|chunk|] == chunk;
  }

  /** out.set(chunk, i * n) in a loop that fills out field by field with xs. */
  method SetField(buf: array<byte>, i: nat, n: nat, chunk: Bytes, ghost xs: seq<Bytes>)
    requires FilledTo(buf[..], buf.Length, xs, i) && i < |xs|
    requires Sized(xs, n) && |xs| * n == buf.Length
    requires |chunk| <= n && PadTo(chunk, n) == xs[i]
    modifies buf
    ensures FilledTo(buf[..], buf.Length, xs, i + 1)
  {
    FieldStart(xs, n, i);
    FilledToStep(buf[..], buf.Length, xs, n, i, chunk, i * n);
    SetBytes(buf, i * n, chunk);
  }

  /** A four-byte buffer holding v. */
  method CounterBytes(v: nat) returns (b: Bytes)
    ensures b == U32(v)
  {
    var counter := ZeroBuffer(4);
    WriteU32BE(counter, 0, v);
    b := counter[..];
    assert Put32(Zeros(4), 0, v) == U32(v);
  }

  /** new Uint8Array(size): a fresh zeroed buffer. */
  method ZeroBuffer(size: nat) returns (buf: array<byte>)
    ensures fresh(buf) && buf[..] == Zeros(size)
  {
    buf := new byte[size](_ => 0);
  }

  /** concat(...parts): every part copied behind the ones before it. */
  method Concat(parts: seq<Bytes>) returns (out: Bytes)
    ensures out == Flatten(parts)
  {
    var total := 0;
    for i := 0 to |parts|
      invariant total == |Flatten(parts[..i])|
    {
      FlattenStep(parts, i);
      total := total + |parts[i]|;
    }
    assert parts[..|parts|] == parts;
    var buf := ZeroBuffer(total);
    FilledToStart(total, parts);
    var off := 0;
    for i := 0 to |parts|
      invariant off == |Flatten(parts[..i])| && FilledTo(buf[..], total, parts, i)
    {
      FlattenStep(parts, i);
      FlattenPrefix(parts, i + 1);
      FilledToStep(buf[..], total, parts, |parts[i]|, i, parts[i], off);
      SetBytes(buf, off, parts[i]);
      off := off + |parts[i]|;
    }
    out := buf[..];
  }

  lemma {:induction false} FlattenPrefix(xs: seq<Bytes>, i: nat)
    requires i <= |xs|
    ensures |Flatten(xs[..i])| <= |Flatten(xs)|
    decreases |xs| - i
  {
    if i == |xs| {
      assert xs[..i] == xs;
    } else {
      FlattenPrefix(xs, i + 1);
      FlattenStep(xs, i);
    }
  }

  /** A fresh buffer holding b (Uint8Array.slice() without arguments). */
  method NewBuffer(b: Bytes) returns (buf: array<byte>)
    ensures fresh(buf) && buf[..] == b
  {
    buf := new byte[|b|](i requires 0 <= i < |b| => b[i]);
  }

  /** The byte-by-byte comparison loops of the verifiers. */
  method SameBytes(a: Bytes, b: Bytes) returns (same: bool)
    requires |a| == |b|
    ensures same <==> a == b
  {
    for i := 0 to |a|
      invariant forall k :: 0 <= k < i ==> a[k] == b[k]
    {
      if a[i] != b[i] {
        return false;
      }
    }
    same := true;
  }
}
