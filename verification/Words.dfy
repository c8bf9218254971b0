/** Byte strings made of big-endian 32-bit words, and ADRS buffers edited word by word. */
module Words {
  import opened ByteStrings
  import opened Bits

  function WordChunks(ws: seq<nat>): (xs: seq<Bytes>)
    ensures |xs| == |ws| && Sized(xs, 4)
  {
    seq(|ws|, i requires 0 <= i < |ws| => U32(ws[i]))
  }

  function WordBytes(ws: seq<nat>): (b: Bytes)
    ensures |b| == 4 * |ws|
  {
    FlattenLength(WordChunks(ws), 4);
    Flatten(WordChunks(ws))
  }

  ghost predicate WordsFit(ws: seq<nat>) {
    forall i :: 0 <= i < |ws| ==> ws[i] < 0x1_0000_0000
  }

  lemma {:induction false} WordBytesInjective(xs: seq<nat>, ys: seq<nat>)
    requires WordsFit(xs) && WordsFit(ys) && |xs| == |ys| && WordBytes(xs) == WordBytes(ys)
    ensures xs == ys
  {
    FlattenInjective(WordChunks(xs), WordChunks(ys), 4);
    forall i | 0 <= i < |xs|
      ensures xs[i] == ys[i]
    {
      assert WordChunks(xs)[i] == U32(xs[i]) && WordChunks(ys)[i] == U32(ys[i]);
      assert Pow256(4) == 256 * Pow256(3) == 0x1_0000_0000;
      BytesOfInjective(xs[i], ys[i], 4);
    }
  }

  lemma {:induction false} WordBytesSplit(xs: seq<nat>, ys: seq<nat>)
    ensures WordBytes(xs + ys) == WordBytes(xs) + WordBytes(ys)
  {
    if ys == [] {
      assert xs + ys == xs;
    } else {
      var m := |ys| - 1;
      WordBytesSplit(xs, ys[..m]);
      assert WordChunks(xs + ys)[..|xs| + m] == WordChunks(xs + ys[..m]);
      assert WordChunks(ys)[..m] == WordChunks(ys[..m]);
    }
  }

  lemma {:induction false} WordBytesOne(v: nat)
    ensures WordBytes([v]) == U32(v)
  {
    assert WordChunks([v]) == [U32(v)];
    assert Flatten([U32(v)]) == Flatten([]) + U32(v);
  }

  /** Writing word k of a buffer. */
  lemma {:induction false} PutWord(ws: seq<nat>, k: nat, v: nat, off: nat)
    requires k < |ws| && off == 4 * k
    ensures Put32(WordBytes(ws), off, v) == WordBytes(ws[k := v])
  {
    WordBytesAround(ws, k);
    WordBytesAround(ws[k := v], k);
    assert ws[k := v][..k] == ws[..k] && ws[k := v][k + 1..] == ws[k + 1..];
    PutMiddle(WordBytes(ws[..k]), U32(ws[k]), WordBytes(ws[k + 1..]), v, off);
  }

  lemma {:induction false} WordBytesAround(ws: seq<nat>, k: nat)
    requires k < |ws|
    ensures WordBytes(ws) == WordBytes(ws[..k]) + U32(ws[k]) + WordBytes(ws[k + 1..])
  {
    assert ws == (ws[..k] + [ws[k]]) + ws[k + 1..];
    WordBytesSplit(ws[..k] + [ws[k]], ws[k + 1..]);
    WordBytesSplit(ws[..k], [ws[k]]);
    WordBytesOne(ws[k]);
  }

  lemma {:induction false} PutMiddle(a: Bytes, m: Bytes, c: Bytes, v: nat, off: nat)
    requires |m| == 4 && |a| == off
    ensures Put32(a + m + c, off, v) == a + U32(v) + c
  {
    Put32Inside(a + m + c, off, v);
  }

  lemma {:induction false} ZeroWords(k: nat)
    ensures WordBytes(seq(k, _ => 0)) == Zeros(4 * k)
  {
    if k > 0 {
      var ws := seq(k, _ => 0);
      ZeroWords(k - 1);
      assert ws == seq(k - 1, _ => 0) + [0];
      WordBytesSplit(seq(k - 1, _ => 0), [0]);
      WordBytesOne(0);
      assert U32(0) == Zeros(4) by {
        BytesOfExplicit(0);
      }
    }
  }

  function LowWord(v: nat): nat {
    v % 0x1_0000_0000
  }

  function HighWord(v: nat): nat {
    v / 0x1_0000_0000 % 0x1_0000_0000
  }

  /** The eight words of a 32-byte address: layer, unused, tree (two words), type, then three by type. */
  function AdrsWords(layer: nat, tree: nat, typ: nat, w5: nat, w6: nat, w7: nat): (ws: seq<nat>)
    ensures |ws| == 8
  {
    [layer, 0, HighWord(tree), LowWord(tree), typ, w5, w6, w7]
  }

  /**
   The 32 bytes of an address: the layer in bytes 0 to 3, zeros in 4 to 7, the tree in 8 to 15, then
   type and three words of four bytes each, all big-endian and cut to their width.
   */
  ghost predicate Spells(b: Bytes, layer: nat, tree: nat, typ: nat, x: nat, y: nat, z: nat) {
    && |b| == 32
    && ValueOf(b[0..4]) == layer % 0x1_0000_0000 && ValueOf(b[4..8]) == 0
    && ValueOf(b[8..16]) == tree % 0x1_0000_0000_0000_0000
    && ValueOf(b[16..20]) == typ % 0x1_0000_0000 && ValueOf(b[20..24]) == x % 0x1_0000_0000
    && ValueOf(b[24..28]) == y % 0x1_0000_0000 && ValueOf(b[28..32]) == z % 0x1_0000_0000
  }

  /** The k low bytes of a number spell its remainder. */
  lemma {:induction false} BytesOfValueCut(v: nat, k: nat)
    ensures ValueOf(BytesOf(v, k)) == v % Pow256(k)
  {
    if k > 0 {
      var j, a := k - 1, v / 256;
      BytesOfValueCut(a, j);
      LastByteCut(v, a, BytesOf(a, j), Pow256(j));
      assert BytesOf(v, k) == BytesOf(a, j) + [v % 256] && Pow256(k) == 256 * Pow256(j);
    }
  }

  lemma {:induction false} LastByteCut(v: nat, a: nat, b: Bytes, p: nat)
    requires a == v / 256 && p > 0 && ValueOf(b) == a % p
    ensures 256 * p > 0 && ValueOf(b + [v % 256]) == v % (256 * p)
  {
    assert (b + [v % 256])[..|b|] == b;
    CutDigit(v, a, v % 256, p);
  }

  lemma {:induction false} CutDigit(v: nat, a: nat, d: nat, p: nat)
    requires v == 256 * a + d && d < 256 && p > 0
    ensures 256 * p > 0 && v % (256 * p) == 256 * (a % p) + d
  {
    var q, r := a / p, a % p;
    assert a == q * p + r && r < p;
    assert q * (256 * p) == 256 * (q * p);
    QuotientUnique(v, q, 256 * r + d, 256 * p);
  }

  lemma {:induction false} U32Value(v: nat)
    ensures ValueOf(U32(v)) == v % 0x1_0000_0000
  {
    FourBytes();
    BytesOfValueCut(v, 4);
  }

  lemma {:induction false} FourBytes()
    ensures Pow256(4) == 0x1_0000_0000
  {
    assert Pow256(4) == 256 * Pow256(3);
  }

  lemma {:induction false} WordAt(ws: seq<nat>, k: nat, lo: nat)
    requires k < |ws| && lo == 4 * k
    ensures lo + 4 <= |WordBytes(ws)| && WordBytes(ws)[lo..lo + 4] == U32(ws[k])
    ensures ValueOf(WordBytes(ws)[lo..lo + 4]) == ws[k] % 0x1_0000_0000
  {
    FlattenAt(WordChunks(ws), 4, k);
    U32Value(ws[k]);
  }

  lemma {:induction false} HalvesValue(v: nat)
    ensures ValueOf(U32(HighWord(v)) + U32(LowWord(v))) == v % 0x1_0000_0000_0000_0000
  {
    U32Value(HighWord(v));
    U32Value(LowWord(v));
    HalvesFit(v);
    HalvesTogether(U32(HighWord(v)), U32(LowWord(v)), v);
  }

  lemma {:induction false} HalvesFit(v: nat)
    ensures HighWord(v) % 0x1_0000_0000 == HighWord(v) && LowWord(v) % 0x1_0000_0000 == LowWord(v)
  {
  }

  lemma {:induction false} HalvesTogether(x: Bytes, y: Bytes, v: nat)
    requires |y| == 4 && ValueOf(x) == HighWord(v) && ValueOf(y) == LowWord(v)
    ensures ValueOf(x + y) == v % 0x1_0000_0000_0000_0000
  {
    TwoWords(x, y);
    HalvesSpell(v);
  }

  lemma {:induction false} TwoWords(x: Bytes, y: Bytes)
    requires |y| == 4
    ensures ValueOf(x + y) == ValueOf(x) * 0x1_0000_0000 + ValueOf(y)
  {
    ValueOfConcat(x, y);
    FourBytes();
  }

  lemma {:induction false} HalvesSpell(v: nat)
    ensures HighWord(v) * 0x1_0000_0000 + LowWord(v) == v % 0x1_0000_0000_0000_0000
  {
  }

  lemma {:induction false} WordValue(ws: seq<nat>, k: nat, lo: nat, hi: nat)
    requires k < |ws| && lo == 4 * k && hi == lo + 4
    ensures hi <= |WordBytes(ws)| && ValueOf(WordBytes(ws)[lo..hi]) == ws[k] % 0x1_0000_0000
  {
    WordAt(ws, k, lo);
  }

  lemma {:induction false} TreeValue(ws: seq<nat>, k: nat, lo: nat, hi: nat, tree: nat)
    requires k + 1 < |ws| && lo == 4 * k && hi == lo + 8 && ws[k] == HighWord(tree) && ws[k + 1] == LowWord(tree)
    ensures hi <= |WordBytes(ws)| && ValueOf(WordBytes(ws)[lo..hi]) == tree % 0x1_0000_0000_0000_0000
  {
    var b, mid := WordBytes(ws), lo + 4;
    WordAt(ws, k, lo);
    WordAt(ws, k + 1, mid);
    HalvesValue(tree);
    assert b[lo..hi] == b[lo..mid] + b[mid..hi];
  }

  lemma {:induction false} AdrsSpelled(layer: nat, tree: nat, typ: nat, x: nat, y: nat, z: nat)
    ensures Spells(WordBytes(AdrsWords(layer, tree, typ, x, y, z)), layer, tree, typ, x, y, z)
  {
    var ws := AdrsWords(layer, tree, typ, x, y, z);
    WordValue(ws, 0, 0, 4);
    WordValue(ws, 1, 4, 8);
    TreeValue(ws, 2, 8, 16, tree);
    WordValue(ws, 4, 16, 20);
    WordValue(ws, 5, 20, 24);
    WordValue(ws, 6, 24, 28);
    WordValue(ws, 7, 28, 32);
  }

  /** writeU32BE at word k of a buffer known by its words. */
  method WriteWord(buf: array<byte>, ghost ws: seq<nat>, k: nat, v: nat) returns (ghost ws': seq<nat>)
    requires k < |ws| && buf[..] == WordBytes(ws)
    modifies buf
    ensures ws' == ws[k := v] && buf[..] == WordBytes(ws')
  {
    PutWord(ws, k, v, 4 * k);
    WriteU32BE(buf, 4 * k, v);
    ws' := ws[k := v];
  }
}
