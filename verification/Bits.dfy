/** Shifts, masks and positional digits on non-negative integers. */
module Bits {
  import opened ByteStrings

  function Pow2(k: nat): (p: nat)
    ensures p > 0
  {
    if k == 0 then 1 else 2 * Pow2(k - 1)
  }

  /** v >> k, one halving per bit. */
  function Shr(v: nat, k: nat): nat {
    if k == 0 then v else Shr(v, k - 1) / 2
  }

  /** v ^ 1: the other child of the same parent. */
  function Sibling(v: nat): nat {
    if v % 2 == 0 then v + 1 else v - 1
  }

  lemma {:induction false} ShrBound(v: nat, m: nat, k: nat)
    requires k <= m && v < Pow2(m)
    ensures Shr(v, k) < Pow2(m - k)
  {
    if k > 0 {
      ShrBound(v, m, k - 1);
    }
  }

  /** A node of tree t at height k, numbered across the whole forest. */
  lemma {:induction false} ShrOfOffset(t: nat, v: nat, m: nat, k: nat)
    requires k <= m
    ensures Shr(t * Pow2(m) + v, k) == t * Pow2(m - k) + Shr(v, k)
  {
    if k > 0 {
      ShrOfOffset(t, v, m, k - 1);
      var p := t * Pow2(m - k);
      assert t * Pow2(m - k + 1) == 2 * p;
      assert (2 * p + Shr(v, k - 1)) / 2 == p + Shr(v, k - 1) / 2;
    }
  }

  /** Siblings stay inside their tree, and keep their place in it. */
  lemma {:induction false} SiblingInTree(t: nat, i: nat, m: nat, g: nat, h: nat, idx: nat, n: nat)
    requires i < Pow2(m) && g == t * Pow2(m) + i && h < m && idx == Shr(i, h) && n == Pow2(m - h)
    ensures 0 <= t * n && Sibling(idx) < n && Sibling(Shr(g, h)) == t * n + Sibling(idx)
  {
    var half := Pow2(m - h - 1);
    ShrOfOffset(t, i, m, h);
    ShrBound(i, m, h);
    Doubled(t, half, n);
    SiblingOfSum(t * half, idx, half);
  }

  lemma {:induction false} SiblingOfSum(p: nat, idx: nat, half: nat)
    requires idx < 2 * half
    ensures Sibling(idx) < 2 * half && Sibling(2 * p + idx) == 2 * p + Sibling(idx)
  {
  }

  lemma {:induction false} Doubled(t: nat, half: nat, whole: nat)
    requires whole == 2 * half
    ensures t * whole == 2 * (t * half)
  {
  }

  /**
   The index words of a walk up tree t of a forest of height-m trees, kept as the tree's own index
   idx, are the ancestors of the leaf in the numbering of the whole forest, with its parities.
   */
  lemma {:induction false} ParentIndex(t: nat, leafIdx: nat, m: nat, g: nat, h: nat, up: nat, idx: nat, parent: nat)
    requires leafIdx < Pow2(m) && g == t * Pow2(m) + leafIdx && up == h + 1 <= m
    requires idx == Shr(leafIdx, h) && parent == t * Pow2(m - up) + idx / 2
    ensures parent == Shr(g, up) && idx % 2 == Shr(g, h) % 2
  {
    ShrOfOffset(t, leafIdx, m, h);
    ShrOfOffset(t, leafIdx, m, up);
    Doubled(t, Pow2(m - up), Pow2(m - h));
  }

  /** treeNum * (1 << (a - height)) + (idx >> 1): the index word of the next node up. */
  method ParentWord(t: nat, m: nat, up: nat, idx: nat, ghost leafIdx: nat, ghost g: nat, ghost h: nat)
    returns (parent: nat)
    requires leafIdx < Pow2(m) && g == t * Pow2(m) + leafIdx && up == h + 1 <= m && idx == Shr(leafIdx, h)
    ensures parent == Shr(g, up) && idx % 2 == Shr(g, h) % 2
  {
    parent := t * Pow2(m - up) + idx / 2;
    ParentIndex(t, leafIdx, m, g, h, up, idx, parent);
  }

  lemma {:induction false} Pow2Sum(j: nat, k: nat)
    ensures Pow2(j + k) == Pow2(j) * Pow2(k)
  {
    if k > 0 {
      Pow2Sum(j, k - 1);
    }
  }

  /** Masking with 2^k - 1 and shifting by k take a number apart. */
  lemma {:induction false} ShrIsDivision(v: nat, k: nat)
    ensures Shr(v, k) == v / Pow2(k)
  {
    if k > 0 {
      ShrIsDivision(v, k - 1);
      DivDiv(v, Pow2(k - 1), 2);
    }
  }

  lemma {:induction false} ShrSum(v: nat, j: nat, k: nat)
    ensures Shr(v, j + k) == Shr(Shr(v, j), k)
  {
    if k > 0 {
      ShrSum(v, j, k - 1);
    }
  }

  lemma {:induction false} DivDiv(v: nat, p: nat, q: nat)
    requires p > 0 && q > 0
    ensures q * p > 0 && v / p / q == v / (q * p)
  {
    MulMonotone(1, q, p);
    NestedQuotient(v, p, q, v / p, v % p, v / p / q, v / p % q);
  }

  lemma {:induction false} NestedQuotient(v: nat, p: nat, q: nat, a: nat, r: nat, b: nat, s: nat)
    requires r < p && v == a * p + r
    requires s < q && a == b * q + s
    requires q * p > 0
    ensures v / (q * p) == b
  {
    Regroup(b, q, s, p);
    MulMonotone(s + 1, q, p);
    assert (s + 1) * p == s * p + p;
    QuotientUnique(v, b, s * p + r, q * p);
  }

  lemma {:induction false} Regroup(b: nat, q: nat, s: nat, p: nat)
    ensures (b * q + s) * p == b * (q * p) + s * p
  {
  }

  lemma {:induction false} QuotientUnique(x: nat, q: nat, r: nat, m: nat)
    requires r < m && x == q * m + r
    ensures x / m == q && x % m == r
  {
    var d := q - x / m;
    assert d * m == x % m - r;
    ZeroMultiple(d, m, x % m - r);
  }

  lemma {:induction false} ZeroMultiple(d: int, m: int, z: int)
    requires -m < z < m && z == d * m
    ensures d == 0
  {
  }

  // ---- digits ---------------------------------------------------------------------------------

  function FromLeastFirst(digits: seq<nat>, base: nat): nat {
    if digits == [] then 0 else digits[0] + base * FromLeastFirst(digits[1..], base)
  }

  function FromMostFirst(digits: seq<nat>, base: nat): nat {
    if digits == [] then 0 else FromMostFirst(digits[..|digits| - 1], base) * base + digits[|digits| - 1]
  }

  lemma {:induction false} AppendedDigit(digits: seq<nat>, d: nat, base: nat)
    ensures FromMostFirst(digits + [d], base) == FromMostFirst(digits, base) * base + d
  {
    assert (digits + [d])[..|digits|] == digits;
  }

  ghost predicate Below(digits: seq<nat>, base: nat) {
    forall i :: 0 <= i < |digits| ==> digits[i] < base
  }

  lemma {:induction false} MostFirstInjective(xs: seq<nat>, ys: seq<nat>, base: nat)
    requires Below(xs, base) && Below(ys, base) && |xs| == |ys|
    requires FromMostFirst(xs, base) == FromMostFirst(ys, base)
    ensures xs == ys
  {
    if xs != [] {
      var m := |xs| - 1;
      QuotientUnique(FromMostFirst(xs, base), FromMostFirst(xs[..m], base), xs[m], base);
      QuotientUnique(FromMostFirst(ys, base), FromMostFirst(ys[..m], base), ys[m], base);
      MostFirstInjective(xs[..m], ys[..m], base);
      assert xs == xs[..m] + [xs[m]] && ys == ys[..m] + [ys[m]];
    }
  }

  // ---- reading bits ------------------------------------------------------------------------------

  /** Byte i of a buffer as JavaScript arithmetic sees it: past the end there is undefined, which reads as zero. */
  function ByteAt(b: Bytes, i: nat): byte {
    if i < |b| then b[i] else 0
  }

  /** Bit k of b, most significant bit of the first byte first. */
  function BitAt(b: Bytes, k: nat): (r: nat)
    ensures r < 2
  {
    ByteAt(b, k / 8) / Pow2(7 - k % 8) % 2
  }

  function ReadBits(b: Bytes, lo: nat, n: nat): (v: nat)
    ensures v < Pow2(n)
  {
    if n == 0 then 0 else 2 * ReadBits(b, lo, n - 1) + BitAt(b, lo + n - 1)
  }

  lemma {:induction false} Double(x: nat, y: nat)
    ensures x * (2 * y) == 2 * (x * y)
  {
  }

  lemma {:induction false} ReadBitsSplit(b: Bytes, lo: nat, p: nat, q: nat)
    ensures ReadBits(b, lo, p + q) == ReadBits(b, lo, p) * Pow2(q) + ReadBits(b, lo + p, q)
  {
    if q > 0 {
      var r := q - 1;
      ReadBitsSplit(b, lo, p, r);
      Double(ReadBits(b, lo, p), Pow2(r));
      assert lo + (p + q) - 1 == lo + p + q - 1;
    }
  }

  lemma {:induction false} ReadOneByte(b: Bytes, m: nat)
    ensures ReadBits(b, 8 * m, 8) == ByteAt(b, m)
  {
    TopBits(b, m, 8);
  }

  lemma {:induction false} ByteRange()
    ensures Pow2(8) == 256
  {
    assert Pow2(4) == 16 && Pow2(8) == 2 * 2 * 2 * 2 * Pow2(4);
  }

  /** The first i bits of a byte are its quotient by 2^(8-i). */
  lemma {:induction false} TopBits(b: Bytes, m: nat, i: nat)
    requires i <= 8
    ensures ReadBits(b, 8 * m, i) == ByteAt(b, m) / Pow2(8 - i)
  {
    if i == 0 {
      ByteRange();
    } else {
      var j := i - 1;
      TopBits(b, m, j);
      OneMoreBit(b, m, 8 * m, j, 8 - i);
    }
  }

  lemma {:induction false} OneMoreBit(b: Bytes, m: nat, lo: nat, j: nat, rest: nat)
    requires lo == 8 * m && j + rest == 7 && ReadBits(b, lo, j) == ByteAt(b, m) / Pow2(rest + 1)
    ensures ReadBits(b, lo, j + 1) == ByteAt(b, m) / Pow2(rest)
  {
    BitOfByte(b, m, j, lo + j);
    DivDiv(ByteAt(b, m), Pow2(rest), 2);
  }

  lemma {:induction false} BitOfByte(b: Bytes, m: nat, j: nat, k: nat)
    requires j < 8 && k == 8 * m + j
    ensures BitAt(b, k) == ByteAt(b, m) / Pow2(7 - j) % 2
  {
    assert k / 8 == m && k % 8 == j;
  }

  lemma {:induction false} ReadAllBits(b: Bytes, m: nat)
    requires m <= |b|
    ensures ReadBits(b, 0, 8 * m) == ValueOf(b[..m])
  {
    ReadBytes(b, 0, m);
    assert b[0..m] == b[..m];
  }

  /** The bits of the k bytes from byte m on spell their big-endian number. */
  lemma {:induction false} ReadBytes(b: Bytes, m: nat, k: nat)
    requires m + k <= |b|
    ensures ReadBits(b, 8 * m, 8 * k) == ValueOf(b[m..m + k])
  {
    if k > 0 {
      var j := k - 1;
      ReadBytes(b, m, j);
      OneMoreByte(b, m, j, 8 * m, 8 * j, 8 * k);
    }
  }

  lemma {:induction false} OneMoreByte(b: Bytes, m: nat, j: nat, lo: nat, before: nat, total: nat)
    requires m + j < |b| && lo == 8 * m && before == 8 * j && total == before + 8
    requires ReadBits(b, lo, before) == ValueOf(b[m..m + j])
    ensures ReadBits(b, lo, total) == ValueOf(b[m..m + j + 1])
  {
    var at, place := m + j, lo + before;
    BitsThenByte(b, lo, before, total, place);
    assert place == 8 * at;
    ReadOneByte(b, at);
    ValueOfNext(b, m, at);
  }

  lemma {:induction false} BitsThenByte(b: Bytes, lo: nat, before: nat, total: nat, place: nat)
    requires total == before + 8 && place == lo + before
    ensures ReadBits(b, lo, total) == ReadBits(b, lo, before) * 256 + ReadBits(b, place, 8)
  {
    ReadBitsSplit(b, lo, before, 8);
    ByteRange();
  }

  lemma {:induction false} ValueOfNext(b: Bytes, from: nat, at: nat)
    requires from <= at < |b|
    ensures ValueOf(b[from..at + 1]) == ValueOf(b[from..at]) * 256 + b[at]
  {
    var whole := b[from..at + 1];
    assert whole[..|whole| - 1] == b[from..at] && whole[|whole| - 1] == b[at];
  }

  /** n bits somewhere inside a stretch of bits, by shift and mask of the number the stretch spells. */
  lemma {:induction false} BitsInside(b: Bytes, s: nat, whole: nat, lo: nat, n: nat, rest: nat)
    requires whole == lo + n + rest
    ensures ReadBits(b, s + lo, n) == ReadBits(b, s, whole) / Pow2(rest) % Pow2(n)
  {
    var first := lo + n;
    ReadBitsSplit(b, s, first, rest);
    ReadBitsSplit(b, s, lo, n);
    MiddleOf(ReadBits(b, s, whole), ReadBits(b, s, first), ReadBits(b, s + first, rest), Pow2(rest),
             ReadBits(b, s, lo), ReadBits(b, s + lo, n), Pow2(n));
  }

  lemma {:induction false} MiddleOf(x: nat, y: nat, z: nat, p: nat, u: nat, v: nat, q: nat)
    requires x == y * p + z && z < p && y == u * q + v && v < q
    ensures x / p % q == v
  {
    QuotientUnique(x, y, z, p);
    QuotientUnique(y, u, v, q);
  }

  /** Bits inside the first m bytes do not depend on the rest. */
  lemma {:induction false} ReadBitsPrefix(b: Bytes, m: nat, lo: nat, n: nat)
    requires m <= |b| && lo + n <= 8 * m
    ensures ReadBits(b[..m], lo, n) == ReadBits(b, lo, n)
  {
    if n > 0 {
      ReadBitsPrefix(b, m, lo, n - 1);
      assert (lo + n - 1) / 8 < m;
    }
  }

  /** The k consecutive w-bit fields of b. */
  function Fields(b: Bytes, w: nat, k: nat): (r: seq<nat>)
    ensures |r| == k && Below(r, Pow2(w))
  {
    if k == 0 then [] else Fields(b, w, k - 1) + [ReadBits(b, (k - 1) * w, w)]
  }

  lemma {:induction false} OneMore(k: nat, w: nat)
    requires k > 0
    ensures k * w == (k - 1) * w + w
  {
  }

  lemma {:induction false} OneMoreField(b: Bytes, w: nat, before: nat, digits: seq<nat>)
    requires FromMostFirst(digits, Pow2(w)) == ReadBits(b, 0, before)
    ensures FromMostFirst(digits + [ReadBits(b, before, w)], Pow2(w)) == ReadBits(b, 0, before + w)
  {
    AppendedDigit(digits, ReadBits(b, before, w), Pow2(w));
    ReadBitsSplit(b, 0, before, w);
  }

  lemma {:induction false} FieldsStep(b: Bytes, w: nat, j: nat, k: nat, before: nat, total: nat)
    requires k == j + 1 && before == j * w && total == before + w
    requires FromMostFirst(Fields(b, w, j), Pow2(w)) == ReadBits(b, 0, before)
    ensures FromMostFirst(Fields(b, w, k), Pow2(w)) == ReadBits(b, 0, total)
  {
    OneMoreField(b, w, before, Fields(b, w, j));
    assert Fields(b, w, k) == Fields(b, w, j) + [ReadBits(b, before, w)];
  }

  /** Read as digits to base 2^w, the fields are the number the bits spell. */
  lemma {:induction false} FieldsValue(b: Bytes, w: nat, k: nat, total: nat)
    requires total == k * w
    ensures FromMostFirst(Fields(b, w, k), Pow2(w)) == ReadBits(b, 0, total)
  {
    if k > 0 {
      var j := k - 1;
      OneMore(k, w);
      FieldsValue(b, w, j, j * w);
      FieldsStep(b, w, j, k, j * w, total);
    }
  }
}
