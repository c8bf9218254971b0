/** The base-16 digits and checksum WOTS+ signs a message at (section 5 of FIPS 205). */
module Digits {
  import opened ByteStrings
  import opened Bits

  /** High nibble, low nibble of each byte. */
  function Nibbles(msg: Bytes): (r: seq<nat>)
    ensures |r| == 2 * |msg|
    ensures Below(r, 16)
  {
    seq(2 * |msg|, i requires 0 <= i < 2 * |msg| => if i % 2 == 0 then msg[i / 2] / 16 else msg[i / 2] % 16)
  }

  /** The distance of all digits from the top of their chains. */
  function Deficit(ds: seq<nat>): nat
    requires Below(ds, 16)
  {
    if ds == [] then 0 else Deficit(ds[..|ds| - 1]) + (15 - ds[|ds| - 1])
  }

  function ThreeDigits(c: nat): (r: seq<nat>)
    ensures |r| == 3 && Below(r, 16)
  {
    [c / 256 % 16, c / 16 % 16, c % 16]
  }

  /** All chain positions of a message: its nibbles and the three digits of their deficit. */
  function ChainDigits(msg: Bytes): (r: seq<nat>)
    ensures |r| == 2 * |msg| + 3 && Below(r, 16)
  {
    Nibbles(msg) + ThreeDigits(Deficit(Nibbles(msg)))
  }

  lemma {:induction false} DeficitBound(ds: seq<nat>)
    requires Below(ds, 16)
    ensures Deficit(ds) <= 15 * |ds|
  {
    if ds != [] {
      DeficitBound(ds[..|ds| - 1]);
    }
  }

  lemma {:induction false} NibblesInjective(m1: Bytes, m2: Bytes)
    requires |m1| == |m2| && Nibbles(m1) == Nibbles(m2)
    ensures m1 == m2
  {
    forall i | 0 <= i < |m1|
      ensures m1[i] == m2[i]
    {
      assert Nibbles(m1)[2 * i] == m1[i] / 16 && Nibbles(m2)[2 * i] == m2[i] / 16;
      assert Nibbles(m1)[2 * i + 1] == m1[i] % 16 && Nibbles(m2)[2 * i + 1] == m2[i] % 16;
    }
  }

  /** Nothing is lost: the nibbles spell the message and the last three digits spell the deficit. */
  lemma {:induction false} ChainDigitsExact(msg: Bytes)
    requires |msg| <= 136
    ensures var ds, n := ChainDigits(msg), |msg|;
            && (forall i :: 0 <= i < n ==> msg[i] == 16 * ds[2 * i] + ds[2 * i + 1])
            && ds[..2 * n] == Nibbles(msg)
            && FromMostFirst(ds[2 * n..], 16) == Deficit(ds[..2 * n]) <= 30 * n
  {
    var ds, n := ChainDigits(msg), |msg|;
    var c := Deficit(Nibbles(msg));
    DeficitBound(Nibbles(msg));
    assert ds[..2 * n] == Nibbles(msg);
    assert ds[2 * n..] == ThreeDigits(c);
    ThreeDigitsValue(c);
    forall i | 0 <= i < n
      ensures msg[i] == 16 * ds[2 * i] + ds[2 * i + 1]
    {
      assert ds[2 * i] == Nibbles(msg)[2 * i] && ds[2 * i + 1] == Nibbles(msg)[2 * i + 1];
    }
  }

  function Total(ds: seq<nat>): nat {
    if ds == [] then 0 else Total(ds[..|ds| - 1]) + ds[|ds| - 1]
  }

  lemma {:induction false} DeficitAndTotal(ds: seq<nat>)
    requires Below(ds, 16)
    ensures Deficit(ds) + Total(ds) == 15 * |ds|
  {
    if ds != [] {
      DeficitAndTotal(ds[..|ds| - 1]);
    }
  }

  /** The number the checksum digits spell and all message digits together make up 15 for each message digit. */
  lemma {:induction false} ChecksumSpelled(msg: Bytes)
    requires |msg| <= 136
    ensures var ds, n := ChainDigits(msg), 2 * |msg|;
            256 * ds[n] + 16 * ds[n + 1] + ds[n + 2] + Total(ds[..n]) == 15 * n
  {
    var ds, n := ChainDigits(msg), 2 * |msg|;
    DeficitBound(Nibbles(msg));
    DeficitAndTotal(Nibbles(msg));
    assert ds[..n] == Nibbles(msg);
    ThreeDigitsSum(Deficit(Nibbles(msg)));
  }

  lemma {:induction false} ThreeDigitsSum(c: nat)
    requires c < 4096
    ensures 256 * (c / 256 % 16) + 16 * (c / 16 % 16) + c % 16 == c
  {
  }

  lemma {:induction false} ThreeDigitsValue(c: nat)
    requires c < 4096
    ensures FromMostFirst(ThreeDigits(c), 16) == c
  {
    var r := ThreeDigits(c);
    assert r[..2] == [c / 256 % 16, c / 16 % 16] && r[..2][..1] == [c / 256 % 16];
    assert FromMostFirst(r[..2][..1], 16) == c / 256 % 16 by {
      assert r[..2][..1][..0] == [];
    }
    assert FromMostFirst(r[..2], 16) == c / 256 % 16 * 16 + c / 16 % 16;
  }

  /** Four bits of alignment and the split in two bytes lose nothing of a 12-bit checksum. */
  lemma {:induction false} ShiftedChecksum(c: nat)
    requires c < 4096
    ensures [c * 16 / 256 % 256 / 16 % 16, c * 16 / 256 % 256 % 16, c * 16 % 256 / 16 % 16] == ThreeDigits(c)
  {
    var hi, lo := c * 16 / 256, c * 16 % 256;
    assert hi == c / 16 && lo == c % 16 * 16;
    assert hi < 256 && hi / 16 == c / 256 && lo / 16 == c % 16;
  }

  ghost predicate AtOrAbove(xs: seq<nat>, ys: seq<nat>)
    requires |xs| == |ys|
  {
    forall i :: 0 <= i < |xs| ==> xs[i] >= ys[i]
  }

  lemma {:induction false} MostFirstMonotone(xs: seq<nat>, ys: seq<nat>, base: nat)
    requires |xs| == |ys| && AtOrAbove(xs, ys)
    ensures FromMostFirst(xs, base) >= FromMostFirst(ys, base)
  {
    if xs != [] {
      var m := |xs| - 1;
      MostFirstMonotone(xs[..m], ys[..m], base);
      MulMonotone(FromMostFirst(ys[..m], base), FromMostFirst(xs[..m], base), base);
    }
  }

  /** Larger digits leave a smaller deficit. */
  lemma {:induction false} DeficitAntitone(xs: seq<nat>, ys: seq<nat>)
    requires |xs| == |ys| && Below(xs, 16) && Below(ys, 16) && AtOrAbove(xs, ys)
    ensures Deficit(xs) <= Deficit(ys)
    ensures xs != ys ==> Deficit(xs) < Deficit(ys)
  {
    if xs != [] {
      var m := |xs| - 1;
      DeficitAntitone(xs[..m], ys[..m]);
      if xs[..m] == ys[..m] && xs[m] == ys[m] {
        assert xs == xs[..m] + [xs[m]] && ys == ys[..m] + [ys[m]];
      }
    }
  }

  /** Of two different messages neither has all its chain digits at or above the other's. */
  lemma {:induction false} ChecksumDomination(m1: Bytes, m2: Bytes)
    requires |m1| == |m2| <= 136 && m1 != m2
    ensures exists i :: 0 <= i < |ChainDigits(m1)| && ChainDigits(m1)[i] < ChainDigits(m2)[i]
  {
    var ds1, ds2, n := ChainDigits(m1), ChainDigits(m2), 2 * |m1|;
    if AtOrAbove(ds1, ds2) {
      assert ds1[..n] == Nibbles(m1) && ds2[..n] == Nibbles(m2);
      if Nibbles(m1) == Nibbles(m2) {
        NibblesInjective(m1, m2);
        assert false;
      }
      DeficitAntitone(ds1[..n], ds2[..n]);
      MostFirstMonotone(ds1[n..], ds2[n..], 16);
      ChainDigitsExact(m1);
      ChainDigitsExact(m2);
      assert false;
    }
  }
}
