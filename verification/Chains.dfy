/** The WOTS+ hash chains (chainStep in wots-ref.ts and slh-dsa-ref.ts, chain in slh-dsa-128s-ref.ts). */
module Chains {
  import opened ByteStrings
  import opened Tweaks

  /** value hashed steps times along chain c of a key, starting at position start. */
  function Chain(th: Tweak, key: Key, c: nat, start: nat, steps: nat, value: Bytes): Bytes {
    if steps == 0 then value
    else th(WotsHash(key, c, start + steps - 1), Chain(th, key, c, start, steps - 1, value))
  }

  function ChainCalls(th: Tweak, key: Key, c: nat, start: nat, steps: nat, value: Bytes): seq<Call> {
    if steps == 0 then []
    else ChainCalls(th, key, c, start, steps - 1, value)
         + [Call(WotsHash(key, c, start + steps - 1), Chain(th, key, c, start, steps - 1, value))]
  }

  /** Walking p steps and then q more is walking p + q steps. */
  lemma {:induction false} ChainCompose(th: Tweak, key: Key, c: nat, start: nat, p: nat, q: nat, value: Bytes)
    ensures Chain(th, key, c, start + p, q, Chain(th, key, c, start, p, value))
         == Chain(th, key, c, start, p + q, value)
  {
    if q > 0 {
      ChainCompose(th, key, c, start, p, q - 1, value);
    }
  }

  lemma {:induction false} ChainCallsCompose(th: Tweak, key: Key, c: nat, start: nat, p: nat, q: nat, value: Bytes)
    ensures ChainCalls(th, key, c, start, p + q, value)
         == ChainCalls(th, key, c, start, p, value)
          + ChainCalls(th, key, c, start + p, q, Chain(th, key, c, start, p, value))
  {
    if q > 0 {
      ChainCallsCompose(th, key, c, start, p, q - 1, value);
      ChainCompose(th, key, c, start, p, q - 1, value);
    }
  }

  lemma {:induction false} ChainSize(th: Tweak, n: nat, key: Key, c: nat, start: nat, steps: nat, value: Bytes)
    requires Outputs(th, n)
    requires |value| == n
    ensures |Chain(th, key, c, start, steps, value)| == n
  {
  }

  /** Two chains that meet started from the same value, or two of their calls collide. */
  lemma {:induction false} ChainBinding(th: Tweak, key: Key, c: nat, start: nat, steps: nat, x: Bytes, y: Bytes)
    requires Chain(th, key, c, start, steps, x) == Chain(th, key, c, start, steps, y)
    ensures x == y || CollisionIn(th, ChainCalls(th, key, c, start, steps, x), ChainCalls(th, key, c, start, steps, y))
  {
    if steps > 0 {
      var xs, ys := ChainCalls(th, key, c, start, steps, x), ChainCalls(th, key, c, start, steps, y);
      var x', y' := Chain(th, key, c, start, steps - 1, x), Chain(th, key, c, start, steps - 1, y);
      EqualOrCollide(th, xs, ys, WotsHash(key, c, start + steps - 1), x', y');
      if x' == y' {
        ChainBinding(th, key, c, start, steps - 1, x, y);
        if x != y {
          CollisionExtends(th, ChainCalls(th, key, c, start, steps - 1, x), ChainCalls(th, key, c, start, steps - 1, y),
                           xs, ys);
        }
      }
    }
  }

  /** Two chains that meet at position top: the lower one passes through the start of the other, or calls collide. */
  lemma {:induction false} ChainMeets(th: Tweak, key: Key, c: nat, lo: nat, hi: nat, top: nat, x: Bytes, y: Bytes)
    requires lo <= hi <= top
    requires Chain(th, key, c, lo, top - lo, x) == Chain(th, key, c, hi, top - hi, y)
    ensures Chain(th, key, c, lo, hi - lo, x) == y
            || CollisionIn(th, ChainCalls(th, key, c, lo, top - lo, x), ChainCalls(th, key, c, hi, top - hi, y))
  {
    var ahead := Chain(th, key, c, lo, hi - lo, x);
    ChainCompose(th, key, c, lo, hi - lo, top - hi, x);
    ChainCallsCompose(th, key, c, lo, hi - lo, top - hi, x);
    ChainBinding(th, key, c, hi, top - hi, ahead, y);
    if ahead != y {
      CollisionExtends(th, ChainCalls(th, key, c, hi, top - hi, ahead), ChainCalls(th, key, c, hi, top - hi, y),
                       ChainCalls(th, key, c, lo, top - lo, x), ChainCalls(th, key, c, hi, top - hi, y));
    }
  }

  /** Chains agree when the two keys' addresses and hashes agree along them. */
  lemma {:induction false} ChainCongruence(th: Tweak, key: Key, enc: Address -> Bytes,
                                           th': Tweak, key': Key, enc': Address -> Bytes,
                                           c: nat, start: nat, steps: nat, value: Bytes)
    requires forall j: nat, m: Bytes :: th(WotsHash(key, c, j), m) == th'(WotsHash(key', c, j), m)
    requires forall j: nat :: enc(WotsHash(key, c, j)) == enc'(WotsHash(key', c, j))
    ensures Chain(th, key, c, start, steps, value) == Chain(th', key', c, start, steps, value)
    ensures Encoded(enc, ChainCalls(th, key, c, start, steps, value))
         == Encoded(enc', ChainCalls(th', key', c, start, steps, value))
  {
    if steps > 0 {
      ChainCongruence(th, key, enc, th', key', enc', c, start, steps - 1, value);
      var j, below := start + steps - 1, Chain(th, key, c, start, steps - 1, value);
      EncodedOne(enc, ChainCalls(th, key, c, start, steps - 1, value), WotsHash(key, c, j), below);
      EncodedOne(enc', ChainCalls(th', key', c, start, steps - 1, value), WotsHash(key', c, j), below);
    }
  }

  /** v and log are the value and the calls of j steps along a chain. */
  ghost predicate Walked(th: Tweak, enc: Address -> Bytes, key: Key, c: nat, start: nat, j: nat, value: Bytes, v: Bytes,
                         log: seq<Sent>) {
    v == Chain(th, key, c, start, j, value) && log == Encoded(enc, ChainCalls(th, key, c, start, j, value))
  }

  lemma {:induction false} WalkStart(th: Tweak, enc: Address -> Bytes, key: Key, c: nat, start: nat, value: Bytes)
    ensures Walked(th, enc, key, c, start, 0, value, value, [])
  {
  }

  lemma {:induction false} ChainStepped(th: Tweak, enc: Address -> Bytes, key: Key, c: nat, start: nat, j: nat,
                                        hash: nat, value: Bytes, v: Bytes, log: seq<Sent>, v': Bytes, log': seq<Sent>)
    requires Walked(th, enc, key, c, start, j, value, v, log) && hash == start + j
    requires v' == th(WotsHash(key, c, hash), v) && log' == log + [Sent(enc(WotsHash(key, c, hash)), v)]
    ensures Walked(th, enc, key, c, start, j + 1, value, v', log')
  {
    EncodedOne(enc, ChainCalls(th, key, c, start, j, value), WotsHash(key, c, hash), v);
  }
}
