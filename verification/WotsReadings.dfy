/**
 packages/pqc/src/wots-ref.ts down to the bytes: which strings SHA-256 is given for every secret,
 every chain step and every verdict, with no definition of `WotsRef` on the right-hand side.
 */
module WotsReadings {
  import opened ByteStrings
  import opened Words
  import opened Results
  import opened Chains
  import opened Schemes
  import opened Digits
  import opened Runs
  import opened WotsRef

  /** The address of a step: type 0 at offset 16, the chain at 24, the position at 28, the rest as in the base. */
  function StepAddress(base: Bytes, chain: byte, pos: byte): Bytes
    requires |base| == 32
  {
    base[..16] + [0, 0, 0, 0] + base[20..24] + [0, 0, 0, chain] + [0, 0, 0, pos]
  }

  lemma {:induction false} SmallWord(v: byte)
    ensures U32(v) == [0, 0, 0, v]
  {
    BytesOfExplicit(v);
  }

  lemma {:induction false} StepAddressIs(base: Bytes, chain: byte, pos: byte)
    requires |base| == 32
    ensures ChainAdrs(base, chain, pos) == StepAddress(base, chain, pos)
  {
    SmallWord(0);
    SmallWord(chain);
    SmallWord(pos);
    var a := Put32(base, 16, 0);
    var b := Put32(a, 24, chain);
    Put32Inside(base, 16, 0);
    Put32Inside(a, 24, chain);
    Put32Inside(b, 28, pos);
    assert a == base[..16] + [0, 0, 0, 0] + base[20..];
    assert b == base[..16] + [0, 0, 0, 0] + base[20..24] + [0, 0, 0, chain] + base[28..];
  }

  /** vs[0] stands at position from of a chain; every further value is one SHA-256 of the one before. */
  ghost predicate Ladder(sha: Hash, seed: Bytes, base: Bytes, chain: byte, from: nat, vs: seq<Bytes>)
    requires |base| == 32
  {
    0 < |vs| <= 256 - from && forall k :: 0 <= k < |vs| - 1 ==> Rung(sha, seed, base, chain, from, vs, k)
  }

  ghost predicate Rung(sha: Hash, seed: Bytes, base: Bytes, chain: byte, from: nat, vs: seq<Bytes>, k: nat)
    requires |base| == 32 && k + 1 < |vs| && from + k < 256
  {
    var pos: byte := from + k;
    vs[k + 1] == sha(seed + StepAddress(base, chain, pos) + vs[k])
  }

  lemma {:induction false} RungIs(sha: Hash, seed: Bytes, base: Bytes, chain: byte, from: nat, vs: seq<Bytes>, k: nat)
    requires |base| == 32 && k + 1 < |vs| && from + k < 256
    ensures Rung(sha, seed, base, chain, from, vs, k)
       <==> HashedOnce(WotsScheme(sha, seed, base).th, BASE_KEY, chain, from, vs, k)
  {
    var pos: byte := from + k;
    StepAddressIs(base, chain, pos);
  }

  lemma {:induction false} LadderIsRun(sha: Hash, seed: Bytes, base: Bytes, chain: byte, from: nat, vs: seq<Bytes>)
    requires |base| == 32 && 0 < |vs| <= 256 - from
    ensures Ladder(sha, seed, base, chain, from, vs)
       <==> ChainRun(WotsScheme(sha, seed, base).th, BASE_KEY, chain, from, vs)
  {
    forall k | 0 <= k < |vs| - 1
      ensures Rung(sha, seed, base, chain, from, vs, k)
         <==> HashedOnce(WotsScheme(sha, seed, base).th, BASE_KEY, chain, from, vs, k)
    {
      RungIs(sha, seed, base, chain, from, vs, k);
    }
  }

  /** A ladder leads from x at position from to y, steps positions on. */
  ghost predicate Leads(sha: Hash, seed: Bytes, base: Bytes, chain: byte, from: nat, steps: nat, x: Bytes, y: Bytes)
    requires |base| == 32
  {
    exists vs :: Ladder(sha, seed, base, chain, from, vs) && |vs| == steps + 1 && vs[0] == x && vs[steps] == y
  }

  lemma {:induction false} LeadsIsChain(sha: Hash, seed: Bytes, base: Bytes, chain: byte, from: nat, steps: nat,
                                        x: Bytes, y: Bytes)
    requires |base| == 32 && from + steps < 256
    ensures Leads(sha, seed, base, chain, from, steps, x, y)
       <==> y == Chain(WotsScheme(sha, seed, base).th, BASE_KEY, chain, from, steps, x)
  {
    var th := WotsScheme(sha, seed, base).th;
    if Leads(sha, seed, base, chain, from, steps, x, y) {
      var vs :| Ladder(sha, seed, base, chain, from, vs) && |vs| == steps + 1 && vs[0] == x && vs[steps] == y;
      LadderIsRun(sha, seed, base, chain, from, vs);
      ChainRunAt(th, BASE_KEY, chain, from, vs, steps);
    }
    var vs := ChainValues(th, BASE_KEY, chain, from, steps, x);
    ChainValuesRun(th, BASE_KEY, chain, from, steps, x);
    LadderIsRun(sha, seed, base, chain, from, vs);
  }

  /** buildAdrs byte by byte, an absent option being zero. */
  lemma {:induction false} OptionsSpelled(opts: AdrsOptions)
    ensures Spells(WordBytes(OptionWords(opts)), GetOr(opts.layer, 0), GetOr(opts.tree, 0), GetOr(opts.typ, 0),
                   GetOr(opts.keypair, 0), GetOr(opts.chain, 0), GetOr(opts.hash, 0))
  {
    AdrsSpelled(GetOr(opts.layer, 0), GetOr(opts.tree, 0), GetOr(opts.typ, 0), GetOr(opts.keypair, 0),
                GetOr(opts.chain, 0), GetOr(opts.hash, 0));
  }

  // ---- keys, signatures, verdicts -------------------------------------------------------------------------

  /** Field i of 32 bytes. */
  function Field(b: Bytes, i: nat): Bytes {
    Slice(b, 32 * i, 32 * i + 32)
  }

  lemma {:induction false} FieldOfFlat(xs: seq<Bytes>, i: nat)
    requires Sized(xs, 32) && i < |xs|
    ensures Field(Flatten(xs), i) == xs[i]
  {
    FlattenAt(xs, 32, i);
  }

  /**
   The generated key pair: secret i is the hash of master, the letters wots-sk and a four-byte counter
   i; chunk i of the public key is that secret hashed 15 times, at positions 0 to 14 of chain i.
   */
  lemma {:induction false} KeygenSpelled(sha: Hash, master: Bytes, seed: Bytes, adrs: Bytes, i: byte)
    requires |adrs| == 32 && i < 67
    ensures var kp := KeypairOf(sha, master, seed, adrs);
            && kp.seed == seed && kp.adrs == adrs && |kp.secretChains| == 2144 && |kp.publicKey| == 2144
            && Field(kp.secretChains, i) == sha(master + [119, 111, 116, 115, 45, 115, 107] + [0, 0, 0, i])
            && Leads(sha, seed, adrs, i, 0, 15, Field(kp.secretChains, i), Field(kp.publicKey, i))
  {
    KeypairSizes(sha, master, seed, adrs);
    FieldOfFlat(SecretChunks(sha, master), i);
    FieldOfFlat(PublicTops(WotsScheme(sha, seed, adrs), MasterSecrets(sha, master), BASE_KEY), i);
    SmallWord(i);
    LeadsIsChain(sha, seed, adrs, i, 0, 15, SecretChunk(sha, master, i),
                 PublicTops(WotsScheme(sha, seed, adrs), MasterSecrets(sha, master), BASE_KEY)[i]);
  }

  /** A signature: chunk i is secret i hashed as many times as digit i of the message says. */
  lemma {:induction false} SignSpelled(sha: Hash, kp: WotsKeypair, msg: Bytes, i: byte)
    requires |kp.adrs| == 32 && |kp.secretChains| == 2144 && |msg| == 32 && i < 67
    ensures |SignatureOf(sha, kp, msg)| == 2144
    ensures Leads(sha, kp.seed, kp.adrs, i, 0, ChainDigits(msg)[i], Field(kp.secretChains, i),
                  Field(SignatureOf(sha, kp, msg), i))
  {
    var s, stored, ds := WotsScheme(sha, kp.seed, kp.adrs), StoredSecrets(kp.secretChains), ChainDigits(msg);
    WotsSchemeValid(sha, kp.seed, kp.adrs);
    var chunks := SignedChunks(s, stored, BASE_KEY, ds);
    PaddedSizes(sha, kp, ds);
    FlattenLength(Padded(chunks, 32), 32);
    FieldOfFlat(Padded(chunks, 32), i);
    var start := Field(kp.secretChains, i);
    ChainSize(s.th, 32, BASE_KEY, i, 0, ds[i], start);
    LeadsIsChain(sha, kp.seed, kp.adrs, i, 0, ds[i], start, chunks[i]);
  }

  /** The verdict: right sizes, and every chunk leads from its digit to the end of its chain in the public key. */
  lemma {:induction false} VerifySpelled(sha: Hash, seed: Bytes, adrs: Bytes, msg: Bytes, sig: Bytes, pk: Bytes)
    ensures Accepts(sha, seed, adrs, msg, sig, pk)
       <==> && |seed| == 32 && |adrs| == 32 && |msg| == 32 && |sig| == 2144 && |pk| == 2144
            && forall i: byte :: i < 67 ==> ChunkLeads(sha, seed, adrs, msg, sig, pk, i)
  {
    if |seed| == 32 && |adrs| == 32 && |msg| == 32 && |sig| == 2144 && |pk| == 2144 {
      AcceptsByChunk(sha, seed, adrs, msg, sig, pk);
      var tops, want := Recovered(sha, seed, adrs, msg, sig), Chunks(pk, 32, 67);
      forall i: byte | i < 67
        ensures ChunkLeads(sha, seed, adrs, msg, sig, pk, i) <==> tops[i] == want[i]
      {
        ChunkLeadsIs(sha, seed, adrs, msg, sig, pk, i);
      }
    }
  }

  ghost predicate ChunkLeads(sha: Hash, seed: Bytes, adrs: Bytes, msg: Bytes, sig: Bytes, pk: Bytes, i: byte)
    requires |adrs| == 32 && |msg| == 32 && i < 67
  {
    var d := ChainDigits(msg)[i];
    Leads(sha, seed, adrs, i, d, 15 - d, Field(sig, i), Field(pk, i))
  }

  lemma {:induction false} ChunkLeadsIs(sha: Hash, seed: Bytes, adrs: Bytes, msg: Bytes, sig: Bytes, pk: Bytes, i: byte)
    requires SizesOk(seed, adrs, msg, sig, pk) && i < 67
    ensures ChunkLeads(sha, seed, adrs, msg, sig, pk, i)
       <==> Recovered(sha, seed, adrs, msg, sig)[i] == Chunks(pk, 32, 67)[i]
  {
    var d, n: nat := ChainDigits(msg)[i], i;
    var start := Field(sig, i);
    ChunkIsSlice(pk, 32, 67, n, 32 * n, 32 * n + 32);
    LeadsIsChain(sha, seed, adrs, i, d, 15 - d, start, Field(pk, i));
    RecoveredTopAt(sha, seed, adrs, msg, sig, n, d, 15 - d, start,
                   Chain(WotsScheme(sha, seed, adrs).th, BASE_KEY, n, d, 15 - d, start));
  }
}
