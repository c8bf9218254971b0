/** packages/pqc/src/wots-ref.ts: stand-alone WOTS+ over a caller-supplied 32-byte address. */
module WotsRef {
  import opened ByteStrings
  import opened Words
  import opened Bits
  import opened Results
  import opened Tweaks
  import opened Chains
  import opened Schemes
  import opened Digits
  import opened Correctness
  import opened Binding

  // Parameters, written as literals below: n = 32 hash bytes, w = 16 steps per chain, len = 67 chains.
  // TextEncoder().encode('wots-sk')
  const WOTS_SK_TAG: Bytes := [119, 111, 116, 115, 45, 115, 107]

  // ---- specification ----------------------------------------------------------------------------

  const BASE_KEY := Key(0, 0, 0)

  /** The address of a chain step: type, chain and hash position written over a base address. */
  function ChainAdrs(base: Bytes, chain: nat, hash: nat): Bytes {
    Put32(Put32(Put32(base, 16, 0), 24, chain), 28, hash)
  }

  function BaseEnc(base: Bytes): Address -> Bytes {
    (a: Address) => if a.WotsHash? then ChainAdrs(base, a.chain, a.hash) else base
  }

  /** The stand-alone scheme: WOTS+ parameters, no trees. */
  function WotsScheme(sha: Hash, seed: Bytes, base: Bytes): Scheme {
    Scheme(32, 16, 67, 0, 0, 0, 0, Keyed(sha, seed, BaseEnc(base)), ChainDigits)
  }

  lemma {:induction false} WotsSchemeValid(sha: Hash, seed: Bytes, base: Bytes)
    ensures Valid(WotsScheme(sha, seed, base))
  {
    KeyedOutputs(sha, seed, BaseEnc(base));
    var s := WotsScheme(sha, seed, base);
    forall m: Bytes | |m| == s.n
      ensures DigitsOk(s, s.digits(m))
    {
      assert Below(ChainDigits(m), 16);
    }
  }

  function SecretChunk(sha: Hash, master: Bytes, i: nat): Digest {
    sha(master + WOTS_SK_TAG + U32(i))
  }

  function MasterSecrets(sha: Hash, master: Bytes): Secrets {
    Secrets((key: Key, i: nat) => SecretChunk(sha, master, i), (key: Key, i: nat) => Zeros(32))
  }

  /** A key pair's secret chunks, as the signer slices them. */
  function StoredSecrets(chains: Bytes): Secrets {
    Secrets((key: Key, i: nat) => Slice(chains, i * 32, (i + 1) * 32), (key: Key, i: nat) => Zeros(32))
  }

  datatype WotsKeypair = WotsKeypair(seed: Bytes, adrs: Bytes, secretChains: Bytes, publicKey: Bytes)

  function KeypairOf(sha: Hash, master: Bytes, seed: Bytes, adrs: Bytes): WotsKeypair {
    WotsKeypair(seed, adrs,
                Flatten(SecretChunks(sha, master)),
                Flatten(PublicTops(WotsScheme(sha, seed, adrs), MasterSecrets(sha, master), BASE_KEY)))
  }

  /** Chunks laid into zeroed n-byte fields. */
  function Padded(xs: seq<Bytes>, n: nat): (r: seq<Bytes>)
    ensures |r| == |xs|
    ensures Sized(xs, n) ==> r == xs
  {
    seq(|xs|, i requires 0 <= i < |xs| => PadTo(xs[i], n))
  }

  function SignatureOf(sha: Hash, kp: WotsKeypair, msg: Bytes): Bytes
    requires |msg| == 32
  {
    WotsSchemeValid(sha, kp.seed, kp.adrs);
    Flatten(Padded(SignedChunks(WotsScheme(sha, kp.seed, kp.adrs), StoredSecrets(kp.secretChains), BASE_KEY,
                                ChainDigits(msg)), 32))
  }

  predicate SizesOk(seed: Bytes, adrs: Bytes, msg: Bytes, sig: Bytes, pk: Bytes) {
    |seed| == 32 && |adrs| == 32 && |msg| == 32 && |sig| == 2144 && |pk| == 2144
  }

  /** The verification condition: right sizes, and completing every chain gives the public key. */
  predicate Accepts(sha: Hash, seed: Bytes, adrs: Bytes, msg: Bytes, sig: Bytes, pk: Bytes) {
    SizesOk(seed, adrs, msg, sig, pk) &&
    Flatten(Recovered(sha, seed, adrs, msg, sig)) == pk
  }

  function Recovered(sha: Hash, seed: Bytes, adrs: Bytes, msg: Bytes, sig: Bytes): (tops: seq<Bytes>)
    requires |msg| == 32
    ensures |tops| == 67
  {
    WotsSchemeValid(sha, seed, adrs);
    RecoveredTops(WotsScheme(sha, seed, adrs), BASE_KEY, ChainDigits(msg), Chunks(sig, 32, 67))
  }

  /** The hash calls of a complete verification. */
  function VerifyLog(sha: Hash, seed: Bytes, adrs: Bytes, msg: Bytes, sig: Bytes): seq<Sent>
    requires |msg| == 32
  {
    WotsSchemeValid(sha, seed, adrs);
    Encoded(BaseEnc(adrs),
            RecoveredCalls(WotsScheme(sha, seed, adrs), BASE_KEY, ChainDigits(msg), Chunks(sig, 32, 67), 67))
  }

  // ---- the code -----------------------------------------------------------------------------------

  method MsgToChains(msg: Bytes) returns (r: Result<seq<nat>>)
    ensures |msg| != 32 ==> r.Err?
    ensures |msg| == 32 ==> r == Ok(ChainDigits(msg))
  {
    if |msg| != 32 {
      return Err("msg must be 32 bytes");
    }
    var out: seq<nat> := [];
    for i := 0 to 32
      invariant |out| == 2 * i
      invariant forall k :: 0 <= k < 2 * i ==> out[k] == Nibbles(msg)[k]
    {
      var b := msg[i];
      out := out + [b / 16 % 16];
      out := out + [b % 16];
    }
    assert out == Nibbles(msg);
    var csum := 0;
    for k := 0 to 64
      invariant csum == Deficit(out[..k])
    {
      assert out[..k + 1][..k] == out[..k];
      csum := csum + (15 - out[k]);
    }
    assert out[..64] == Nibbles(msg);
    DeficitBound(out);
    ghost var c := csum;
    csum := csum * 16;
    var hi := csum / 256 % 256;
    var lo := csum % 256;
    out := out + [hi / 16 % 16];
    out := out + [hi % 16];
    out := out + [lo / 16 % 16];
    ShiftedChecksum(c);
    assert out == Nibbles(msg) + ThreeDigits(c);
    r := Ok(out);
  }

  datatype AdrsOptions = AdrsOptions(layer: Option<nat>, tree: Option<nat>, typ: Option<nat>, keypair: Option<nat>,
                                     chain: Option<nat>, hash: Option<nat>)

  /** An absent option leaves zeros. */
  function OptionWords(opts: AdrsOptions): (ws: seq<nat>)
    ensures |ws| == 8
  {
    AdrsWords(GetOr(opts.layer, 0), GetOr(opts.tree, 0), GetOr(opts.typ, 0), GetOr(opts.keypair, 0),
              GetOr(opts.chain, 0), GetOr(opts.hash, 0))
  }

  method BuildAdrs(opts: AdrsOptions) returns (a: array<byte>)
    ensures fresh(a) && a[..] == WordBytes(OptionWords(opts))
  {
    a := ZeroBuffer(32);
    ZeroWords(8);
    ghost var ws: seq<nat> := seq(8, _ => 0);
    ws := WriteOption(a, ws, 0, opts.layer);
    ws := WriteTree(a, ws, opts.tree);
    ws := WriteOption(a, ws, 4, opts.typ);
    ws := WriteOption(a, ws, 5, opts.keypair);
    ws := WriteOption(a, ws, 6, opts.chain);
    ws := WriteOption(a, ws, 7, opts.hash);
    assert ws == OptionWords(opts);
  }

  /** The two halves of the tree option, the high one first. */
  method WriteTree(buf: array<byte>, ghost ws: seq<nat>, tree: Option<nat>) returns (ghost ws': seq<nat>)
    requires 3 < |ws| && ws[2] == 0 && ws[3] == 0 && buf[..] == WordBytes(ws)
    modifies buf
    ensures ws' == ws[2 := HighWord(GetOr(tree, 0))][3 := LowWord(GetOr(tree, 0))] && buf[..] == WordBytes(ws')
  {
    if tree.Some? {
      var lo := LowWord(tree.value);
      var hi := HighWord(tree.value);
      ws' := WriteWord(buf, ws, 2, hi);
      ws' := WriteWord(buf, ws', 3, lo);
    } else {
      ws' := ws;
      assert ws == ws[2 := 0][3 := 0];
    }
  }

  /** One option at word k of a buffer that still holds zero there. */
  method WriteOption(buf: array<byte>, ghost ws: seq<nat>, k: nat, v: Option<nat>) returns (ghost ws': seq<nat>)
    requires k < |ws| && ws[k] == 0 && buf[..] == WordBytes(ws)
    modifies buf
    ensures ws' == ws[k := GetOr(v, 0)] && buf[..] == WordBytes(ws')
  {
    ws' := ws[k := GetOr(v, 0)];
    if v.Some? {
      ws' := WriteWord(buf, ws, k, v.value);
    } else {
      assert ws' == ws;
    }
  }

  /** Only the last word differs. */
  ghost predicate SameButLast(b: Bytes, fixed: Bytes) {
    |b| == |fixed| && forall k :: 0 <= k < |b| && !(28 <= k < 32) ==> b[k] == fixed[k]
  }

  lemma {:induction false} LastWord(b: Bytes, fixed: Bytes, hash: nat)
    requires SameButLast(b, fixed)
    ensures Put32(b, 28, hash) == Put32(fixed, 28, hash) && SameButLast(Put32(b, 28, hash), fixed)
  {
  }

  method ChainStep(sha: Hash, seed: Bytes, baseAdrs: Bytes, chainIdx: nat, start: nat, steps: nat, value: Bytes)
    returns (v: Bytes, ghost log: seq<Sent>)
    ensures v == Chain(Keyed(sha, seed, BaseEnc(baseAdrs)), BASE_KEY, chainIdx, start, steps, value)
    ensures log == Encoded(BaseEnc(baseAdrs),
                           ChainCalls(Keyed(sha, seed, BaseEnc(baseAdrs)), BASE_KEY, chainIdx, start, steps, value))
  {
    ghost var enc := BaseEnc(baseAdrs);
    ghost var th := Keyed(sha, seed, enc);
    var adrs := NewBuffer(baseAdrs);
    WriteU32BE(adrs, 16, 0);
    WriteU32BE(adrs, 24, chainIdx);
    ghost var fixed := Put32(Put32(baseAdrs, 16, 0), 24, chainIdx);
    v, log := value, [];
    for j := 0 to steps
      invariant SameButLast(adrs[..], fixed)
      invariant Walked(th, enc, BASE_KEY, chainIdx, start, j, value, v, log)
    {
      var hash := start + j;
      LastWord(adrs[..], fixed, hash);
      WriteU32BE(adrs, 28, hash);
      ghost var below := v;
      v := sha(seed + adrs[..] + v);
      ChainStepped(th, enc, BASE_KEY, chainIdx, start, j, hash, value, below, log, v, log + [Sent(adrs[..], below)]);
      log := log + [Sent(adrs[..], below)];
    }
  }

  function SecretChunks(sha: Hash, master: Bytes): (r: seq<Bytes>)
    ensures |r| == 67 && Sized(r, 32)
  {
    seq(67, i requires 0 <= i < 67 => SecretChunk(sha, master, i))
  }

  lemma {:induction false} KeypairSizes(sha: Hash, master: Bytes, seed: Bytes, adrs: Bytes)
    ensures |Flatten(SecretChunks(sha, master))| == 2144
    ensures Sized(PublicTops(WotsScheme(sha, seed, adrs), MasterSecrets(sha, master), BASE_KEY), 32)
    ensures |Flatten(PublicTops(WotsScheme(sha, seed, adrs), MasterSecrets(sha, master), BASE_KEY))| == 2144
  {
    FlattenLength(SecretChunks(sha, master), 32);
    var s, secrets := WotsScheme(sha, seed, adrs), MasterSecrets(sha, master);
    WotsSchemeValid(sha, seed, adrs);
    TopsSizedPublic(s, secrets, BASE_KEY);
    FlattenLength(PublicTops(s, secrets, BASE_KEY), 32);
  }

  lemma {:induction false} PublicTopAt(sha: Hash, master: Bytes, seed: Bytes, adrs: Bytes, i: nat, top: Bytes)
    requires i < 67
    requires top == Chain(WotsScheme(sha, seed, adrs).th, BASE_KEY, i, 0, 15, SecretChunk(sha, master, i))
    ensures |top| == 32 && top == PublicTops(WotsScheme(sha, seed, adrs), MasterSecrets(sha, master), BASE_KEY)[i]
  {
    KeyedOutputs(sha, seed, BaseEnc(adrs));
    ChainSize(WotsScheme(sha, seed, adrs).th, 32, BASE_KEY, i, 0, 15, SecretChunk(sha, master, i));
  }

  /** One round of key generation: the secret start of chain i and the top reached from it. */
  method KeygenChain(sha: Hash, master: Bytes, seed: Bytes, adrs: Bytes, i: nat)
    returns (sk_i: Digest, top_i: Bytes, ghost calls: seq<Sent>)
    requires i < 67
    ensures sk_i == SecretChunk(sha, master, i)
    ensures |top_i| == 32 && top_i == PublicTops(WotsScheme(sha, seed, adrs), MasterSecrets(sha, master), BASE_KEY)[i]
    ensures calls == Encoded(BaseEnc(adrs), ChainCalls(WotsScheme(sha, seed, adrs).th, BASE_KEY, i, 0, 15, sk_i))
  {
    var counter := CounterBytes(i);
    sk_i := sha(master + WOTS_SK_TAG + counter);
    top_i, calls := ChainStep(sha, seed, adrs, i, 0, 15, sk_i);
    PublicTopAt(sha, master, seed, adrs, i, top_i);
  }

  method WotsKeygen(sha: Hash, master: Bytes, seed: Bytes, adrs: Bytes)
    returns (r: Result<WotsKeypair>, ghost log: seq<Sent>)
    ensures r.Err? <==> |master| != 32 || |seed| != 32 || |adrs| != 32
    ensures r.Ok? ==> r.value == KeypairOf(sha, master, seed, adrs)
    ensures r.Ok?
            ==> log == Encoded(BaseEnc(adrs),
                               PublicCalls(WotsScheme(sha, seed, adrs), MasterSecrets(sha, master), BASE_KEY, 67))
  {
    log := [];
    if |master| != 32 {
      return Err("master must be 32 bytes"), log;
    }
    if |seed| != 32 {
      return Err("seed must be 32 bytes"), log;
    }
    if |adrs| != 32 {
      return Err("adrs must be 32 bytes"), log;
    }
    ghost var s, secrets := WotsScheme(sha, seed, adrs), MasterSecrets(sha, master);
    ghost var chunks := SecretChunks(sha, master);
    ghost var tops := PublicTops(s, secrets, BASE_KEY);
    KeypairSizes(sha, master, seed, adrs);
    var sk := ZeroBuffer(2144);
    var pk := ZeroBuffer(2144);
    FilledToStart(2144, chunks);
    FilledToStart(2144, tops);
    for i := 0 to 67
      invariant FilledTo(sk[..], 2144, chunks, i) && FilledTo(pk[..], 2144, tops, i)
      invariant log == Encoded(BaseEnc(adrs), PublicCalls(s, secrets, BASE_KEY, i))
    {
      var sk_i, top_i, calls := KeygenChain(sha, master, seed, adrs, i);
      SetField(sk, i, 32, sk_i, chunks);
      SetField(pk, i, 32, top_i, tops);
      PublicLogStep(s, BaseEnc(adrs), secrets, BASE_KEY, i, log, calls);
      log := log + calls;
    }
    FilledToEnd(sk[..], 2144, chunks, 32);
    FilledToEnd(pk[..], 2144, tops, 32);
    r := Ok(WotsKeypair(seed, adrs, sk[..], pk[..]));
  }

  lemma {:induction false} SignedChunkAt(sha: Hash, kp: WotsKeypair, ds: seq<nat>, i: nat, start: Bytes, v: Bytes)
    requires DigitsOk(WotsScheme(sha, kp.seed, kp.adrs), ds) && i < 67
    requires start == Slice(kp.secretChains, i * 32, (i + 1) * 32)
    requires v == Chain(WotsScheme(sha, kp.seed, kp.adrs).th, BASE_KEY, i, 0, ds[i], start)
    ensures start == StoredSecrets(kp.secretChains).wots(BASE_KEY, i) && |v| <= 32
    ensures v == SignedChunks(WotsScheme(sha, kp.seed, kp.adrs), StoredSecrets(kp.secretChains), BASE_KEY, ds)[i]
  {
    FieldInside(i, 32, 67);
    KeyedOutputs(sha, kp.seed, BaseEnc(kp.adrs));
    ChainAtMost(WotsScheme(sha, kp.seed, kp.adrs).th, 32, BASE_KEY, i, 0, ds[i], start);
  }

  lemma {:induction false} ChainAtMost(th: Tweak, n: nat, key: Key, c: nat, start: nat, steps: nat, value: Bytes)
    requires Outputs(th, n) && |value| <= n
    ensures |Chain(th, key, c, start, steps, value)| <= n
  {
  }

  lemma {:induction false} PaddedSizes(sha: Hash, kp: WotsKeypair, ds: seq<nat>)
    requires DigitsOk(WotsScheme(sha, kp.seed, kp.adrs), ds)
    ensures Sized(Padded(SignedChunks(WotsScheme(sha, kp.seed, kp.adrs), StoredSecrets(kp.secretChains), BASE_KEY, ds),
                         32), 32)
  {
    var s, secrets := WotsScheme(sha, kp.seed, kp.adrs), StoredSecrets(kp.secretChains);
    forall i | 0 <= i < 67
      ensures |Padded(SignedChunks(s, secrets, BASE_KEY, ds), 32)[i]| == 32
    {
      var start := Slice(kp.secretChains, i * 32, (i + 1) * 32);
      SignedChunkAt(sha, kp, ds, i, start, Chain(s.th, BASE_KEY, i, 0, ds[i], start));
    }
  }

  method WotsSign(sha: Hash, kp: WotsKeypair, msgDigest: Bytes) returns (r: Result<Bytes>, ghost log: seq<Sent>)
    ensures r.Err? <==> |msgDigest| != 32
    ensures r.Ok? ==> r.value == SignatureOf(sha, kp, msgDigest)
    ensures r.Ok? ==> DigitsOk(WotsScheme(sha, kp.seed, kp.adrs), ChainDigits(msgDigest))
    ensures r.Ok?
            ==> log == Encoded(BaseEnc(kp.adrs),
                               SignedCalls(WotsScheme(sha, kp.seed, kp.adrs), StoredSecrets(kp.secretChains), BASE_KEY,
                                           ChainDigits(msgDigest), 67))
  {
    log := [];
    if |msgDigest| != 32 {
      return Err("msgDigest must be 32 bytes"), log;
    }
    var decoded := MsgToChains(msgDigest);
    var chains := decoded.value;
    ghost var s, enc, secrets := WotsScheme(sha, kp.seed, kp.adrs), BaseEnc(kp.adrs), StoredSecrets(kp.secretChains);
    WotsSchemeValid(sha, kp.seed, kp.adrs);
    ghost var chunks := Padded(SignedChunks(s, secrets, BASE_KEY, chains), 32);
    var sig := ZeroBuffer(2144);
    PaddedSizes(sha, kp, chains);
    FilledToStart(2144, chunks);
    for i := 0 to 67
      invariant FilledTo(sig[..], 2144, chunks, i)
      invariant log == Encoded(enc, SignedCalls(s, secrets, BASE_KEY, chains, i))
    {
      var sk_i := Slice(kp.secretChains, i * 32, (i + 1) * 32);
      var v, calls := ChainStep(sha, kp.seed, kp.adrs, i, 0, chains[i], sk_i);
      SignedChunkAt(sha, kp, chains, i, sk_i, v);
      SignedLogStep(s, enc, secrets, BASE_KEY, chains, i, log, calls);
      log := log + calls;
      SetField(sig, i, 32, v, chunks);
    }
    FilledToEnd(sig[..], 2144, chunks, 32);
    r := Ok(sig[..]);
  }

  lemma {:induction false} RecoveredTopAt(sha: Hash, seed: Bytes, adrs: Bytes, msg: Bytes, sig: Bytes, i: nat, at: nat,
                                          steps: nat, start: Bytes, v: Bytes)
    requires |msg| == 32 && |sig| == 2144 && i < 67
    requires start == Slice(sig, i * 32, (i + 1) * 32)
    requires at == ChainDigits(msg)[i] && steps == 15 - at
    requires v == Chain(WotsScheme(sha, seed, adrs).th, BASE_KEY, i, at, steps, start)
    ensures start == Chunks(sig, 32, 67)[i]
    ensures |v| == 32 && v == Recovered(sha, seed, adrs, msg, sig)[i]
  {
    ChunkAt(sig, 32, 67, i);
    KeyedOutputs(sha, seed, BaseEnc(adrs));
    ChainSize(WotsScheme(sha, seed, adrs).th, 32, BASE_KEY, i, at, steps, start);
  }

  lemma {:induction false} AcceptsByChunk(sha: Hash, seed: Bytes, adrs: Bytes, msg: Bytes, sig: Bytes, pk: Bytes)
    requires SizesOk(seed, adrs, msg, sig, pk)
    ensures Accepts(sha, seed, adrs, msg, sig, pk) <==> Recovered(sha, seed, adrs, msg, sig) == Chunks(pk, 32, 67)
  {
    WotsSchemeValid(sha, seed, adrs);
    ChunksSized(sig, 32, 67);
    TopsSized(WotsScheme(sha, seed, adrs), BASE_KEY, ChainDigits(msg), Chunks(sig, 32, 67));
    ChunksOfFlatten(Recovered(sha, seed, adrs, msg, sig), 32);
    FlattenOfChunks(pk, 32, 67);
  }

  /** After i rounds of verification: the chains so far agree with the public key, and these calls were made. */
  ghost predicate VerifiedTo(sha: Hash, seed: Bytes, adrs: Bytes, msg: Bytes, sig: Bytes, pk: Bytes, i: nat,
                             log: seq<Sent>)
    requires SizesOk(seed, adrs, msg, sig, pk) && i <= 67
  {
    WotsSchemeValid(sha, seed, adrs);
    && (forall k :: 0 <= k < i ==> Recovered(sha, seed, adrs, msg, sig)[k] == Chunks(pk, 32, 67)[k])
    && log == Encoded(BaseEnc(adrs),
                      RecoveredCalls(WotsScheme(sha, seed, adrs), BASE_KEY, ChainDigits(msg), Chunks(sig, 32, 67), i))
  }

  lemma {:induction false} VerifiedMore(sha: Hash, seed: Bytes, adrs: Bytes, msg: Bytes, sig: Bytes, pk: Bytes, i: nat,
                                        log: seq<Sent>, start: nat, steps: nat, calls: seq<Sent>)
    requires SizesOk(seed, adrs, msg, sig, pk) && i < 67 && VerifiedTo(sha, seed, adrs, msg, sig, pk, i, log)
    requires start == ChainDigits(msg)[i] && steps == 15 - start
    requires Recovered(sha, seed, adrs, msg, sig)[i] == Chunks(pk, 32, 67)[i]
    requires calls
             == Encoded(BaseEnc(adrs),
                        ChainCalls(WotsScheme(sha, seed, adrs).th, BASE_KEY, i, start, steps, Chunks(sig, 32, 67)[i]))
    ensures VerifiedTo(sha, seed, adrs, msg, sig, pk, i + 1, log + calls)
  {
    WotsSchemeValid(sha, seed, adrs);
    RecoveredLogStep(WotsScheme(sha, seed, adrs), BaseEnc(adrs), BASE_KEY, ChainDigits(msg), Chunks(sig, 32, 67), i,
                     log, start, steps, calls);
  }

  lemma {:induction false} VerifiedAll(sha: Hash, seed: Bytes, adrs: Bytes, msg: Bytes, sig: Bytes, pk: Bytes,
                                       log: seq<Sent>)
    requires SizesOk(seed, adrs, msg, sig, pk) && VerifiedTo(sha, seed, adrs, msg, sig, pk, 67, log)
    ensures Accepts(sha, seed, adrs, msg, sig, pk) && log == VerifyLog(sha, seed, adrs, msg, sig)
  {
    AcceptsByChunk(sha, seed, adrs, msg, sig, pk);
  }

  /** One round of verification: chain i completed and compared with its public key chunk. */
  method VerifyChain(sha: Hash, seed: Bytes, adrs: Bytes, msg: Bytes, sig: Bytes, pk: Bytes, i: nat, start: nat,
                     steps: nat, ghost log: seq<Sent>)
    returns (same: bool, ghost log': seq<Sent>)
    requires SizesOk(seed, adrs, msg, sig, pk) && i < 67 && start == ChainDigits(msg)[i] && steps == 15 - start
    requires VerifiedTo(sha, seed, adrs, msg, sig, pk, i, log)
    ensures same ==> VerifiedTo(sha, seed, adrs, msg, sig, pk, i + 1, log')
    ensures !same ==> !Accepts(sha, seed, adrs, msg, sig, pk)
  {
    var sig_i := Slice(sig, i * 32, (i + 1) * 32);
    var derived;
    ghost var calls;
    derived, calls := ChainStep(sha, seed, adrs, i, start, steps, sig_i);
    RecoveredTopAt(sha, seed, adrs, msg, sig, i, start, steps, sig_i, derived);
    var pk_i := Slice(pk, i * 32, (i + 1) * 32);
    ChunkAt(pk, 32, 67, i);
    AcceptsByChunk(sha, seed, adrs, msg, sig, pk);
    same := SameBytes(derived, pk_i);
    log' := log + calls;
    if same {
      VerifiedMore(sha, seed, adrs, msg, sig, pk, i, log, start, steps, calls);
    }
  }

  method WotsVerify(sha: Hash, seed: Bytes, adrs: Bytes, msgDigest: Bytes, signature: Bytes, pk: Bytes)
    returns (ok: bool, ghost log: seq<Sent>)
    ensures ok <==> Accepts(sha, seed, adrs, msgDigest, signature, pk)
    ensures ok ==> log == VerifyLog(sha, seed, adrs, msgDigest, signature)
  {
    log := [];
    if |seed| != 32 { return false, log; }
    if |adrs| != 32 { return false, log; }
    if |msgDigest| != 32 { return false, log; }
    if |signature| != 2144 { return false, log; }
    if |pk| != 2144 { return false, log; }

    var decoded := MsgToChains(msgDigest);
    var chains := decoded.value;
    for i := 0 to 67
      invariant VerifiedTo(sha, seed, adrs, msgDigest, signature, pk, i, log)
    {
      var start := chains[i];
      var steps := 15 - start;
      var same;
      same, log := VerifyChain(sha, seed, adrs, msgDigest, signature, pk, i, start, steps, log);
      if !same {
        return false, log;
      }
    }
    VerifiedAll(sha, seed, adrs, msgDigest, signature, pk, log);
    ok := true;
  }

  // ---- what the module promises -----------------------------------------------------------------------

  /** The stored chunks are the derived ones. */
  lemma {:induction false} StoredAreDerived(sha: Hash, master: Bytes, i: nat)
    requires i < 67
    ensures StoredSecrets(Flatten(SecretChunks(sha, master))).wots(BASE_KEY, i) == SecretChunk(sha, master, i)
  {
    FlattenAt(SecretChunks(sha, master), 32, i);
  }

  lemma {:induction false} SignedEitherWay(sha: Hash, master: Bytes, seed: Bytes, adrs: Bytes, ds: seq<nat>)
    requires DigitsOk(WotsScheme(sha, seed, adrs), ds)
    ensures SignedChunks(WotsScheme(sha, seed, adrs), StoredSecrets(Flatten(SecretChunks(sha, master))), BASE_KEY, ds)
         == SignedChunks(WotsScheme(sha, seed, adrs), MasterSecrets(sha, master), BASE_KEY, ds)
  {
    var s, stored := WotsScheme(sha, seed, adrs), StoredSecrets(Flatten(SecretChunks(sha, master)));
    forall i | 0 <= i < 67
      ensures SignedChunks(s, stored, BASE_KEY, ds)[i] == SignedChunks(s, MasterSecrets(sha, master), BASE_KEY, ds)[i]
    {
      StoredAreDerived(sha, master, i);
    }
  }

  /** Verification accepts what signing makes under a generated key pair, for every master, seed, address and digest. */
  lemma {:induction false} VerifyAcceptsSign(sha: Hash, master: Bytes, seed: Bytes, adrs: Bytes, msg: Bytes)
    requires |seed| == 32 && |adrs| == 32 && |msg| == 32
    ensures Accepts(sha, seed, adrs, msg, SignatureOf(sha, KeypairOf(sha, master, seed, adrs), msg),
                    KeypairOf(sha, master, seed, adrs).publicKey)
  {
    var s, secrets, ds := WotsScheme(sha, seed, adrs), MasterSecrets(sha, master), ChainDigits(msg);
    var chunks := SignedChunks(s, secrets, BASE_KEY, ds);
    WotsSchemeValid(sha, seed, adrs);
    KeypairSizes(sha, master, seed, adrs);
    SignedEitherWay(sha, master, seed, adrs, ds);
    SignedSized(s, secrets, BASE_KEY, ds);
    FlattenLength(chunks, 32);
    ChunksOfFlatten(chunks, 32);
    TopsRecovered(s, secrets, BASE_KEY, ds);
  }

  /** Two chunk lists that fill their fields agree only if they are equal. */
  lemma {:induction false} SizedChunksAgree(s: Scheme, ds: seq<nat>, c1: seq<Bytes>, c2: seq<Bytes>)
    requires |ds| == |c1| == |c2| == s.len && Sized(c1, s.n) && Sized(c2, s.n) && WotsAgrees(s, ds, c1, c2)
    ensures c1 == c2
  {
    forall i | 0 <= i < s.len
      ensures c1[i] == c2[i]
    {
      assert ChunkAgrees(s, ds[i], c1[i], c2[i]);
    }
  }

  /**
   One message, two accepted signatures: they are equal, or at some chain position, under one
   address, the two verifications hand SHA-256 different inputs with one digest.
   */
  lemma {:induction false} AcceptedSignaturesAgree(sha: Hash, seed: Bytes, adrs: Bytes, msg: Bytes, sig1: Bytes,
                                                   sig2: Bytes, pk: Bytes)
    requires Accepts(sha, seed, adrs, msg, sig1, pk) && Accepts(sha, seed, adrs, msg, sig2, pk)
    ensures sig1 == sig2
            || ShaCollision(sha, seed, 32, VerifyLog(sha, seed, adrs, msg, sig1), VerifyLog(sha, seed, adrs, msg, sig2))
  {
    var s, enc := WotsScheme(sha, seed, adrs), BaseEnc(adrs);
    var c1, c2 := Chunks(sig1, 32, 67), Chunks(sig2, 32, 67);
    WotsSchemeValid(sha, seed, adrs);
    AcceptsByChunk(sha, seed, adrs, msg, sig1, pk);
    AcceptsByChunk(sha, seed, adrs, msg, sig2, pk);
    TopsBinding(s, BASE_KEY, ChainDigits(msg), c1, c2);
    if WotsAgrees(s, ChainDigits(msg), c1, c2) {
      ChunksSized(sig1, 32, 67);
      ChunksSized(sig2, 32, 67);
      SizedChunksAgree(s, ChainDigits(msg), c1, c2);
      FlattenOfChunks(sig1, 32, 67);
      FlattenOfChunks(sig2, 32, 67);
    } else {
      KeyedHashes(sha, seed, enc);
      CollisionIsSha(s.th, sha, seed, 32, enc, RecoveredCalls(s, BASE_KEY, ChainDigits(msg), c1, 67),
                     RecoveredCalls(s, BASE_KEY, ChainDigits(msg), c2, 67));
    }
  }

  /**
   Two messages accepted under one public key: hashing a chunk of each signature forward gives a
   chunk of the other, or the runs collide. Without both there is no second accepted message.
   */
  lemma {:induction false} TwoMessagesGiveAway(sha: Hash, seed: Bytes, adrs: Bytes, msg1: Bytes, sig1: Bytes,
                                               msg2: Bytes, sig2: Bytes, pk: Bytes)
    requires Accepts(sha, seed, adrs, msg1, sig1, pk) && Accepts(sha, seed, adrs, msg2, sig2, pk) && msg1 != msg2
    ensures DigitsOk(WotsScheme(sha, seed, adrs), ChainDigits(msg1))
    ensures DigitsOk(WotsScheme(sha, seed, adrs), ChainDigits(msg2))
    ensures KeyReuse(WotsScheme(sha, seed, adrs), BASE_KEY, msg1, Chunks(sig1, 32, 67), msg2, Chunks(sig2, 32, 67))
            || ShaCollision(sha, seed, 32, VerifyLog(sha, seed, adrs, msg1, sig1),
                            VerifyLog(sha, seed, adrs, msg2, sig2))
  {
    var s, enc := WotsScheme(sha, seed, adrs), BaseEnc(adrs);
    var c1, c2 := Chunks(sig1, 32, 67), Chunks(sig2, 32, 67);
    WotsSchemeValid(sha, seed, adrs);
    ChecksumDominates(s);
    AcceptsByChunk(sha, seed, adrs, msg1, sig1, pk);
    AcceptsByChunk(sha, seed, adrs, msg2, sig2, pk);
    WotsBinding(s, BASE_KEY, msg1, c1, msg2, c2);
    if !KeyReuse(s, BASE_KEY, msg1, c1, msg2, c2) {
      KeyedHashes(sha, seed, enc);
      CollisionIsSha(s.th, sha, seed, 32, enc, RecoveredCalls(s, BASE_KEY, ChainDigits(msg1), c1, 67),
                     RecoveredCalls(s, BASE_KEY, ChainDigits(msg2), c2, 67));
    }
  }
}
