# Hash-based signatures and the event poller

A Dafny model of three TypeScript reference modules of `packages/pqc` and of the polling loop of
`packages/indexer`, with proofs of what they promise.

* `wots-ref.ts`: stand-alone WOTS+ (32-byte hashes, 67 chains).
* `slh-dsa-ref.ts` (LITE): a complete signer and verifier made of WOTS+ chains, XMSS trees, a two-layer hypertree, a
  FORS forest and a 5056-byte wire format.
* `slh-dsa-128s-ref.ts`: the verifier of SLH-DSA-SHA2-128s (FIPS 205).
* `index.ts` of the indexer: the cursor store and the polling loop.

## How it is built

SHA-256 is a parameter of every operation: any function from byte strings to 32-byte strings. Nothing is assumed about
it. Where a statement would need collision resistance it says instead that two runs of the modelled code, each at a call
under the same address, hand SHA-256 two different inputs with one digest (`Tweaks.ShaCollision`).

`Tweaks`, `Chains`, `Merkle` and `Schemes` define the construction once, for any sizes, over addresses that are data
values (`WotsHash(key, chain, position)`, `TreeNode(layer, tree, height, index)`, ...). Each value is defined together
with the sequence of hash calls that computes it. `Correctness`, `Binding`, `Naming` and `Distinctness` prove the laws at
that level, by induction over chain position, tree height, layer and forest tree. `LiteSpec` and `FipsSpec` fix the
parameters, the byte encodings of addresses and the digest splitting of the two modules.

What these definitions mean is said a second time, without them. `Runs` describes verifying and signing as relations:
lists of values in which each step is one hash call under a written-out address; the definitions have exactly the
outcomes of such runs. `WotsReadings`, `LiteReadings` and `FipsReadings` go down to bits and bytes: where tree, leaf and
indices stand in a digest, what every byte range of an address, a secret's hash input, a signature and a wire string
holds, and which signatures are accepted.

The code itself is imperative, and so is its model: address buffers edited word by word (`Words.WriteWord`), output
buffers filled chunk by chunk (`ByteStrings.SetField`), node lists halved level by level, an `Adrs` object whose fields
the 128s functions rewrite, a store object whose map is updated. Methods that hash under an address return, next to
their value, a ghost log of the address bytes and messages hashed; their contracts equate value and log with the
definitions, so a method that wrote a wrong height, index or chain number into an address would not meet its contract.

| modules | what they hold |
|---|---|
| `ByteStrings`, `Words`, `Bits`, `Digits`, `Results` | big-endian numbers, chunks, buffers, shifts, digits and checksum |
| `Tweaks`, `Chains`, `Merkle`, `Schemes`, `Walks`, `Layout` | the construction, its call traces, the states of its loops, its byte layout |
| `Correctness`, `Binding`, `Naming`, `Distinctness` | laws for all sizes, keys and messages |
| `Runs` | verifying and signing as relations between hash calls |
| `WotsRef`, `WotsReadings` | `wots-ref.ts` |
| `LiteSpec`, `LiteLevels`, `LiteTrees`, `LiteHypertree`, `LiteFors`, `LiteWire`, `Lite`, `LiteTheorems`, `LiteReadings` | `slh-dsa-ref.ts` |
| `FipsSpec`, `FipsHash`, `FipsTrees`, `FipsFors`, `Fips`, `FipsTheorems`, `FipsReadings` | `slh-dsa-128s-ref.ts` |
| `Poller` | `index.ts` |

## Where comments and code differ

* `splitDigest` of LITE describes the FORS indices as the high a * k bits of the digest. The code takes the low twelve
  bits of the first two bytes, so the top four bits of a digest are never used. The model follows the code.
  `Lite.HighBitsReading` says exactly when the two readings agree (all four nibbles of the first two bytes equal),
  `Lite.HighBitsReadingFails` names digests on which they do not, `Lite.SplitDetermines` says exactly which bits count.
* The same comment speaks of eight bytes of tree and leaf addressing; the code reads one.
* `compressAdrs` is documented as holding the tree height at offset 10 for addresses that are not of WOTS+; the code
  always writes the key pair there and the height at offset 14. The model follows the code.
* `verify` of LITE returns a boolean, but throws a TypeError when a signature has fewer than two layers; the model's
  result is then an error.
* `verify` of LITE checks no sizes, unlike `wotsVerify` and the 128s `verify`. It reads 512 FORS bytes and 2144 and 128
  bytes of each of two layers and ignores whatever follows, further layers included; a short WOTS+ chunk at the top of
  its chain reads as filled up with zeros. So `LiteTheorems.AcceptedSignaturesAgree` speaks of signatures verify cannot
  tell apart; `LiteTheorems.LongSignaturesAgree` and `LiteTheorems.SizedIsEqual` say when those are equal, and
  `LiteTheorems.UncheckedSizes` and `LiteTheorems.OversizeAccepted` give accepted signatures that differ.

## Model

| member | source | states |
|---|---|---|
| `WotsRef.MsgToChains` | packages/pqc/src/wots-ref.ts:75-93 | 64 nibbles and three checksum digits for 32 bytes, an error for any other length |
| `Digits.ChainDigitsExact` | packages/pqc/src/wots-ref.ts:75-93 | the nibbles spell the message; the last three digits spell the sum of 15 minus each nibble, at most 30 per byte (960 for 32 bytes), so nothing is lost |
| `Digits.ChecksumSpelled` | packages/pqc/src/wots-ref.ts:82-92 | 256, 16 and 1 times the three checksum digits plus all message digits make 15 per message digit |
| `Digits.ChecksumDomination` | packages/pqc/src/wots-ref.ts:75-93 | of two different messages neither has all its chain digits at or above the other's |
| `Chains.ChainCompose` | packages/pqc/src/wots-ref.ts:96-113 | walking p steps and then q more along a chain is walking p + q |
| `Chains.ChainBinding` | packages/pqc/src/wots-ref.ts:96-113 | chains that meet started equal, or two of their calls collide |
| `WotsRef.ChainStep` | packages/pqc/src/wots-ref.ts:96-113 | the loop over a copied address buffer computes the chain, each call under type 0, its chain and its position |
| `WotsRef.WotsKeygen` | packages/pqc/src/wots-ref.ts:126-146 | errors exactly for wrong sizes; otherwise derived secrets and the chain tops over them |
| `WotsReadings.KeygenSpelled` | packages/pqc/src/wots-ref.ts:126-146 | secret i is SHA-256 of master, the letters wots-sk and the bytes 0 0 0 i; public chunk i is that hashed 15 times under the literal address bytes of chain i at positions 0 to 14 |
| `WotsRef.WotsSign` | packages/pqc/src/wots-ref.ts:149-159 | an error exactly for a digest of another size; otherwise every chunk at its digit, for any key pair, those assembled by hand included |
| `WotsReadings.SignSpelled` | packages/pqc/src/wots-ref.ts:149-159 | chunk i is stored secret i hashed as often as digit i says, each time under the literal address bytes |
| `WotsRef.WotsVerify` | packages/pqc/src/wots-ref.ts:162-187 | true exactly when all sizes are right and completing every chain gives the public key |
| `WotsReadings.VerifySpelled` | packages/pqc/src/wots-ref.ts:162-187 | accepted if and only if the sizes are right and every chunk, hashed from its digit to position 15 under literal address bytes, is the chunk of the public key |
| `WotsRef.VerifyAcceptsSign` | packages/pqc/src/wots-ref.ts:126-187 | for every master, seed, address and digest verification accepts the signature under the generated key |
| `WotsRef.AcceptedSignaturesAgree` | packages/pqc/src/wots-ref.ts:162-187 | two accepted signatures of one digest are equal, or at one chain position, under one address, the two verifications collide in SHA-256 |
| `WotsRef.TwoMessagesGiveAway` | packages/pqc/src/wots-ref.ts:162-187 | two accepted messages under one key: each signature hashed forward gives a chunk of the other, or the verifications collide at one chain position |
| `WotsRef.BuildAdrs` | packages/pqc/src/wots-ref.ts:36-57 | eight big-endian words: layer, tree in two halves, type, key pair, chain and hash where given, zeros elsewhere |
| `WotsReadings.OptionsSpelled` | packages/pqc/src/wots-ref.ts:36-57 | big-endian value of every byte range of the address, absent options zero, numbers cut to their width |
| `LiteTrees.ChainStep` | packages/pqc/src/slh-dsa-ref.ts:78-95 | the chain of a key, every call under the address of its position |
| `LiteReadings.AddressSpelled` | packages/pqc/src/slh-dsa-ref.ts:78-434 | for every kind of place the big-endian value of every byte range of its 32 address bytes |
| `LiteReadings.HashSpelled` | packages/pqc/src/slh-dsa-ref.ts:66-75 | what is hashed at a place: seed, its address bytes, message |
| `LiteTrees.WotsSk` | packages/pqc/src/slh-dsa-ref.ts:97-103 | the secret depends on key pair and chain alone |
| `LiteReadings.WotsSecretSpelled` | packages/pqc/src/slh-dsa-ref.ts:97-103 | SHA-256 of secret seed, the letters wots-sk, four bytes of key pair and four of chain |
| `LiteTrees.WotsPk` | packages/pqc/src/slh-dsa-ref.ts:105-118 | all 67 chain tops side by side |
| `LiteTrees.WotsSign` | packages/pqc/src/slh-dsa-ref.ts:120-135 | all 67 chunks at the digits of the message |
| `LiteTrees.WotsPkFromSig` | packages/pqc/src/slh-dsa-ref.ts:137-153 | all chains completed, short chunks leaving zero bytes |
| `LiteTrees.XmssLeafFromKeypair` | packages/pqc/src/slh-dsa-ref.ts:180-193 | the compressed WOTS+ key of one leaf |
| `LiteLevels.CollapseLevel` | packages/pqc/src/slh-dsa-ref.ts:210-215 | one level of a tree out of the level below, every node under its own address; shared by xmssRoot, xmssAuthPath and forsLeavesAndAuth |
| `LiteLevels.CollectPath` | packages/pqc/src/slh-dsa-ref.ts:234-247 | the level loop of xmssAuthPath and forsLeavesAndAuth, for a tree of any height at any place of a forest: the path of the leaf, and the calls that build the tree |
| `LiteTrees.XmssRootOf` | packages/pqc/src/slh-dsa-ref.ts:195-218 | halving the node list yields the recursively defined Merkle root |
| `LiteTrees.XmssAuthPath` | packages/pqc/src/slh-dsa-ref.ts:220-249 | the siblings of the path from the leaf, lowest first |
| `LiteHypertree.ClimbPath` | packages/pqc/src/slh-dsa-ref.ts:160-178 | the walk up a path from any leaf value, with its height and index words |
| `Merkle.ClimbMeetsRoot` | packages/pqc/src/slh-dsa-ref.ts:160-178 | in trees of any height an honest path leads from its leaf to the root |
| `LiteTheorems.AuthPathMeetsRoot` | packages/pqc/src/slh-dsa-ref.ts:160-249 | for every leaf the returned path leads to the computed root, by hash calls that building the tree made, addresses included |
| `LiteHypertree.XmssSign` | packages/pqc/src/slh-dsa-ref.ts:256-268 | WOTS+ signature and path of one leaf |
| `LiteHypertree.XmssRootFromSig` | packages/pqc/src/slh-dsa-ref.ts:270-284 | the root recovered from any signature bytes |
| `Correctness.XmssRecovered` | packages/pqc/src/slh-dsa-ref.ts:256-284 | whatever was signed, the signature leads back to the root of its tree |
| `LiteTheorems.XmssSignaturesAgree` | packages/pqc/src/slh-dsa-ref.ts:270-284 | two signatures of one payload with one root, of any sizes, have equal siblings and equal chunks up to missing zeros at chain tops (so are equal when well-sized), or the two runs collide in SHA-256 under one address |
| `LiteHypertree.HtSign` | packages/pqc/src/slh-dsa-ref.ts:292-313 | layer j signs the root of layer j - 1 under the promoted key |
| `Runs.SigningIsRun` | packages/pqc/src/slh-dsa-ref.ts:120-401 | for any parameters what is signed satisfies the relation between secrets, tables of nodes, digits and siblings, layer by layer |
| `LiteHypertree.HtRootFromSig` | packages/pqc/src/slh-dsa-ref.ts:315-331 | the root recovered over both layers; an error exactly when a layer is missing |
| `Correctness.TopTreeIsZero` | packages/pqc/src/slh-dsa-ref.ts:323-329 | d - 1 promotions of an in-range tree index end at tree 0 |
| `Correctness.HypertreeRecovered` | packages/pqc/src/slh-dsa-ref.ts:292-331 | any message signed from any in-range position leads to the one published root, for any number of layers |
| `LiteFors.ForsSk` | packages/pqc/src/slh-dsa-ref.ts:339-350 | the secret of a FORS leaf |
| `LiteReadings.ForsSecretSpelled` | packages/pqc/src/slh-dsa-ref.ts:339-350 | SHA-256 of secret seed, the letters fors-sk, eight bytes of tree index, four of FORS tree and four of leaf |
| `LiteFors.ForsLeavesAndAuth` | packages/pqc/src/slh-dsa-ref.ts:352-385 | secret and path of one leaf, nodes numbered across the whole forest |
| `LiteFors.ForsSignAll` | packages/pqc/src/slh-dsa-ref.ts:387-401 | four parts of 128 bytes |
| `LiteFors.ForsRootFromSig` | packages/pqc/src/slh-dsa-ref.ts:403-434 | the FORS key recovered from any signature bytes |
| `Lite.ForsRootFixed` | packages/pqc/src/slh-dsa-ref.ts:352-434 | for all in-range indices the recovered key is T_len of the four Merkle roots over all leaves |
| `Lite.Keygen` | packages/pqc/src/slh-dsa-ref.ts:447-451 | the root of tree 0 of layer 1 |
| `LiteReadings.PublicKeySpelled` | packages/pqc/src/slh-dsa-ref.ts:447-451 | the root tops a table of nodes over all 16 leaves of tree 0 of layer 1, each node the hash of its children, left before right, under its height and index |
| `Lite.SplitDigest` | packages/pqc/src/slh-dsa-ref.ts:461-488 | four octal digits, tree and leaf nibbles; missing bytes read as zero |
| `LiteReadings.SplitSpelled` | packages/pqc/src/slh-dsa-ref.ts:461-488 | the indices are digest bits 4 to 15 by threes, the tree bits 16 to 19, the leaf bits 20 to 23, for digests of any length |
| `LiteSpec.SplitInRange` | packages/pqc/src/slh-dsa-ref.ts:461-488 | indices below 2^a, tree and leaf below 2^h' |
| `Lite.SplitDetermines` | packages/pqc/src/slh-dsa-ref.ts:461-488 | two digests split alike if and only if they agree on the low nibble of byte 0 and on bytes 1 and 2 |
| `Lite.HighBitsReading` | packages/pqc/src/slh-dsa-ref.ts:457-471 | reading the high twelve bits, as the comment says, gives the code's indices if and only if the first four nibbles are equal |
| `Lite.HighBitsReadingFails` | packages/pqc/src/slh-dsa-ref.ts:457-471 | on every digest starting with the bytes 16 and 0 comment and code disagree |
| `Lite.Sign` | packages/pqc/src/slh-dsa-ref.ts:495-502 | FORS signature of the digest, hypertree signature of the FORS key, and all hash calls made |
| `LiteReadings.SignSpelled` | packages/pqc/src/slh-dsa-ref.ts:495-502 | the bytes of a signature: secrets and siblings at the leaves the digest bits select, then chains opened at the digits of each layer's payload and the siblings on the way up, layer 1 signing the root of layer 0 |
| `Lite.Verify` | packages/pqc/src/slh-dsa-ref.ts:504-514 | true exactly when the derived root is the published one; an error exactly when a layer is missing |
| `LiteReadings.VerifySpelled` | packages/pqc/src/slh-dsa-ref.ts:504-514 | accepted if and only if there is a run from the bytes of the signature to the root, every step one hash call under a written-out address selected by the digest bits |
| `LiteTheorems.VerifyAcceptsSign` | packages/pqc/src/slh-dsa-ref.ts:447-514 | for every seed, secret seed and message verify accepts what sign produces under keygen's key |
| `LiteTheorems.VerifyAcceptsWire` | packages/pqc/src/slh-dsa-ref.ts:447-540 | the same after packing to 5056 bytes and unpacking |
| `LiteTheorems.SignatureWellSized` | packages/pqc/src/slh-dsa-ref.ts:495-502 | every signature made has 512 FORS bytes and two layers of 2144 and 128 bytes |
| `LiteTheorems.VerifyRepeatsSign` | packages/pqc/src/slh-dsa-ref.ts:495-514 | verifying an honest signature makes only hash calls signing made |
| `LiteTheorems.OneInputPerAddress` | packages/pqc/src/slh-dsa-ref.ts:78-434 | across keygen and any sequence of signings, calls with equal address bytes hash equal messages |
| `LiteTheorems.AcceptedSignaturesAgree` | packages/pqc/src/slh-dsa-ref.ts:504-514 | two accepted signatures of one message, of any sizes, are indistinguishable to verify, or a layer's WOTS+ key signed two payloads, or the two runs collide in SHA-256 under one address |
| `LiteTheorems.OneVerdict` | packages/pqc/src/slh-dsa-ref.ts:504-514 | conversely verify gives indistinguishable signatures one verdict, under every key with the seed |
| `LiteTheorems.SizedIsEqual` | packages/pqc/src/slh-dsa-ref.ts:504-514 | among well-sized signatures indistinguishable is equal |
| `LiteTheorems.AcceptedWiresAgree` | packages/pqc/src/slh-dsa-ref.ts:504-540 | two accepted strings of 5056 bytes for one message are equal, or a layer's WOTS+ key signed two payloads, or the two runs collide in SHA-256 under one address |
| `LiteTheorems.TrimmedVerdict` | packages/pqc/src/slh-dsa-ref.ts:504-514 | a signature of any sizes is accepted if and only if its first 512 FORS bytes and the first 2144 and 128 bytes of its first two layers are |
| `LiteTheorems.LongSignaturesAgree` | packages/pqc/src/slh-dsa-ref.ts:504-514 | signatures with at least the bytes of a made one are indistinguishable if and only if these bytes are equal |
| `LiteTheorems.OversizeAccepted` | packages/pqc/src/slh-dsa-ref.ts:504-514 | verify checks no sizes: whatever has these bytes in common with a made signature is accepted like it, with no key reused and no collision |
| `LiteTheorems.UncheckedSizes` | packages/pqc/src/slh-dsa-ref.ts:504-514 | two different signatures of that kind: a made one with a third layer, and with one more FORS byte |
| `LiteWire.PackSignature` | packages/pqc/src/slh-dsa-ref.ts:517-525 | FORS bytes, then signature and path of each layer |
| `LiteReadings.PackedSpelled` | packages/pqc/src/slh-dsa-ref.ts:517-525 | FORS bytes, WOTS+ signature and path of layer 0, WOTS+ signature and path of layer 1, in this order |
| `LiteWire.UnpackSignature` | packages/pqc/src/slh-dsa-ref.ts:527-540 | the fields cut at fixed offsets, clamped to what is there |
| `LiteWire.PackedLength` | packages/pqc/src/slh-dsa-ref.ts:517-525 | k(1+a)n + d(len+h')n bytes, for any parameters |
| `LiteWire.UnpackOfPack` | packages/pqc/src/slh-dsa-ref.ts:517-540 | unpack after pack gives every well-sized signature back, for any sizes |
| `LiteWire.PackOfUnpack` | packages/pqc/src/slh-dsa-ref.ts:517-540 | pack after unpack gives every string of the full length back, for any sizes |
| `LiteWire.LiteRoundTrips` | packages/pqc/src/slh-dsa-ref.ts:517-540 | both for the 5056 bytes of the LITE parameters |
| `FipsHash.CompressAdrs` | packages/pqc/src/slh-dsa-128s-ref.ts:130-141 | the 22 bytes of an address object's fields |
| `FipsReadings.AddressSpelled` | packages/pqc/src/slh-dsa-128s-ref.ts:130-141 | for every kind of place the big-endian value of every byte range of its 22 address bytes: chain or height at offset 14, position or index at 18 |
| `FipsTheorems.EncodingInjective` | packages/pqc/src/slh-dsa-128s-ref.ts:130-141 | in-range addresses with equal bytes are equal |
| `FipsHash.Thash` | packages/pqc/src/slh-dsa-128s-ref.ts:146-149 | the first 16 bytes of the hash of seed, 48 zeros, address and message |
| `FipsReadings.HashSpelled` | packages/pqc/src/slh-dsa-128s-ref.ts:146-149 | 16 seed bytes, 48 zeros, 22 address bytes of the place at offset 64, the message from 86 on; 16 bytes kept |
| `FipsHash.Mgf1Sha256` | packages/pqc/src/slh-dsa-128s-ref.ts:160-171 | outLen bytes of counter-indexed blocks, for any length |
| `FipsReadings.Mgf1Spelled` | packages/pqc/src/slh-dsa-128s-ref.ts:160-171 | byte k is byte k mod 32 of the hash of seed and the four-byte counter k div 32 |
| `FipsHash.Hmsg` | packages/pqc/src/slh-dsa-128s-ref.ts:183-192 | the 30-byte message digest |
| `FipsReadings.DigestSpelled` | packages/pqc/src/slh-dsa-128s-ref.ts:183-192 | 30 bytes of the hash of randomizer, seed, inner hash and four zero bytes |
| `FipsHash.BaseW` | packages/pqc/src/slh-dsa-128s-ref.ts:196-210 | digit i is nibble i of the message, zero past its end |
| `FipsHash.WotsChecksum` | packages/pqc/src/slh-dsa-128s-ref.ts:212-224 | shift and byte split leave exactly the three digits of the deficit |
| `FipsHash.MsgToChainDigits` | packages/pqc/src/slh-dsa-128s-ref.ts:227-231 | the 35 chain digits of the first 16 bytes, missing ones read as zero |
| `FipsTrees.ChainFrom` | packages/pqc/src/slh-dsa-128s-ref.ts:240-247 | the chain, and the position the address object is left at |
| `FipsTrees.WotsPkFromSig` | packages/pqc/src/slh-dsa-128s-ref.ts:250-280 | all chains completed under copied addresses and compressed under the key's WOTS_PK address, for messages of any length |
| `FipsTrees.XmssPkFromSig` | packages/pqc/src/slh-dsa-128s-ref.ts:283-314 | the root recovered from any number of signature and message bytes; the shared address object keeps layer and tree and is left at type 2, key pair 0, height 9 and index idx >> 9 |
| `FipsTrees.HtRootFromSig` | packages/pqc/src/slh-dsa-128s-ref.ts:317-340 | the root recovered over seven layers, from messages of any length |
| `FipsTheorems.PathIsPositional` | packages/pqc/src/slh-dsa-128s-ref.ts:325-339 | the seven leaves are the base-512 digits, least significant first, of tree * 512 + leaf; the top tree is 0 |
| `FipsFors.ExtractIndices` | packages/pqc/src/slh-dsa-128s-ref.ts:352-364 | fourteen twelve-bit fields read bit by bit, each below 4096 |
| `FipsTheorems.IndicesSpellDigest` | packages/pqc/src/slh-dsa-128s-ref.ts:352-364 | as base-4096 digits the indices are the big-endian value of the 21 bytes |
| `FipsTheorems.IndicesDetermineDigest` | packages/pqc/src/slh-dsa-128s-ref.ts:352-364 | equal indices come from equal bytes |
| `FipsFors.ForsPkFromSig` | packages/pqc/src/slh-dsa-128s-ref.ts:343-395 | the FORS key recovered from any signature bytes |
| `Runs.VerificationIsRun` | packages/pqc/src/slh-dsa-128s-ref.ts:240-395 | for any parameters the derived root is the one root a run leads to: FORS walks, completed chains, compressed leaves and paths, each step one hash call under its address |
| `Fips.SplitDigest` | packages/pqc/src/slh-dsa-128s-ref.ts:398-424 | digest bytes, tree and leaf with their masks; an error exactly below 28 bytes |
| `FipsReadings.SplitSpelled` | packages/pqc/src/slh-dsa-128s-ref.ts:398-424 | the tree is digest bits 170 to 223, the leaf bits 231 to 239, FORS has bits 0 to 167, for every digest that does not throw |
| `FipsTheorems.WrappedInjective` | packages/pqc/src/slh-dsa-128s-ref.ts:446 | different pairs of context and message are wrapped differently |
| `Fips.Verify` | packages/pqc/src/slh-dsa-128s-ref.ts:434-468 | true exactly for right sizes and a derived root equal to the published one, for all inputs |
| `FipsReadings.VerifySpelled` | packages/pqc/src/slh-dsa-128s-ref.ts:434-468 | for all inputs: accepted if and only if the sizes are right and there is a run from the signature bytes at fixed offsets to the second half of the key, places selected by bits of the written-out digest |
| `FipsTheorems.VerifyAcceptsSpecSignature` | packages/pqc/src/slh-dsa-128s-ref.ts:434-468 | every signature of a signer following section 9.2 of FIPS 205 is accepted, for all secrets, randomizers, messages and contexts up to 255 bytes |
| `FipsTheorems.AddressesDistinct` | packages/pqc/src/slh-dsa-128s-ref.ts:240-395 | in every verification, of any signature, all compressed addresses are pairwise different |
| `FipsTheorems.AcceptedSignaturesAgree` | packages/pqc/src/slh-dsa-128s-ref.ts:434-468 | two accepted signatures of one message with one randomizer are equal, or a layer's WOTS+ key signed two payloads, or under one address the runs hash two inputs whose digests share 16 bytes |
| `Poller.InMemoryCursorStore.Load` | packages/indexer/src/index.ts:17-19 | the saved cursor or none |
| `Poller.InMemoryCursorStore.Save` | packages/indexer/src/index.ts:20-22 | one key updated, the others kept |
| `Poller.HandlePage` | packages/indexer/src/index.ts:57 | the events before the first throwing handler call, in order, and whether there was one |
| `Poller.OnePass` | packages/indexer/src/index.ts:50-58 | load, query, handle, save, and what each failure leaves behind |
| `Poller.TurnOutcome` | packages/indexer/src/index.ts:50-58 | a turn by the environment alone: nothing after a failing load or query; else exactly the events before the first throwing handler call, nothing saved if there is one, and otherwise all events and the page cursor saved as far as the store lets it |
| `Poller.Tick` | packages/indexer/src/index.ts:48-61 | the loop handles and saves what its turns do, begins no turn after a stop, and ends exactly at a stop or at the first throw |
| `Poller.StartPolling` | packages/indexer/src/index.ts:41-67 | a given store is used and its other keys kept, otherwise a fresh one; pages of 50 unless a limit is given; ends as the loop does |
| `Poller.RestartsCompose` | packages/indexer/src/index.ts:41-67 | polling, ending and polling again on the same store is one longer run |
| `Poller.TurnsContinue` | packages/indexer/src/index.ts:48-61 | every turn handles a stretch of at most limit events starting at the stored cursor; the next starts at its end, or again at its start after a throw |
| `Poller.NothingSkipped` | packages/indexer/src/index.ts:48-61 | in every run, with any throws and restarts, all events behind the saved cursor were handled |
| `Poller.HandledIsDelivered` | packages/indexer/src/index.ts:48-61 | an event counts as handled if and only if, in some turn, a handler call for it was made and returned |
| `Poller.EveryEventDelivered` | packages/indexer/src/index.ts:48-61 | in every run every event behind the saved cursor was given to a handler call that returned |
| `Poller.ExactlyOnce` | packages/indexer/src/index.ts:48-61 | without failures the handled events are exactly the log up to the saved cursor, in order |
| `Poller.RepeatsBounded` | packages/indexer/src/index.ts:48-61 | no event is handled more often than once plus the number of turns that threw |
| `Poller.CatchesUp` | packages/indexer/src/index.ts:48-61 | without failures and with full pages n turns get through n * limit events or the whole log |

## Left out

- SHA-256 itself: a parameter with 32-byte results; no property of it is used.
- Security claims beyond exhibited collisions and reused one-time keys: unforgeability and randomness quality.
- Integer width: indices are non-negative integers; words are cut to 32 bits where buffers are written, but shifts of
  numbers of 2^31 and more, and the rounding of tree numbers above 2^53 in LITE, are not modelled. Both modules only
  reach smaller numbers from their own digests.
- The signing half of FIPS 205: the 128s module has none; its signer appears as a specification over arbitrary secrets.
- Poller.Tick: watches a finite number of passes, any number, of a loop that in the original goes on until stopped;
  awaiting, timers and the idle interval are dropped, and one poller per cursor key is taken for granted.
- The environment of the poller: the log is append-only with distinct events, and a page is the stretch after the cursor;
  `fetchRecent` and `gqlQuery` are not modelled.
- TypeScript objects passed as signatures: byte arrays and layer lists are values, so aliasing between them is not captured.
- ML-DSA, ML-KEM, AES-GCM, the Move and Rust verifiers, wallets, sponsors and user interfaces of the repository.
