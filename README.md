# Shopstr messaging, HODL invoice and P2PK locking core in Dafny

This project models the three pure parts of a small Nostr/Lightning/Cashu
demonstration service and proves their properties.

- **Gift-wrapped direct messages** (`src/lib/nostrService.ts`), in module `Nostr`:
  - A kind-14 chat message is built.
  - It is sealed into a kind-13 event whose content is NIP-04 encrypted.
  - The serialized seal is gift-wrapped into a kind-1059 event for the receiver.
  - The receiver unwraps the gift wrap and unseals the seal.
  - Every event's `id` is the SHA-256 digest of its NIP-01 serialization, and `sig` signs that id.
- **HODL invoices** (`src/lib/lightningService.ts`), in module `Lightning`:
  - An invoice is created `Pending`.
  - Paying holds it.
  - A preimage whose SHA-256 digest is the invoice hash settles it.
  - Canceling cancels it.
  - No transition looks at the current status.
- **P2PK locking** (`lockProofs` in `src/lib/cashuService.ts`), in module `Cashu`: every proof object gets a `p2pk` property holding the key.

Supporting modules:

- `Hex`: Node's hexadecimal text of byte strings.
  - `toString('hex')` and `digest('hex')` write lower case.
  - For ASCII text, `Buffer.from(s, 'hex')` reads digit pairs of either case up to the first invalid pair.
- `Utf8`: the encoding `hash.update(text)` applies.
- `Json` and `JsonRoundTrip`: `JSON.stringify` and `JSON.parse` over integer numbers, with the theorem `JSON.parse(JSON.stringify(v)) == v`.
- `Crypto`: the secp256k1, SHA-256 and NIP-04 primitives.
  - They are uninterpreted functions collected in a `Primitives` value.
  - `Sound(p)` states the two facts NIP-04 relies on.
  - The round-trip theorems take `Sound(p)` as a precondition.
  - `Crypto.SoundSatisfiable` shows that `Sound(p)` can be met.

Randomness and the clock are parameters: the random bytes drawn, the NIP-04 initialisation vector, and the clock in milliseconds.

## Model

| member | source | states |
|---|---|---|
| `Hex.Encode` | src/lib/lightningService.ts:21-24 | `toString('hex')`/`digest('hex')`: two lower-case hexadecimal digits per byte |
| `Hex.Decode` | src/lib/lightningService.ts:73 | `Buffer.from(s, 'hex')` yields at most one byte per two characters |
| `Hex.DecodePairs` | src/lib/lightningService.ts:73 | byte `i` is the value of the digit pair at `2i`, digits of either case |
| `Hex.DecodeStops` | src/lib/lightningService.ts:73 | decoding stops only at the end of the text, a lone last digit, or the first pair that is not hexadecimal |
| `Hex.DecodeEncode` | src/lib/lightningService.ts:21-24 | reading back written hexadecimal gives the original bytes |
| `Hex.DecodeLowerLength` | src/lib/lightningService.ts:73 | lower-case hexadecimal of even length, such as a generated preimage, is decoded to its end: one byte per two digits |
| `Hex.EncodeDecode` | src/lib/lightningService.ts:72-74 | on even-length lower-case hexadecimal, writing back the decoded bytes gives the text |
| `Hex.EncodeInjective` | src/lib/lightningService.ts:77 | distinct byte strings have distinct hexadecimal digests, so the comparison of hex digests compares the digests |
| `Utf8.DecodeEncode` | src/lib/nostrService.ts:55 | the UTF-8 bytes hashed for the id decode back to the serialized text |
| `Utf8.EncodeInjective` | src/lib/nostrService.ts:55 | distinct texts have distinct UTF-8 encodings |
| `Utf8.Encode` | src/lib/nostrService.ts:55 | `update(serialized)` hashes at least one and at most four bytes per character of the serialized text, counted over the whole text |
| `Json.Parse` | src/lib/nostrService.ts:132 | a value exactly when the text is one JSON value with only JSON whitespace around it, and then that value; `None` where `JSON.parse` throws (see `ParseStringify`, `ParseRejectsFraction`, `ParseRejectsLoneSurrogate`) |
| `JsonRoundTrip.ParseStringify` | src/lib/nostrService.ts:101-132 | `JSON.parse(JSON.stringify(v))` is `v`, for every JSON value with integer numbers |
| `JsonRoundTrip.StringifyInjective` | src/lib/nostrService.ts:54 | distinct values serialize to distinct texts, and equal values to equal texts |
| `Json.Stringify` | src/lib/nostrService.ts:54 | the serialization is never empty and never starts with whitespace, a comma or a closing bracket, so a value written inside an array or object ends where the parser of that value stops |
| `JsonRoundTrip.ParseRejectsFraction` | src/lib/nostrService.ts:132 | `JSON.parse` as modelled rejects a number followed by a fraction or exponent part, which integer numbers never produce |
| `JsonRoundTrip.ParseRejectsLoneSurrogate` | src/lib/nostrService.ts:132 | `JSON.parse` as modelled rejects a string whose `\u` escape is a surrogate not followed by a second escape |
| `Json.Get` | src/lib/nostrService.ts:148 | a property read finds a value exactly when the object has a field with that key |
| `Json.WithProperty` | src/lib/cashuService.ts:21-22 | after `{...obj, [key]: v}` the key reads `v`; the object keeps its length when the key was present and grows by one otherwise |
| `Json.GetWithProperty` | src/lib/cashuService.ts:20-23 | after `{...obj, [key]: v}` the key reads `v` and every other key reads as before |
| `Json.KeysWithProperty` | src/lib/cashuService.ts:21-22 | the spread keeps the order of the properties and adds a missing key last |
| `Json.WithPropertyTwice` | src/lib/cashuService.ts:21-22 | setting a property twice keeps only the second value |
| `Crypto.Nip04RoundTrip` | src/lib/nostrService.ts:74-78 | text `a` encrypts for `b`'s public key decrypts under `b`'s key and `a`'s public key, given the NIP-04 facts |
| `Crypto.Nip04Encrypt` | src/lib/nostrService.ts:74-78 | given the NIP-04 facts, the payload deciphers under the shared secret of the two keys to the text |
| `Crypto.Nip04Decrypt` | src/lib/nostrService.ts:149-153 | given the NIP-04 facts, a payload enciphered under the shared secret of the two keys decrypts to its text |
| `Crypto.SoundSatisfiable` | src/lib/nostrService.ts:74-78 | the NIP-04 facts assumed by the round-trip theorems can be met |
| `Nostr.GeneratePrivateKey` | src/lib/nostrService.ts:10-12 | the private key is 64 lower-case hexadecimal digits that decode to the 32 random bytes |
| `Nostr.GenerateNostrKeys` | src/lib/nostrService.ts:22-26 | the private key is exactly `generatePrivateKey()`'s 64 lower-case digits of the random bytes, and the public key is the one that belongs to it |
| `Nostr.Seconds` | src/lib/nostrService.ts:39 | `Math.floor(now / 1000)`: the whole second the clock is in |
| `Nostr.BuildDirectMessage` | src/lib/nostrService.ts:31-45 | kind 14, the sender's key as author, the current second, the single tag `["p", receiver, "wss://relay.example.com"]`, the message as content, empty `id` and `sig` |
| `Nostr.FinishEvent` | src/lib/nostrService.ts:50-63 | only `id` and `sig` change; `id` is the lower-case hex of SHA-256 of the UTF-8 serialization of `[0, pubkey, created_at, kind, tags, content]`; `sig` signs `id` with the key |
| `Nostr.IdBytes` | src/lib/nostrService.ts:53-55 | the hashed bytes decode as UTF-8 to the JSON text of `[0, pubkey, created_at, kind, tags, content]` |
| `Nostr.EventId` | src/lib/nostrService.ts:53-55 | the id is lower-case hex, two digits per digest byte, and decodes to SHA-256 of the hashed bytes |
| `Nostr.IdOfSignedFields` | src/lib/nostrService.ts:53-55 | two events that agree on the five signed fields get the same id, whatever their previous `id` and `sig` |
| `Nostr.IdBytesCommit` | src/lib/nostrService.ts:53-55 | the hashed bytes are equal if and only if the five signed fields are equal |
| `Nostr.FinishIdempotent` | src/lib/nostrService.ts:50-63 | finishing a finished event again with the same key changes nothing |
| `Nostr.StringsRoundTrip` | src/lib/nostrService.ts:53 | a tag written as a JSON array of strings reads back as the tag |
| `Nostr.TagsRoundTrip` | src/lib/nostrService.ts:53 | tags written as JSON arrays read back as the tags |
| `Nostr.EventPropertyValues` | src/lib/nostrService.ts:126-152 | each property of a serialized event object reads the event's field |
| `Nostr.EventJsonRoundTrip` | src/lib/nostrService.ts:101-132 | reading the JSON object of an event gives the event back |
| `Nostr.SealMessage` | src/lib/nostrService.ts:69-88 | kind 13, with author, time and tags of the plain event, its content NIP-04 encrypted from sender to receiver, and a valid id signed with the sender's key |
| `Nostr.GiftWrapMessage` | src/lib/nostrService.ts:93-116 | kind 1059 by the wrapping key's public key, at the current second, the single tag `["p", receiver]`, the whole serialized sealed event encrypted, with a valid id signed with the wrapping key |
| `Nostr.UnwrapGiftMessage` | src/lib/nostrService.ts:121-138 | a value exactly when the content decrypts with the gift wrap's author key and parses to a non-null value, which is that value; otherwise `None` |
| `Nostr.UnsealMessage` | src/lib/nostrService.ts:143-159 | a text only from an object whose `pubkey` and `content` are strings; and whenever both are strings, exactly the decryption of that content with that key |
| `Nostr.UnsealEvent` | src/lib/nostrService.ts:143-154 | unsealing an event decrypts its content with its author's key |
| `Nostr.UnwrapGiftWrap` | src/lib/nostrService.ts:93-138 | the receiver unwraps a gift wrap for their public key to the sealed event's JSON object, for any wrapping key and time |
| `Nostr.UnsealSeal` | src/lib/nostrService.ts:69-159 | the receiver unseals a seal for their public key to the plain content, when the plain event's author is the sealing key's public key |
| `Nostr.DirectMessagePipeline` | src/pages/api/nostr.ts:14-36 | with generated sender, receiver and wrapper keys: build, seal, wrap, unwrap and unseal give back the sealed event itself and the original message |
| `Lightning.GeneratePreimageAndHash` | src/lib/lightningService.ts:16-27 | the preimage is the hex of the 32 random bytes and the hash is exactly the digest settling checks that preimage against |
| `Lightning.PreimageHash` | src/lib/lightningService.ts:72-74 | the digest is lower-case hex, two digits per byte, of SHA-256 of the bytes `Buffer.from` reads from the preimage text |
| `Lightning.CreateHodlInvoice` | src/lib/lightningService.ts:32-52 | `Pending`, empty preimage, the given hash, amount and description, a 32-digit hex id of the random bytes, and expiry 86400 seconds after the current second |
| `Lightning.Pay` | src/lib/lightningService.ts:57-62 | status `Held` from any status; preimage and terms unchanged |
| `Lightning.Settle` | src/lib/lightningService.ts:67-87 | settled with the preimage recorded and terms unchanged when SHA-256 of the decoded preimage is the hash, the invoice unchanged otherwise; an invoice becomes settled only that way |
| `Lightning.Cancel` | src/lib/lightningService.ts:92-97 | status `Canceled` from any status; preimage and terms unchanged |
| `Lightning.PayIdempotent` | src/lib/lightningService.ts:57-62 | paying twice is paying once |
| `Lightning.CancelIdempotent` | src/lib/lightningService.ts:92-97 | canceling twice is canceling once |
| `Lightning.SettleIdempotent` | src/lib/lightningService.ts:67-87 | settling twice with the same preimage is settling once |
| `Lightning.GeneratedPreimageSettles` | src/lib/lightningService.ts:72-82 | the generated preimage settles any invoice for the generated hash, recording that preimage |
| `Lightning.RunKeepsTerms` | src/lib/lightningService.ts:57-97 | from any invoice, no sequence of transitions changes id, hash, amount, description or expiry |
| `Lightning.RunInvariant` | src/lib/lightningService.ts:57-97 | from an invoice where "a recorded or settled preimage unlocks the hash" holds, no sequence of transitions changes its terms or breaks that invariant |
| `Lightning.CreatedUnlocked` | src/lib/lightningService.ts:32-97 | every sequence of transitions from a new invoice keeps its terms and that invariant |
| `Lightning.HodlScenario` | src/pages/api/hodl.ts:19-39 | created for a generated hash and paid, the invoice settles with the generated preimage, stays as it was with a preimage of another hash, and cancels |
| `Cashu.LockProof` | src/lib/cashuService.ts:20-23 | a locked proof's `p2pk` property reads the key |
| `Cashu.LockProofs` | src/lib/cashuService.ts:19-24 | one locked proof per input proof, in the same order |
| `Cashu.LockedProofs` | src/lib/cashuService.ts:20-23 | each locked proof has `p2pk` equal to the key, every other property of its input proof, and the input's property order with `p2pk` last if it was missing |
| `Cashu.Relock` | src/lib/cashuService.ts:19-24 | locking locked proofs to another key is locking the originals to that key |
| `Cashu.LockIdempotent` | src/lib/cashuService.ts:19-24 | locking twice to the same key is locking once |

## Left out

- Network operations are not modelled: `createP2PkToken`, `claimP2PkToken` (mint and wallet calls) and `generateCashuKeys` (foreign key generation) in `src/lib/cashuService.ts`.
- The HTTP route handlers only appear as the scenarios `Nostr.DirectMessagePipeline` and `Lightning.HodlScenario`. Their JSON responses and the user interface are not modelled.
- `src/pages/api/cashu.ts` imports functions that `src/lib/cashuService.ts` does not export. It is not part of this model.
- Cryptography is abstract.
  - secp256k1 keys and signatures, SHA-256 and NIP-04 (ECDH with AES-256-CBC and base64) are uninterpreted.
  - No property beyond `Crypto.Sound` is assumed.
  - Tamper detection and wrong-key rejection are not stated: unauthenticated CBC may decrypt a wrong key's text to garbage instead of failing.
  - Scalar validity of generated private keys is not checked, as in the source.
- `sig` is an abstract string.
  - The signing library's `sign` returns bytes in some versions.
  - The source's `Event` type declares `sig` a string, and NIP-01 describes it as 64 bytes of lower-case hex.
- Numbers are unbounded integers.
  - JavaScript's doubles are not modelled: precision beyond 2^53, fractions, exponents, and the `1e21` notation of large numbers.
  - The JSON parser rejects a fraction or exponent part.
- JavaScript strings may hold lone surrogates; a Dafny `char` cannot. The JSON parser rejects a lone-surrogate escape.
- `Hex.Decode`: the text is read as Unicode characters, and only ASCII hexadecimal digits count. Node reads UTF-16 code units by their low byte, so a character at or above U+0100 whose low byte is a digit (such as `İ`, U+0130) counts as that digit; this is not modelled. Generated preimages and hex digests are ASCII, where the two agree.
- `Json.Parse`: a parsed object keeps a repeated key as separate fields. `JSON.parse` keeps one property with the last value at the first key's position. Only property reads agree, because `Json.Get` takes the last field.
- Object property order follows insertion order. JavaScript lists integer-like keys first; proof objects and events have none.
- An event object is modelled with its properties in the order of the source's object literals: kind, pubkey, created_at, tags, content, id, sig.
- `Nostr.UnsealMessage`: a `pubkey` or `content` that is not a string counts as failure. The source would hand it to `nip04.decrypt`, which coerces or throws.
- `Nostr.UnwrapGiftMessage`: the result is the parsed JSON value. The TypeScript `as Event` cast checks nothing, so the value is not an event. `Nostr.EventOf` reads an event from it.
- `Nostr.UnwrapGiftMessage`: a decrypted text of `null` gives `None`, because the source then returns `null` as on failure.
- `async`/`await` and logging are not modelled.
- Exceptions become `None` only where the source catches them: in `unwrapGiftMessage` and `unsealMessage`.
- Other throws are not modelled, because the primitives are total functions:
  - `getPublicKey` on an invalid private scalar (in `generateNostrKeys` and `giftWrapMessage`);
  - `getSharedSecret` inside `nip04.encrypt` on an invalid public key (in `sealMessage` and `giftWrapMessage`);
  - `secp.sign` on an invalid key (in `finishEvent`).
- The clock value (`Date.now()`) and random bytes (`randomBytes`) are parameters; the modelled functions that need them require the byte counts the source draws.
