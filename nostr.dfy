/** Gift-wrapped Nostr direct messages. A kind-14 chat message is sealed into a
    kind-13 event whose content is the NIP-04 encryption of the message text, and the
    whole sealed event, serialized as JSON, is encrypted again into a kind-1059 gift
    wrap addressed to the receiver. Every event gets its id and signature as NIP-01
    defines them. The receiver unwraps the gift wrap to the sealed event and unseals
    that to the text. */
module Nostr {
  import opened Wrappers
  import opened Hex
  import opened Json
  import Utf8
  import opened Crypto
  import JsonRoundTrip

  /** A Nostr event; `createdAt` is the `created_at` of the wire form, in seconds. */
  datatype Event = Event(
    kind: int,
    pubkey: string,
    createdAt: int,
    tags: seq<seq<string>>,
    content: string,
    id: string,
    sig: string)

  datatype NostrKeys = NostrKeys(privateKey: string, publicKey: string)

  const ChatMessageKind: int := 14
  const SealKind: int := 13
  const GiftWrapKind: int := 1059
  const RelayUrl: string := "wss://relay.example.com"

  /** The five fields the id is computed from. */
  predicate SameSignedFields(a: Event, b: Event) {
    a.pubkey == b.pubkey && a.createdAt == b.createdAt && a.kind == b.kind
    && a.tags == b.tags && a.content == b.content
  }

  // ---------------------------------------------------------------------------
  // Keys and time
  // ---------------------------------------------------------------------------

  /** `generatePrivateKey()`, given the 32 random bytes it draws. */
  function GeneratePrivateKey(random: seq<byte>): (r: string)
    requires |random| == 32
    ensures |r| == 64 && IsLowerHex(r) && Hex.Decode(r) == random
  {
    Hex.DecodeEncode(random);
    Hex.Encode(random)
  }

  /** `generateNostrKeys()`: a fresh private key and the public key that belongs to it. */
  function GenerateNostrKeys(p: Primitives, random: seq<byte>): (r: NostrKeys)
    requires |random| == 32
    ensures r.privateKey == GeneratePrivateKey(random)
    ensures |r.privateKey| == 64 && IsLowerHex(r.privateKey) && Hex.Decode(r.privateKey) == random
    ensures r.publicKey == p.pub(r.privateKey)
  {
    var privateKey := GeneratePrivateKey(random);
    NostrKeys(privateKey, p.pub(privateKey))
  }

  /** `Math.floor(Date.now() / 1000)`: the clock's milliseconds as whole seconds. */
  function Seconds(nowMs: int): (r: int)
    ensures r * 1000 <= nowMs < (r + 1) * 1000
  {
    nowMs / 1000
  }

  // ---------------------------------------------------------------------------
  // Events and their ids (NIP-01)
  // ---------------------------------------------------------------------------

  /** `buildDirectMessage(senderPubkey, receiverPubkey, message)` at clock `nowMs`. */
  function BuildDirectMessage(senderPubkey: string, receiverPubkey: string, message: string,
                              nowMs: int): (r: Event)
    ensures r.kind == ChatMessageKind && r.pubkey == senderPubkey && r.content == message
    ensures r.createdAt * 1000 <= nowMs < (r.createdAt + 1) * 1000
    ensures r.tags == [["p", receiverPubkey, RelayUrl]]
    ensures r.id == "" && r.sig == ""
  {
    Event(ChatMessageKind, senderPubkey, Seconds(nowMs), [["p", receiverPubkey, RelayUrl]],
          message, "", "")
  }

  function Strings(ss: seq<string>): (r: seq<Json>)
    ensures |r| == |ss|
  {
    if ss == [] then [] else [JStr(ss[0])] + Strings(ss[1..])
  }

  /** Tags as JSON: an array of arrays of strings. */
  function TagsJson(tags: seq<seq<string>>): (r: seq<Json>)
    ensures |r| == |tags|
  {
    if tags == [] then [] else [JArr(Strings(tags[0]))] + TagsJson(tags[1..])
  }

  /** The array `[0, pubkey, created_at, kind, tags, content]` whose serialization
      is hashed into the id. */
  function IdPreimage(e: Event): Json {
    JArr([JNum(0), JStr(e.pubkey), JNum(e.createdAt), JNum(e.kind),
          JArr(TagsJson(e.tags)), JStr(e.content)])
  }

  /** The bytes the id is the SHA-256 digest of: the UTF-8 form of `JSON.stringify`
      of the preimage array. */
  function IdBytes(e: Event): (r: seq<byte>)
    ensures Utf8.Decode(r) == Some(Stringify(IdPreimage(e)))
  {
    Utf8.DecodeEncode(Stringify(IdPreimage(e)));
    Utf8.Encode(Stringify(IdPreimage(e)))
  }

  function EventId(p: Primitives, e: Event): (r: string)
    ensures |r| == 2 * |p.sha256(IdBytes(e))| && IsLowerHex(r)
    ensures Hex.Decode(r) == p.sha256(IdBytes(e))
  {
    Hex.DecodeEncode(p.sha256(IdBytes(e)));
    Hex.Encode(p.sha256(IdBytes(e)))
  }

  /** What a relay checks of an id. */
  predicate IdValid(p: Primitives, e: Event) {
    e.id == EventId(p, e)
  }

  /** `finishEvent(event, privateKey)`: the id and signature are set, and only they. */
  function FinishEvent(p: Primitives, e: Event, privateKey: string): (r: Event)
    ensures SameSignedFields(r, e)
    ensures IdValid(p, r) && IsLowerHex(r.id) && Hex.Decode(r.id) == p.sha256(IdBytes(e))
    ensures r.sig == p.sign(r.id, privateKey)
  {
    var id := EventId(p, e);
    Hex.DecodeEncode(p.sha256(IdBytes(e)));
    e.(id := id, sig := p.sign(id, privateKey))
  }

  /** The id depends on the five signed fields and nothing else: not on a previous
      id or signature. */
  lemma IdOfSignedFields(p: Primitives, a: Event, b: Event)
    requires SameSignedFields(a, b)
    ensures EventId(p, a) == EventId(p, b)
  {
    assert IdPreimage(a) == IdPreimage(b);
  }

  /** Finishing a finished event with the same key changes nothing. */
  lemma FinishIdempotent(p: Primitives, e: Event, privateKey: string)
    ensures FinishEvent(p, FinishEvent(p, e, privateKey), privateKey) == FinishEvent(p, e, privateKey)
  {
    IdOfSignedFields(p, FinishEvent(p, e, privateKey), e);
  }

  // ---------------------------------------------------------------------------
  // Reading JSON back into events
  // ---------------------------------------------------------------------------

  function StringsOf(items: seq<Json>): Option<seq<string>> {
    if items == [] then Some([])
    else match (items[0], StringsOf(items[1..]))
      case (JStr(s), Some(rest)) => Some([s] + rest)
      case _ => None
  }

  function TagsOf(items: seq<Json>): Option<seq<seq<string>>> {
    if items == [] then Some([])
    else match (items[0], TagsOf(items[1..]))
      case (JArr(xs), Some(rest)) =>
        (match StringsOf(xs)
         case Some(tag) => Some([tag] + rest)
         case None => None)
      case _ => None
  }

  lemma {:induction false} StringsRoundTrip(ss: seq<string>)
    ensures StringsOf(Strings(ss)) == Some(ss)
  {
    if ss != [] {
      var items := Strings(ss);
      assert items[0] == JStr(ss[0]) && items[1..] == Strings(ss[1..]);
      StringsRoundTrip(ss[1..]);
      assert [ss[0]] + ss[1..] == ss;
    }
  }

  lemma {:induction false} TagsRoundTrip(tags: seq<seq<string>>)
    ensures TagsOf(TagsJson(tags)) == Some(tags)
  {
    if tags != [] {
      var items := TagsJson(tags);
      assert items[0] == JArr(Strings(tags[0])) && items[1..] == TagsJson(tags[1..]);
      StringsRoundTrip(tags[0]);
      TagsRoundTrip(tags[1..]);
      assert [tags[0]] + tags[1..] == tags;
    }
  }

  /** The properties of an event object in the order its object literals write them. */
  function EventFields(e: Event): (r: seq<Field>)
    ensures DistinctKeys(r)
  {
    [Field("kind", JNum(e.kind)), Field("pubkey", JStr(e.pubkey)),
     Field("created_at", JNum(e.createdAt)), Field("tags", JArr(TagsJson(e.tags))),
     Field("content", JStr(e.content)), Field("id", JStr(e.id)), Field("sig", JStr(e.sig))]
  }

  /** An event as the JSON object `JSON.stringify` serializes. */
  function EventJson(e: Event): Json {
    JObj(EventFields(e))
  }

  /** An event read from a JSON value, `None` where a property is missing or of the
      wrong type. */
  function EventOf(j: Json): Option<Event> {
    match (Property(j, "kind"), Property(j, "pubkey"), Property(j, "created_at"),
           Property(j, "tags"), Property(j, "content"), Property(j, "id"), Property(j, "sig"))
    case (Some(JNum(kind)), Some(JStr(pubkey)), Some(JNum(createdAt)), Some(JArr(tagItems)),
          Some(JStr(content)), Some(JStr(id)), Some(JStr(sig))) =>
      (match TagsOf(tagItems)
       case Some(tags) => Some(Event(kind, pubkey, createdAt, tags, content, id, sig))
       case None => None)
    case _ => None
  }

  lemma EventPropertyValues(e: Event)
    ensures Property(EventJson(e), "kind") == Some(JNum(e.kind))
    ensures Property(EventJson(e), "pubkey") == Some(JStr(e.pubkey))
    ensures Property(EventJson(e), "created_at") == Some(JNum(e.createdAt))
    ensures Property(EventJson(e), "tags") == Some(JArr(TagsJson(e.tags)))
    ensures Property(EventJson(e), "content") == Some(JStr(e.content))
    ensures Property(EventJson(e), "id") == Some(JStr(e.id))
    ensures Property(EventJson(e), "sig") == Some(JStr(e.sig))
  {
    var fs := EventFields(e);
    GetDistinct(fs, 0);
    GetDistinct(fs, 1);
    GetDistinct(fs, 2);
    GetDistinct(fs, 3);
    GetDistinct(fs, 4);
    GetDistinct(fs, 5);
    GetDistinct(fs, 6);
  }

  /** Reading an event's JSON object gives the event back. */
  lemma EventJsonRoundTrip(e: Event)
    ensures EventOf(EventJson(e)) == Some(e)
  {
    EventPropertyValues(e);
    TagsRoundTrip(e.tags);
  }

  // ---------------------------------------------------------------------------
  // Seal, gift wrap, unwrap, unseal
  // ---------------------------------------------------------------------------

  /** `sealMessage(plainEvent, senderPrivkey, receiverPubkey)` with `iv` for the
      encryption: a kind-13 event that keeps the plain event's author, time and tags
      and carries its content encrypted for the receiver, finished with the sender's key. */
  function SealMessage(p: Primitives, plainEvent: Event, senderPrivkey: string,
                       receiverPubkey: string, iv: seq<byte>): (r: Event)
    ensures r.kind == SealKind
    ensures r.pubkey == plainEvent.pubkey && r.createdAt == plainEvent.createdAt
    ensures r.tags == plainEvent.tags
    ensures r.content == Nip04Encrypt(p, senderPrivkey, receiverPubkey, iv, plainEvent.content)
    ensures IdValid(p, r) && r.sig == p.sign(r.id, senderPrivkey)
  {
    var sealed := plainEvent.(kind := SealKind,
                              content := Nip04Encrypt(p, senderPrivkey, receiverPubkey, iv, plainEvent.content));
    FinishEvent(p, sealed, senderPrivkey)
  }

  /** `giftWrapMessage(sealedEvent, wrappingPrivkey, receiverPubkey)` at clock `nowMs`
      with `iv` for the encryption: a kind-1059 event by the wrapping key, tagged
      with the receiver only, carrying the whole serialized sealed event encrypted. */
  function GiftWrapMessage(p: Primitives, sealedEvent: Event, wrappingPrivkey: string,
                           receiverPubkey: string, nowMs: int, iv: seq<byte>): (r: Event)
    ensures r.kind == GiftWrapKind && r.pubkey == p.pub(wrappingPrivkey)
    ensures r.createdAt * 1000 <= nowMs < (r.createdAt + 1) * 1000
    ensures r.tags == [["p", receiverPubkey]]
    ensures r.content ==
      Nip04Encrypt(p, wrappingPrivkey, receiverPubkey, iv, Stringify(EventJson(sealedEvent)))
    ensures IdValid(p, r) && r.sig == p.sign(r.id, wrappingPrivkey)
  {
    var giftContent := Nip04Encrypt(p, wrappingPrivkey, receiverPubkey, iv,
                                    Stringify(EventJson(sealedEvent)));
    var wrapped := Event(GiftWrapKind, p.pub(wrappingPrivkey), Seconds(nowMs),
                         [["p", receiverPubkey]], giftContent, "", "");
    FinishEvent(p, wrapped, wrappingPrivkey)
  }

  /** `unwrapGiftMessage(giftWrappedEvent, receiverPrivkey)`: the JSON value the
      decrypted content holds; `None` where decryption or parsing fails, and where the
      content is the JSON text `null`, which the source returns as is. */
  function UnwrapGiftMessage(p: Primitives, giftWrappedEvent: Event, receiverPrivkey: string)
    : (r: Option<Json>)
    ensures r.Some? <==>
      && Nip04Decrypt(p, receiverPrivkey, giftWrappedEvent.pubkey, giftWrappedEvent.content).Some?
      && Parse(Nip04Decrypt(p, receiverPrivkey, giftWrappedEvent.pubkey, giftWrappedEvent.content).value)
         !in {None, Some(JNull)}
    ensures r.Some? ==>
      Parse(Nip04Decrypt(p, receiverPrivkey, giftWrappedEvent.pubkey, giftWrappedEvent.content).value)
      == r
  {
    match Nip04Decrypt(p, receiverPrivkey, giftWrappedEvent.pubkey, giftWrappedEvent.content)
    case None => None
    case Some(text) =>
      match Parse(text)
      case None => None
      case Some(JNull) => None
      case Some(j) => Some(j)
  }

  /** `unsealMessage(sealedEvent, receiverPrivkey)` on the value unwrapping gave: the
      content decrypted with the author's key; `None` where either property is not a
      string or decryption fails. */
  function UnsealMessage(p: Primitives, sealedEvent: Json, receiverPrivkey: string)
    : (r: Option<string>)
    ensures r.Some? ==> sealedEvent.JObj?
    ensures r.Some? ==> exists pk, c ::
      && Property(sealedEvent, "pubkey") == Some(JStr(pk))
      && Property(sealedEvent, "content") == Some(JStr(c))
      && r == Nip04Decrypt(p, receiverPrivkey, pk, c)
    ensures forall pk, c ::
      Property(sealedEvent, "pubkey") == Some(JStr(pk)) &&
      Property(sealedEvent, "content") == Some(JStr(c)) ==>
        r == Nip04Decrypt(p, receiverPrivkey, pk, c)
  {
    match (Property(sealedEvent, "pubkey"), Property(sealedEvent, "content"))
    case (Some(JStr(pk)), Some(JStr(c))) => Nip04Decrypt(p, receiverPrivkey, pk, c)
    case _ => None
  }

  /** Unsealing an event object decrypts its content with its author's key. */
  lemma UnsealEvent(p: Primitives, e: Event, receiverPrivkey: string)
    ensures UnsealMessage(p, EventJson(e), receiverPrivkey)
            == Nip04Decrypt(p, receiverPrivkey, e.pubkey, e.content)
  {
    EventPropertyValues(e);
  }

  /** The receiver unwraps a gift wrap addressed to their public key to exactly the
      sealed event, whatever wrapping key and time were used. */
  lemma UnwrapGiftWrap(p: Primitives, sealedEvent: Event, wrappingPrivkey: string,
                       receiverPrivkey: string, nowMs: int, iv: seq<byte>)
    requires Sound(p)
    ensures var gift := GiftWrapMessage(p, sealedEvent, wrappingPrivkey, p.pub(receiverPrivkey), nowMs, iv);
      UnwrapGiftMessage(p, gift, receiverPrivkey) == Some(EventJson(sealedEvent))
  {
    var text := Stringify(EventJson(sealedEvent));
    Nip04RoundTrip(p, wrappingPrivkey, receiverPrivkey, iv, text);
    JsonRoundTrip.ParseStringify(EventJson(sealedEvent));
  }

  /** The receiver unseals a seal addressed to their public key to the plain text,
      provided the plain event's author key is the sealing key's public key. */
  lemma UnsealSeal(p: Primitives, plainEvent: Event, senderPrivkey: string,
                   receiverPrivkey: string, iv: seq<byte>)
    requires Sound(p)
    requires plainEvent.pubkey == p.pub(senderPrivkey)
    ensures var sealed := SealMessage(p, plainEvent, senderPrivkey, p.pub(receiverPrivkey), iv);
      UnsealMessage(p, EventJson(sealed), receiverPrivkey) == Some(plainEvent.content)
  {
    var sealed := SealMessage(p, plainEvent, senderPrivkey, p.pub(receiverPrivkey), iv);
    UnsealEvent(p, sealed, receiverPrivkey);
    Nip04RoundTrip(p, senderPrivkey, receiverPrivkey, iv, plainEvent.content);
  }

  /** The demonstration route end to end: with keys generated for sender, receiver and
      wrapper, the receiver unwraps the gift wrap to the sealed event itself and
      unseals it to the original message. */
  lemma DirectMessagePipeline(p: Primitives, senderRandom: seq<byte>, receiverRandom: seq<byte>,
                              wrapperRandom: seq<byte>, message: string, sentMs: int, wrappedMs: int,
                              sealIv: seq<byte>, wrapIv: seq<byte>)
    requires Sound(p)
    requires |senderRandom| == 32 && |receiverRandom| == 32 && |wrapperRandom| == 32
    ensures
      var sender := GenerateNostrKeys(p, senderRandom);
      var receiver := GenerateNostrKeys(p, receiverRandom);
      var wrapper := GenerateNostrKeys(p, wrapperRandom);
      var directMsg := BuildDirectMessage(sender.publicKey, receiver.publicKey, message, sentMs);
      var sealedMsg := SealMessage(p, directMsg, sender.privateKey, receiver.publicKey, sealIv);
      var giftWrappedMsg := GiftWrapMessage(p, sealedMsg, wrapper.privateKey, receiver.publicKey,
                                            wrappedMs, wrapIv);
      var unwrappedMsg := UnwrapGiftMessage(p, giftWrappedMsg, receiver.privateKey);
      && unwrappedMsg.Some?
      && EventOf(unwrappedMsg.value) == Some(sealedMsg)
      && UnsealMessage(p, unwrappedMsg.value, receiver.privateKey) == Some(message)
  {
    var sender := GenerateNostrKeys(p, senderRandom);
    var receiver := GenerateNostrKeys(p, receiverRandom);
    var wrapper := GenerateNostrKeys(p, wrapperRandom);
    var directMsg := BuildDirectMessage(sender.publicKey, receiver.publicKey, message, sentMs);
    var sealedMsg := SealMessage(p, directMsg, sender.privateKey, receiver.publicKey, sealIv);
    UnwrapGiftWrap(p, sealedMsg, wrapper.privateKey, receiver.privateKey, wrappedMs, wrapIv);
    EventJsonRoundTrip(sealedMsg);
    UnsealSeal(p, directMsg, sender.privateKey, receiver.privateKey, sealIv);
  }

  // ---------------------------------------------------------------------------
  // What the id commits to
  // ---------------------------------------------------------------------------

  /** Two events hash the same bytes exactly when their five signed fields agree:
      the serialization hashed into the id leaves nothing out and confuses nothing. */
  lemma IdBytesCommit(a: Event, b: Event)
    ensures IdBytes(a) == IdBytes(b) <==> SameSignedFields(a, b)
  {
    if SameSignedFields(a, b) {
      assert IdPreimage(a) == IdPreimage(b);
    }
    if IdBytes(a) == IdBytes(b) {
      Utf8.EncodeInjective(Stringify(IdPreimage(a)), Stringify(IdPreimage(b)));
      JsonRoundTrip.StringifyInjective(IdPreimage(a), IdPreimage(b));
      assert TagsJson(a.tags) == TagsJson(b.tags);
      TagsRoundTrip(a.tags);
      TagsRoundTrip(b.tags);
    }
  }
}
