/** The chunked, authenticated envelope of a backup archive, over an abstract AEAD suite. */
module Envelope {
  import opened Outcomes
  import opened Bytes

  const MAGIC: Bytes := [0x4F, 0x5A, 0x42, 0x4B, 0x31]
  const ALGORITHM: string := "AES-256-GCM"
  const TAG_LENGTH: nat := 16
  const MAX_HEADER_BYTES: nat := 65536
  const MAX_CHUNK_SIZE: nat := 67108864
  const PREFIX_BYTES: nat := 4
  const MIN_KEY_LENGTH: nat := 32
  const COUNTER_LIMIT: nat := 0x1_0000_0000_0000_0000

  type Key = string

  datatype Header = Header(algorithm: string, fingerprint: string, chunkSize: int, prefix: Bytes)

  /**
   * The foreign pieces: the AEAD under the key derived from a configured key string (sections 2.1 and 2.2 of RFC 5116),
   * the key fingerprint, the header digest and the header's textual form.
   */
  datatype Suite = Suite(
    seal: (Key, Bytes, Bytes, Bytes) -> Bytes,
    unseal: (Key, Bytes, Bytes, Bytes) -> Option<Bytes>,
    fingerprint: Key -> string,
    digest: Bytes -> Bytes,
    encode: Header -> Bytes,
    decode: Bytes -> Option<Header>)

  datatype Error =
    | KeysNotConfigured | KeyRejected | ChunkSizeOutOfRange | CounterOverflow
    | NotAnEnvelope | Truncated | CorruptHeader | UnsupportedAlgorithm | KeyMissing(fingerprint: string)
    | CorruptFrame | NoData | AuthenticationFailed

  // ---- Keys ----

  function NonEmpty(keys: seq<Key>): seq<Key> {
    if keys == [] then [] else (if keys[0] != "" then [keys[0]] else []) + NonEmpty(keys[1..])
  }

  /** The configured keys, validated: blanks are dropped, a short key is refused. */
  function ConfiguredKeys(setting: seq<Key>): Result<seq<Key>, Error> {
    var keys := NonEmpty(setting);
    if forall k | k in keys :: |k| >= MIN_KEY_LENGTH then Ok(keys) else Err(KeyRejected)
  }

  /** Where the entries of a setting that are not blank stand, in order. */
  ghost predicate Places(setting: seq<Key>, at: seq<nat>) {
    && (forall i, j | 0 <= i < j < |at| :: at[i] < at[j])
    && (forall p: nat :: p in at <==> p < |setting| && setting[p] != "")
  }

  /** The keys are the entries at those places, each as often as it occurs and in the setting's order. */
  ghost predicate EntriesAt(setting: seq<Key>, at: seq<nat>, keys: seq<Key>) {
    |keys| == |at| && forall i | 0 <= i < |at| :: at[i] < |setting| && keys[i] == setting[at[i]]
  }

  function Shifted(at: seq<nat>): (r: seq<nat>)
    ensures |r| == |at| && forall i | 0 <= i < |at| :: r[i] == at[i] + 1
  {
    if at == [] then [] else [at[0] + 1] + Shifted(at[1..])
  }

  lemma {:induction false} NonEmptyPlaces(setting: seq<Key>) returns (at: seq<nat>)
    ensures Places(setting, at) && EntriesAt(setting, at, NonEmpty(setting))
  {
    at := [];
    if setting != [] {
      var rest := NonEmptyPlaces(setting[1..]);
      at := OneMorePlace(setting, rest);
      PlacesCons(setting, rest);
      EntriesCons(setting, rest);
    }
  }

  function OneMorePlace(setting: seq<Key>, rest: seq<nat>): seq<nat>
    requires setting != []
  {
    (if setting[0] != "" then [0] else []) + Shifted(rest)
  }

  lemma PlacesCons(setting: seq<Key>, rest: seq<nat>)
    requires setting != [] && Places(setting[1..], rest)
    ensures Places(setting, OneMorePlace(setting, rest))
  {
    var at := OneMorePlace(setting, rest);
    forall p: nat ensures p in at <==> p < |setting| && setting[p] != "" {
      ShiftedHas(rest, p);
      assert p in at <==> (p == 0 && setting[0] != "") || p in Shifted(rest);
      if p > 0 { assert p < |setting| ==> setting[1..][p - 1] == setting[p]; }
    }
  }

  lemma EntriesCons(setting: seq<Key>, rest: seq<nat>)
    requires setting != [] && EntriesAt(setting[1..], rest, NonEmpty(setting[1..]))
    ensures EntriesAt(setting, OneMorePlace(setting, rest), NonEmpty(setting))
  {
  }

  lemma ShiftedHas(at: seq<nat>, p: nat)
    ensures p in Shifted(at) <==> p > 0 && p - 1 in at
  {
    if p > 0 && p - 1 in at {
      var i :| 0 <= i < |at| && at[i] == p - 1;
      assert Shifted(at)[i] == p;
    }
  }

  /**
   * The configured keys: accepted exactly when every entry that is not blank is long enough, and then those entries, each as
   * often as it occurs, in the setting's order.
   */
  lemma ConfiguredInOrder(setting: seq<Key>)
    ensures ConfiguredKeys(setting).Ok? <==> forall k | k in setting && k != "" :: |k| >= 32
    ensures ConfiguredKeys(setting).Ok? ==>
              exists at: seq<nat> :: Places(setting, at) && EntriesAt(setting, at, ConfiguredKeys(setting).value)
    ensures ConfiguredKeys(setting).Err? ==> ConfiguredKeys(setting).error == KeyRejected
  {
    var at := NonEmptyPlaces(setting);
    forall k ensures k in NonEmpty(setting) <==> k in setting && k != "" {
      if k in NonEmpty(setting) {
        var i :| 0 <= i < |NonEmpty(setting)| && NonEmpty(setting)[i] == k;
        assert at[i] in at;
      }
      if k in setting && k != "" {
        var p :| 0 <= p < |setting| && setting[p] == k;
        assert p in at;
        var i :| 0 <= i < |at| && at[i] == p;
        assert NonEmpty(setting)[i] == k;
      }
    }
  }

  /** The first entry that is not blank. */
  ghost predicate FirstKey(setting: seq<Key>, i: nat) {
    i < |setting| && setting[i] != "" && forall j | 0 <= j < i :: setting[j] == ""
  }

  lemma FirstConfigured(setting: seq<Key>) returns (i: nat)
    requires ConfiguredKeys(setting).Ok? && ConfiguredKeys(setting).value != []
    ensures FirstKey(setting, i) && ConfiguredKeys(setting).value[0] == setting[i]
  {
    var at := NonEmptyPlaces(setting);
    i := at[0];
    assert i in at;
    LeastPlace(at);
    forall j: nat | j < i ensures setting[j] == "" {
      assert j !in at;
    }
  }

  lemma LeastPlace(at: seq<nat>)
    requires at != [] && forall i, j | 0 <= i < j < |at| :: at[i] < at[j]
    ensures forall p | p in at :: at[0] <= p
  {
  }

  lemma NoneConfigured(setting: seq<Key>)
    requires NonEmpty(setting) == []
    ensures forall k | k in setting :: k == ""
  {
    var at := NonEmptyPlaces(setting);
    forall k | k in setting ensures k == "" {
      var p: nat :| p < |setting| && setting[p] == k;
      assert p !in at;
    }
  }

  /** The first key with a fingerprint. */
  function FindKey(suite: Suite, keys: seq<Key>, fingerprint: string): (r: Option<Key>)
    ensures r.Some? ==> r.value in keys && suite.fingerprint(r.value) == fingerprint
    ensures r.None? ==> forall k | k in keys :: suite.fingerprint(k) != fingerprint
  {
    if keys == [] then None
    else if suite.fingerprint(keys[0]) == fingerprint then Some(keys[0])
    else FindKey(suite, keys[1..], fingerprint)
  }

  // ---- Frames ----

  /** What a stream is sealed with: key, header digest, nonce prefix and chunk size. */
  datatype Channel = Channel(suite: Suite, key: Key, digest: Bytes, prefix: Bytes, chunkSize: nat)

  function Nonce(ch: Channel, counter: nat): Bytes {
    ch.prefix + BigEndian(counter, 8)
  }

  /** The associated data binds the header, the position and whether the chunk is the last. */
  function Aad(ch: Channel, counter: nat, final: bool): Bytes {
    ch.digest + BigEndian(counter, 8) + [if final then 1 else 0]
  }

  function Sealed(ch: Channel, counter: nat, final: bool, chunk: Bytes): Bytes {
    ch.suite.seal(ch.key, Nonce(ch, counter), chunk, Aad(ch, counter, final))
  }

  function Opened(ch: Channel, counter: nat, final: bool, sealed: Bytes): Option<Bytes> {
    ch.suite.unseal(ch.key, Nonce(ch, counter), sealed, Aad(ch, counter, final))
  }

  function Frame(sealed: Bytes): Bytes {
    BigEndian(|sealed|, 4) + sealed
  }

  /** The chunks of a plaintext: full ones, then a last one that is empty only for an empty plaintext. */
  function Chunks(plain: Bytes, size: nat): (r: seq<Bytes>)
    requires size > 0
    ensures r != []
    ensures forall c | c in r :: |c| <= size
  {
    if |plain| <= size then [plain] else [plain[..size]] + Chunks(plain[size..], size)
  }

  function Concat(chunks: seq<Bytes>): Bytes {
    if chunks == [] then [] else chunks[0] + Concat(chunks[1..])
  }

  /** The frames of the chunks from position `counter` on. */
  function Body(ch: Channel, chunks: seq<Bytes>, counter: nat): Bytes {
    if chunks == [] then []
    else Frame(Sealed(ch, counter, |chunks| == 1, chunks[0])) + Body(ch, chunks[1..], counter + 1)
  }

  /** The frames of a plaintext, cut as it is read. */
  function SealAll(ch: Channel, plain: Bytes, counter: nat): Bytes
    requires ch.chunkSize > 0
    decreases |plain|
  {
    if |plain| <= ch.chunkSize then Frame(Sealed(ch, counter, true, plain))
    else
      Frame(Sealed(ch, counter, false, plain[..ch.chunkSize])) + SealAll(ch, plain[ch.chunkSize..], counter + 1)
  }

  function FrameCount(length: nat, size: nat): (n: nat)
    requires size > 0
    ensures n >= 1
  {
    if length <= size then 1 else 1 + FrameCount(length - size, size)
  }

  function HeaderFor(suite: Suite, key: Key, chunkSize: int, prefix: Bytes): Header {
    Header(ALGORITHM, suite.fingerprint(key), chunkSize, prefix)
  }

  function Preamble(header: Bytes): Bytes {
    MAGIC + BigEndian(|header|, 4) + header
  }

  /** The channel a header and a key stand for. */
  function ChannelOf(suite: Suite, key: Key, header: Bytes, chunkSize: nat, prefix: Bytes): Channel {
    Channel(suite, key, suite.digest(header), prefix, chunkSize)
  }

  /** The complete encrypted file of a plaintext. */
  function Encrypted(suite: Suite, key: Key, chunkSize: nat, prefix: Bytes, plain: Bytes): Bytes
    requires chunkSize > 0
  {
    var header := suite.encode(HeaderFor(suite, key, chunkSize, prefix));
    Preamble(header) + SealAll(ChannelOf(suite, key, header, chunkSize, prefix), plain, 0)
  }

  lemma Snoc(a: Bytes, b: Bytes, c: Bytes)
    ensures a + (b + c) == a + b + c
  {
  }

  /** With the rest sealed from position `counter` on, the content becomes the target. */
  ghost predicate Leads(ch: Channel, content: Bytes, rest: Bytes, counter: nat, target: Bytes)
    requires ch.chunkSize > 0
  {
    content + SealAll(ch, rest, counter) == target
  }

  /** One frame further, or at the end. */
  lemma LeadsOn(ch: Channel, content: Bytes, rest: Bytes, counter: nat, target: Bytes)
    requires ch.chunkSize > 0 && Leads(ch, content, rest, counter, target)
    ensures
      if |rest| <= ch.chunkSize then content + Frame(Sealed(ch, counter, true, rest)) == target
      else Leads(
             ch, content + Frame(Sealed(ch, counter, false, rest[..ch.chunkSize])), rest[ch.chunkSize..], counter + 1, target)
  {
    if |rest| > ch.chunkSize {
      Snoc(
        content, Frame(Sealed(ch, counter, false, rest[..ch.chunkSize])), SealAll(ch, rest[ch.chunkSize..], counter + 1));
    }
  }

  /** After `counter` frames, the rest takes the others. */
  ghost predicate CountsTo(counter: nat, length: nat, size: nat, count: nat)
    requires size > 0
  {
    counter + FrameCount(length, size) == count
  }

  lemma CountsOn(counter: nat, length: nat, size: nat, count: nat)
    requires size > 0 && CountsTo(counter, length, size, count)
    ensures if length <= size then counter + 1 == count else CountsTo(counter + 1, length - size, size, count)
  {
  }

  /** The next chunk of the rest has been read. */
  ghost predicate Ahead(rest: Bytes, size: nat, pending: Bytes) {
    pending == if size <= |rest| then rest[..size] else rest
  }

  /** Read the chunk after the pending one, to learn whether that is the last. */
  method ReadAhead(src: ByteStream, pending: Bytes, size: nat, ghost rest: Bytes) returns (following: Bytes)
    requires src.Valid() && size > 0 && Ahead(rest, size, pending) && src.Rest() == rest[|pending|..]
    modifies src
    ensures src.Valid()
    ensures
      if following == [] then |rest| <= size && pending == rest
      else
        && |rest| > size && pending == rest[..size]
        && Ahead(rest[size..], size, following) && src.Rest() == rest[size..][|following|..]
  {
    following := [];
    if |pending| == size {
      following := src.Read(size);
    }
  }

  /**
   * The encryption loop: seal what is left of `src`, reading one chunk ahead so that the last one can be marked final.
   * The counter has eight bytes; false when it runs out.
   */
  method SealStream(ch: Channel, src: ByteStream, dst: ByteStream) returns (ok: bool)
    requires src != dst && src.Valid() && dst.Valid() && ch.chunkSize > 0
    modifies src, dst
    ensures dst.Valid()
    ensures ok <==> FrameCount(|old(src.Rest())|, ch.chunkSize) <= COUNTER_LIMIT
    ensures ok ==> dst.content == old(dst.content) + SealAll(ch, old(src.Rest()), 0)
  {
    var size := ch.chunkSize;
    ghost var rest := src.Rest();
    ghost var target := dst.content + SealAll(ch, rest, 0);
    ghost var count := FrameCount(|rest|, size);
    var counter := 0;
    var pending := src.Read(size);
    while true
      invariant src.Valid() && dst.Valid() && counter < COUNTER_LIMIT
      invariant CountsTo(counter, |rest|, size, count) && Ahead(rest, size, pending) && src.Rest() == rest[|pending|..]
      invariant Leads(ch, dst.content, rest, counter, target)
      decreases |rest|
    {
      var following := ReadAhead(src, pending, size, rest);
      LeadsOn(ch, dst.content, rest, counter, target);
      CountsOn(counter, |rest|, size, count);
      dst.Write(Frame(Sealed(ch, counter, following == [], pending)));
      if following == [] {
        return true;
      }
      rest := rest[size..];
      pending := following;
      counter := counter + 1;
      if counter == COUNTER_LIMIT {
        return false;
      }
    }
  }

  /** `dst` got the file of `plain`, encrypted under this key, within the counter's range. */
  ghost predicate EncryptedUnder(
    suite: Suite, key: Key, chunkSize: int, prefix: Bytes, plain: Bytes, before: Bytes, after: Bytes, fingerprint: string)
  {
    && 0 < chunkSize <= MAX_CHUNK_SIZE && fingerprint == suite.fingerprint(key)
    && after == before + Encrypted(suite, key, chunkSize, prefix, plain) && FrameCount(|plain|, chunkSize) <= COUNTER_LIMIT
  }

  /** Encrypt `src` into `dst` under the first entry of the setting that is not blank; `prefix` is the random nonce prefix. */
  method EncryptStream(
    suite: Suite, setting: seq<Key>, src: ByteStream, dst: ByteStream, chunkSize: int, prefix: Bytes)
    returns (r: Result<string, Error>)
    requires src != dst && src.Valid() && dst.Valid() && |prefix| == PREFIX_BYTES
    modifies src, dst
    ensures dst.Valid()
    ensures r.Ok? ==> forall k | k in setting && k != "" :: |k| >= MIN_KEY_LENGTH
    ensures r.Ok? ==>
      exists i: nat ::
        && FirstKey(setting, i)
        && EncryptedUnder(suite, setting[i], chunkSize, prefix, old(src.Rest()), old(dst.content), dst.content, r.value)
    ensures r.Err? ==>
      || (r.error == KeyRejected && exists k :: k in setting && k != "" && |k| < MIN_KEY_LENGTH)
      || (r.error == KeysNotConfigured && forall k | k in setting :: k == "")
      || (r.error == ChunkSizeOutOfRange && !(0 < chunkSize <= MAX_CHUNK_SIZE))
      || (r.error == CounterOverflow && 0 < chunkSize && FrameCount(|old(src.Rest())|, chunkSize) > COUNTER_LIMIT)
  {
    ConfiguredInOrder(setting);
    var keys := ConfiguredKeys(setting);
    if keys.Err? {
      return Err(keys.error);
    }
    if keys.value == [] {
      NoneConfigured(setting);
      return Err(KeysNotConfigured);
    }
    if !(0 < chunkSize <= MAX_CHUNK_SIZE) {
      return Err(ChunkSizeOutOfRange);
    }
    ghost var first := FirstConfigured(setting);
    var ok := EncryptUnder(suite, keys.value[0], src, dst, chunkSize, prefix);
    if !ok {
      return Err(CounterOverflow);
    }
    return Ok(suite.fingerprint(keys.value[0]));
  }

  /** The header, then the sealed chunks. */
  method EncryptUnder(suite: Suite, key: Key, src: ByteStream, dst: ByteStream, chunkSize: int, prefix: Bytes) returns (ok: bool)
    requires src != dst && src.Valid() && dst.Valid() && 0 < chunkSize <= MAX_CHUNK_SIZE
    modifies src, dst
    ensures dst.Valid()
    ensures ok <==> FrameCount(|old(src.Rest())|, chunkSize) <= COUNTER_LIMIT
    ensures ok ==>
      EncryptedUnder(suite, key, chunkSize, prefix, old(src.Rest()), old(dst.content), dst.content, suite.fingerprint(key))
  {
    var header := suite.encode(HeaderFor(suite, key, chunkSize, prefix));
    var ch := ChannelOf(suite, key, header, chunkSize, prefix);
    Snoc(dst.content, Preamble(header), SealAll(ch, src.Rest(), 0));
    dst.Write(Preamble(header));
    ok := SealStream(ch, src, dst);
  }

  // ---- Decryption ----

  datatype Framing = End | Got(sealed: Bytes, rest: Bytes) | Bad(error: Error)

  /** Read one length-prefixed frame. */
  function ReadFrame(s: Bytes, chunkSize: nat): (r: Framing)
    ensures r.Got? ==> |r.rest| < |s|
    ensures r.End? <==> s == []
  {
    if s == [] then End
    else if |s| < 4 then Bad(Truncated)
    else
      var length := FromBigEndian(s[..4]);
      if !(TAG_LENGTH <= length <= chunkSize + TAG_LENGTH) then Bad(CorruptFrame)
      else if |s| - 4 < length then Bad(Truncated)
      else Got(s[4..4 + length], s[4 + length..])
  }

  /** What was written before decryption ended, and how it ended. */
  datatype Decryption = Decryption(written: Bytes, error: Option<Error>)

  /** Decrypt `current` and everything after it: a frame is opened only once it is known whether it is the last. */
  function OpenFrames(ch: Channel, current: Bytes, rest: Bytes, counter: nat, written: Bytes): Decryption
    decreases |rest|
  {
    match ReadFrame(rest, ch.chunkSize)
    case Bad(e) => Decryption(written, Some(e))
    case End =>
      if counter >= COUNTER_LIMIT then Decryption(written, Some(CounterOverflow))
      else (
        match Opened(ch, counter, true, current)
        case None => Decryption(written, Some(AuthenticationFailed))
        case Some(p) => Decryption(written + p, None))
    case Got(following, rest') =>
      if counter >= COUNTER_LIMIT then Decryption(written, Some(CounterOverflow))
      else
        match Opened(ch, counter, false, current)
        case None => Decryption(written, Some(AuthenticationFailed))
        case Some(p) => OpenFrames(ch, following, rest', counter + 1, written + p)
  }

  function OpenBody(ch: Channel, body: Bytes): Decryption {
    match ReadFrame(body, ch.chunkSize)
    case Bad(e) => Decryption([], Some(e))
    case End => Decryption([], Some(NoData))
    case Got(first, rest) => OpenFrames(ch, first, rest, 0, [])
  }

  /** Everything before the first frame: the header, its bytes and what follows, or the refusal. */
  datatype Opening = Opening(header: Header, raw: Bytes, body: Bytes)

  function ReadPreamble(suite: Suite, s: Bytes): (r: Result<Opening, Error>)
    ensures r.Ok? ==> r.value.header.chunkSize > 0 && s == Preamble(r.value.raw) + r.value.body
  {
    if |s| < 5 || s[..5] != MAGIC then Err(NotAnEnvelope)
    else if |s| < 9 then Err(Truncated)
    else
      var length := FromBigEndian(s[5..9]);
      if !(0 < length <= MAX_HEADER_BYTES) then Err(CorruptHeader)
      else if |s| - 9 < length then Err(Truncated)
      else
        match suite.decode(s[9..9 + length])
        case None => Err(CorruptHeader)
        case Some(h) =>
          if h.algorithm != ALGORITHM then Err(UnsupportedAlgorithm)
          else if !(0 < h.chunkSize <= MAX_CHUNK_SIZE) || |h.prefix| != PREFIX_BYTES then Err(CorruptHeader)
          else
            FromBigEndianRoundTrip(s[5..9]);
            assert s == s[..5] + s[5..9] + s[9..9 + length] + s[9 + length..];
            Ok(Opening(h, s[9..9 + length], s[9 + length..]))
  }

  /** What decrypting a file writes, and the fingerprint of the key or the error it ends with. */
  function Decrypt(suite: Suite, setting: seq<Key>, s: Bytes): (Bytes, Result<string, Error>) {
    match ReadPreamble(suite, s)
    case Err(e) => ([], Err(e))
    case Ok(o) =>
      match ConfiguredKeys(setting)
      case Err(e) => ([], Err(e))
      case Ok(keys) =>
        match FindKey(suite, keys, o.header.fingerprint)
        case None => ([], Err(KeyMissing(o.header.fingerprint)))
        case Some(key) =>
          var d := OpenBody(ChannelOf(suite, key, o.raw, o.header.chunkSize, o.header.prefix), o.body);
          (d.written, if d.error.None? then Ok(o.header.fingerprint) else Err(d.error.value))
  }

  method ReadExactly(src: ByteStream, size: nat) returns (r: Result<Bytes, Error>)
    requires src.Valid()
    modifies src
    ensures src.Valid() && src.content == old(src.content)
    ensures r.Ok? <==> |old(src.Rest())| >= size
    ensures r.Ok? ==> r.value == old(src.Rest())[..size] && src.Rest() == old(src.Rest())[size..]
    ensures r.Err? ==> r.error == Truncated
  {
    var data := src.Read(size);
    if |data| != size {
      return Err(Truncated);
    }
    return Ok(data);
  }

  /** The inner reader of `decrypt_stream`: a frame, the end of the stream, or an error. */
  method ReadSealed(src: ByteStream, chunkSize: nat) returns (r: Result<Option<Bytes>, Error>)
    requires src.Valid()
    modifies src
    ensures src.Valid()
    ensures match ReadFrame(old(src.Rest()), chunkSize)
            case End => r == Ok(None)
            case Bad(e) => r == Err(e)
            case Got(sealed, rest) => r == Ok(Some(sealed)) && src.Rest() == rest
  {
    ghost var s := src.Rest();
    var raw := src.Read(4);
    if raw == [] {
      return Ok(None);
    }
    if |raw| != 4 {
      return Err(Truncated);
    }
    var length := FromBigEndian(raw);
    if !(TAG_LENGTH <= length <= chunkSize + TAG_LENGTH) {
      return Err(CorruptFrame);
    }
    var sealed := ReadExactly(src, length);
    if sealed.Err? {
      return Err(sealed.error);
    }
    assert s[4..][..length] == s[4..4 + length] && s[4..][length..] == s[4 + length..];
    return Ok(Some(sealed.value));
  }

  /** The decryption loop: one frame of lookahead, each frame written as soon as it is authenticated. */
  method OpenStream(ch: Channel, src: ByteStream, dst: ByteStream) returns (error: Option<Error>)
    requires src != dst && src.Valid() && dst.Valid()
    modifies src, dst
    ensures dst.Valid()
    ensures
      var d := OpenBody(ch, old(src.Rest()));
      dst.content == old(dst.content) + d.written && error == d.error
  {
    ghost var d := OpenBody(ch, src.Rest());
    ghost var base := dst.content;
    ghost var written: Bytes := [];
    var counter := 0;
    var first := ReadSealed(src, ch.chunkSize);
    if first.Err? {
      return Some(first.error);
    }
    var current := first.value;
    if current.None? {
      return Some(NoData);
    }
    while current.Some?
      invariant src.Valid() && dst.Valid() && dst.content == base + written
      invariant current.Some? ==> d == OpenFrames(ch, current.value, src.Rest(), counter, written)
      invariant current.None? ==> d == Decryption(written, None)
      decreases if current.Some? then 1 + |src.Rest()| else 0
    {
      var following := ReadSealed(src, ch.chunkSize);
      if following.Err? {
        return Some(following.error);
      }
      var final := following.value.None?;
      if counter >= COUNTER_LIMIT {
        return Some(CounterOverflow);
      }
      var plain := Opened(ch, counter, final, current.value);
      if plain.None? {
        return Some(AuthenticationFailed);
      }
      Snoc(base, written, plain.value);
      written := written + plain.value;
      dst.Write(plain.value);
      current := following.value;
      counter := counter + 1;
    }
    return None;
  }

  /** Read and check everything before the first frame. */
  method ReadHeader(suite: Suite, src: ByteStream) returns (r: Result<(Header, Bytes), Error>)
    requires src.Valid()
    modifies src
    ensures src.Valid()
    ensures match ReadPreamble(suite, old(src.Rest()))
            case Err(e) => r == Err(e)
            case Ok(o) => r == Ok((o.header, o.raw)) && src.Rest() == o.body
  {
    ghost var s := src.Rest();
    var magic := src.Read(5);
    if magic != MAGIC {
      return Err(NotAnEnvelope);
    }
    var lengthBytes := ReadExactly(src, 4);
    if lengthBytes.Err? {
      return Err(lengthBytes.error);
    }
    assert s[5..][..4] == s[5..9] && s[5..][4..] == s[9..];
    var length := FromBigEndian(lengthBytes.value);
    if !(0 < length <= MAX_HEADER_BYTES) {
      return Err(CorruptHeader);
    }
    var raw := ReadExactly(src, length);
    if raw.Err? {
      return Err(raw.error);
    }
    assert s[9..][..length] == s[9..9 + length] && s[9..][length..] == s[9 + length..];
    var header := suite.decode(raw.value);
    if header.None? {
      return Err(CorruptHeader);
    }
    if header.value.algorithm != ALGORITHM {
      return Err(UnsupportedAlgorithm);
    }
    if !(0 < header.value.chunkSize <= MAX_CHUNK_SIZE) || |header.value.prefix| != PREFIX_BYTES {
      return Err(CorruptHeader);
    }
    return Ok((header.value, raw.value));
  }

  /** Decrypt `src` into `dst`; the fingerprint of the key that opened it, or the refusal. */
  method DecryptStream(suite: Suite, setting: seq<Key>, src: ByteStream, dst: ByteStream)
    returns (r: Result<string, Error>)
    requires src != dst && src.Valid() && dst.Valid()
    modifies src, dst
    ensures dst.Valid()
    ensures dst.content == old(dst.content) + Decrypt(suite, setting, old(src.Rest())).0
    ensures r == Decrypt(suite, setting, old(src.Rest())).1
  {
    var preamble := ReadHeader(suite, src);
    if preamble.Err? {
      return Err(preamble.error);
    }
    var header, raw := preamble.value.0, preamble.value.1;
    var keys := ConfiguredKeys(setting);
    if keys.Err? {
      return Err(keys.error);
    }
    var key := FindKey(suite, keys.value, header.fingerprint);
    if key.None? {
      return Err(KeyMissing(header.fingerprint));
    }
    var error := OpenStream(ChannelOf(suite, key.value, raw, header.chunkSize, header.prefix), src, dst);
    if error.Some? {
      return Err(error.value);
    }
    return Ok(header.fingerprint);
  }
}
