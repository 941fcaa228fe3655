/** Round trip and tamper resistance of the envelope, given the laws of its AEAD. */
module EnvelopeLaws {
  import opened Outcomes
  import opened Bytes
  import opened Envelope

  const DIGEST_LENGTH: nat := 32

  // ---- The laws of the foreign pieces ----

  ghost predicate SealOpens(suite: Suite, k: Key, n: Bytes, p: Bytes, a: Bytes) {
    && suite.unseal(k, n, suite.seal(k, n, p, a), a) == Some(p)
    && |suite.seal(k, n, p, a)| == |p| + TAG_LENGTH
  }

  /** What is sealed opens under the same nonce and associated data, and is a tag longer. */
  ghost predicate AeadLaw(suite: Suite) {
    forall k, n, p, a :: SealOpens(suite, k, n, p, a)
  }

  /** A header survives its textual form, which fits the reader's limit. */
  ghost predicate HeaderLaw(suite: Suite, h: Header) {
    suite.decode(suite.encode(h)) == Some(h) && 0 < |suite.encode(h)| <= MAX_HEADER_BYTES
  }

  // ---- Round trip ----

  lemma BodyCons(ch: Channel, chunk: Bytes, rest: seq<Bytes>, counter: nat)
    ensures Body(ch, [chunk] + rest, counter) == Frame(Sealed(ch, counter, rest == [], chunk)) + Body(ch, rest, counter + 1)
  {
    assert ([chunk] + rest)[1..] == rest;
  }

  /** Cutting while reading and cutting beforehand give the same frames. */
  lemma {:induction false} SealAllIsBody(ch: Channel, plain: Bytes, counter: nat)
    requires ch.chunkSize > 0
    ensures SealAll(ch, plain, counter) == Body(ch, Chunks(plain, ch.chunkSize), counter)
    decreases |plain|
  {
    var size := ch.chunkSize;
    if |plain| <= size {
      BodyCons(ch, plain, [], counter);
      assert [plain] + [] == [plain];
      assert Body(ch, [], counter + 1) == [];
    } else {
      SealAllIsBody(ch, plain[size..], counter + 1);
      BodyCons(ch, plain[..size], Chunks(plain[size..], size), counter);
    }
  }

  lemma {:induction false} FrameCountIsChunks(plain: Bytes, size: nat)
    requires size > 0
    ensures FrameCount(|plain|, size) == |Chunks(plain, size)|
    decreases |plain|
  {
    if |plain| > size {
      FrameCountIsChunks(plain[size..], size);
    }
  }

  lemma {:induction false} ChunksConcat(plain: Bytes, size: nat)
    requires size > 0
    ensures Concat(Chunks(plain, size)) == plain
    decreases |plain|
  {
    var chunks := Chunks(plain, size);
    if |plain| <= size {
      assert chunks[1..] == [];
    } else {
      assert chunks[1..] == Chunks(plain[size..], size);
      ChunksConcat(plain[size..], size);
    }
  }

  lemma FrameReadsBack(sealed: Bytes, rest: Bytes, chunkSize: nat)
    requires TAG_LENGTH <= |sealed| <= chunkSize + TAG_LENGTH && chunkSize <= MAX_CHUNK_SIZE
    ensures ReadFrame(Frame(sealed) + rest, chunkSize) == Got(sealed, rest)
  {
    var s := Frame(sealed) + rest;
    Widths();
    BigEndianRoundTrip(|sealed|, 4);
    assert s[..4] == BigEndian(|sealed|, 4);
    assert s[4..4 + |sealed|] == sealed && s[4 + |sealed|..] == rest;
  }

  /** Conversely, a frame that is read is the framing of what was read. */
  lemma ReadFrameInverts(s: Bytes, chunkSize: nat)
    requires ReadFrame(s, chunkSize).Got?
    ensures var r := ReadFrame(s, chunkSize); s == Frame(r.sealed) + r.rest
  {
    var r := ReadFrame(s, chunkSize);
    FromBigEndianRoundTrip(s[..4]);
    assert s == s[..4] + r.sealed + r.rest;
  }

  ghost predicate Fits(ch: Channel, chunks: seq<Bytes>) {
    0 < ch.chunkSize <= MAX_CHUNK_SIZE && forall c | c in chunks :: |c| <= ch.chunkSize
  }

  /** Every frame of the chunks opens to its chunk. */
  ghost predicate Authentic(ch: Channel, chunks: seq<Bytes>, counter: nat) {
    forall i: nat | i < |chunks| :: FrameOpens(ch, counter + i, i == |chunks| - 1, chunks[i])
  }

  ghost predicate FrameOpens(ch: Channel, counter: nat, final: bool, chunk: Bytes) {
    SealOpens(ch.suite, ch.key, Nonce(ch, counter), chunk, Aad(ch, counter, final))
  }

  lemma AuthenticTail(ch: Channel, chunks: seq<Bytes>, counter: nat)
    requires Authentic(ch, chunks, counter) && chunks != []
    ensures FrameOpens(ch, counter, |chunks| == 1, chunks[0])
    ensures Authentic(ch, chunks[1..], counter + 1)
  {
    assert FrameOpens(ch, counter + 0, 0 == |chunks| - 1, chunks[0]);
    forall i: nat | i < |chunks[1..]| ensures FrameOpens(ch, counter + 1 + i, i == |chunks[1..]| - 1, chunks[1..][i]) {
      assert FrameOpens(ch, counter + (i + 1), i + 1 == |chunks| - 1, chunks[i + 1]);
    }
  }

  lemma Assoc(a: Bytes, b: Bytes, c: Bytes)
    ensures a + (b + c) == (a + b) + c
  {
  }

  lemma {:induction false} FramesOpen(ch: Channel, chunks: seq<Bytes>, counter: nat, written: Bytes)
    requires Authentic(ch, chunks, counter) && Fits(ch, chunks) && chunks != [] && counter + |chunks| <= COUNTER_LIMIT
    ensures OpenFrames(
              ch, Sealed(ch, counter, |chunks| == 1, chunks[0]), Body(ch, chunks[1..], counter + 1), counter, written) ==
            Decryption(written + Concat(chunks), None)
    decreases chunks
  {
    var rest := chunks[1..];
    AuthenticTail(ch, chunks, counter);
    Assoc(written, chunks[0], Concat(rest));
    if rest == [] {
      assert Body(ch, rest, counter + 1) == [];
      assert written + chunks[0] + [] == written + chunks[0];
    } else {
      var next := Sealed(ch, counter + 1, |rest| == 1, rest[0]);
      assert rest[0] in chunks;
      AuthenticTail(ch, rest, counter + 1);
      FrameReadsBack(next, Body(ch, rest[1..], counter + 2), ch.chunkSize);
      FramesOpen(ch, rest, counter + 1, written + chunks[0]);
    }
  }

  lemma BodyOpens(ch: Channel, chunks: seq<Bytes>)
    requires Authentic(ch, chunks, 0) && Fits(ch, chunks) && chunks != [] && |chunks| <= COUNTER_LIMIT
    ensures OpenBody(ch, Body(ch, chunks, 0)) == Decryption(Concat(chunks), None)
  {
    var first := Sealed(ch, 0, |chunks| == 1, chunks[0]);
    AuthenticTail(ch, chunks, 0);
    FrameReadsBack(first, Body(ch, chunks[1..], 1), ch.chunkSize);
    FramesOpen(ch, chunks, 0, []);
    assert [] + Concat(chunks) == Concat(chunks);
  }

  lemma PreambleReadsBack(suite: Suite, h: Header, body: Bytes)
    requires HeaderLaw(suite, h)
    requires h.algorithm == ALGORITHM && 0 < h.chunkSize <= MAX_CHUNK_SIZE && |h.prefix| == PREFIX_BYTES
    ensures ReadPreamble(suite, Preamble(suite.encode(h)) + body) == Ok(Opening(h, suite.encode(h), body))
  {
    var raw := suite.encode(h);
    var s := Preamble(raw) + body;
    Widths();
    BigEndianRoundTrip(|raw|, 4);
    assert s[..5] == MAGIC && s[5..9] == BigEndian(|raw|, 4);
    assert s[9..9 + |raw|] == raw && s[9 + |raw|..] == body;
  }

  /** A key list that still holds the key, and no other key of its fingerprint, finds it. */
  lemma KeyIsFound(suite: Suite, keys: seq<Key>, key: Key)
    requires key in keys && forall k | k in keys && suite.fingerprint(k) == suite.fingerprint(key) :: k == key
    ensures FindKey(suite, keys, suite.fingerprint(key)) == Some(key)
  {
  }

  /**
   * Decryption after encryption gives back every plaintext under every legal chunk size, under any later key list
   * that still holds the key and has no second key of the same fingerprint.
   */
  lemma RoundTrip(suite: Suite, key: Key, chunkSize: nat, prefix: Bytes, plain: Bytes, setting: seq<Key>, keys: seq<Key>)
    requires AeadLaw(suite) && HeaderLaw(suite, HeaderFor(suite, key, chunkSize, prefix))
    requires 0 < chunkSize <= MAX_CHUNK_SIZE && |prefix| == PREFIX_BYTES
    requires FrameCount(|plain|, chunkSize) <= COUNTER_LIMIT
    requires ConfiguredKeys(setting) == Ok(keys) && key in keys
    requires forall k | k in keys && suite.fingerprint(k) == suite.fingerprint(key) :: k == key
    ensures Decrypt(suite, setting, Encrypted(suite, key, chunkSize, prefix, plain)) ==
            (plain, Ok(suite.fingerprint(key)))
  {
    var h := HeaderFor(suite, key, chunkSize, prefix);
    var raw := suite.encode(h);
    var ch := ChannelOf(suite, key, raw, chunkSize, prefix);
    var chunks := Chunks(plain, chunkSize);
    SealAllIsBody(ch, plain, 0);
    FrameCountIsChunks(plain, chunkSize);
    ChunksConcat(plain, chunkSize);
    assert Authentic(ch, chunks, 0);
    BodyOpens(ch, chunks);
    PreambleReadsBack(suite, h, SealAll(ch, plain, 0));
    KeyIsFound(suite, keys, key);
  }

  /** No nonce is used twice in a stream. */
  lemma NoncesDistinct(ch: Channel, i: nat, j: nat)
    requires i < j < COUNTER_LIMIT
    ensures Nonce(ch, i) != Nonce(ch, j)
  {
    if Nonce(ch, i) == Nonce(ch, j) {
      Widths();
      assert Nonce(ch, i)[|ch.prefix|..] == BigEndian(i, 8) && Nonce(ch, j)[|ch.prefix|..] == BigEndian(j, 8);
      BigEndianInjective(i, j, 8);
      assert false;
    }
  }

  // ---- Tampering ----

  /** A stream that was sealed under a key: its header bytes, what the header says, and its chunks. */
  datatype Stream = Stream(header: Bytes, chunkSize: nat, prefix: Bytes, chunks: seq<Bytes>)

  function StreamChannel(suite: Suite, key: Key, s: Stream): Channel {
    ChannelOf(suite, key, s.header, s.chunkSize, s.prefix)
  }

  function StreamBody(suite: Suite, key: Key, s: Stream): Bytes {
    Body(StreamChannel(suite, key, s), s.chunks, 0)
  }

  /** Chunk i of a stream was sealed as ciphertext c under nonce n and associated data a. */
  ghost predicate WasSealed(suite: Suite, key: Key, s: Stream, i: nat, n: Bytes, c: Bytes, a: Bytes) {
    var ch := StreamChannel(suite, key, s);
    && i < |s.chunks|
    && n == Nonce(ch, i) && a == Aad(ch, i, i == |s.chunks| - 1) && c == suite.seal(key, n, s.chunks[i], a)
  }

  ghost predicate SealedInHistory(suite: Suite, key: Key, history: set<Stream>, n: Bytes, c: Bytes, a: Bytes) {
    exists s, i :: s in history && WasSealed(suite, key, s, i, n, c, a)
  }

  /** Ideal authentication: only what was sealed under the key in some stream of the history opens. */
  ghost predicate Unforgeable(suite: Suite, key: Key, history: set<Stream>) {
    forall n, c, a :: suite.unseal(key, n, c, a).Some? ==> SealedInHistory(suite, key, history, n, c, a)
  }

  /** Two streams drew the same random prefix: one header, so one channel. */
  ghost predicate SameHeader(s: Stream, t: Stream) {
    s.header == t.header && s.chunkSize == t.chunkSize && s.prefix == t.prefix
  }

  /** The streams of a history are complete, and a header digest stands for one header. */
  ghost predicate Issued(suite: Suite, key: Key, history: set<Stream>) {
    && (forall h :: |suite.digest(h)| == DIGEST_LENGTH)
    && (forall s | s in history ::
          s.chunks != [] && |s.chunks| <= COUNTER_LIMIT && Fits(StreamChannel(suite, key, s), s.chunks))
    && (forall s, t | s in history && t in history :: suite.digest(s.header) == suite.digest(t.header) ==> SameHeader(s, t))
  }

  /** Exactly the frames of the issued streams open: they do, and nothing else does. */
  ghost predicate World(suite: Suite, key: Key, history: set<Stream>) {
    && (forall s | s in history :: Authentic(StreamChannel(suite, key, s), s.chunks, 0))
    && Unforgeable(suite, key, history)
    && Issued(suite, key, history)
  }

  /** No other stream of the history drew the prefix of this one. */
  ghost predicate Alone(history: set<Stream>, s: Stream) {
    forall t | t in history && SameHeader(s, t) :: t == s
  }

  /** The frames a history sealed, opened by looking them up. */
  ghost function Lookup(suite: Suite, key: Key, history: set<Stream>): (Key, Bytes, Bytes, Bytes) -> Option<Bytes> {
    (k: Key, n: Bytes, c: Bytes, a: Bytes) =>
      if k == key && SealedInHistory(suite, key, history, n, c, a) && |c| >= TAG_LENGTH
      then Some(c[..|c| - TAG_LENGTH]) else None
  }

  /** The hypotheses are consistent: for every history of issued streams there is a suite whose world it is. */
  lemma WorldExists(suite: Suite, tag: Bytes, key: Key, history: set<Stream>)
    requires |tag| == TAG_LENGTH && forall k, n, p, a :: suite.seal(k, n, p, a) == p + tag
    requires Issued(suite, key, history)
    ensures World(suite.(unseal := Lookup(suite, key, history)), key, history)
  {
    var ideal := suite.(unseal := Lookup(suite, key, history));
    forall n, c, a ensures SealedInHistory(suite, key, history, n, c, a) ==> SealedInHistory(ideal, key, history, n, c, a) {
      if SealedInHistory(suite, key, history, n, c, a) {
        var s, i :| s in history && WasSealed(suite, key, s, i, n, c, a);
        assert WasSealed(ideal, key, s, i, n, c, a);
      }
    }
    forall s | s in history ensures Authentic(StreamChannel(ideal, key, s), s.chunks, 0) {
      var ch := StreamChannel(ideal, key, s);
      forall i: nat | i < |s.chunks| ensures FrameOpens(ch, 0 + i, i == |s.chunks| - 1, s.chunks[i]) {
        var n, a := Nonce(ch, i), Aad(ch, i, i == |s.chunks| - 1);
        assert WasSealed(suite, key, s, i, n, s.chunks[i] + tag, a);
        assert (s.chunks[i] + tag)[..|s.chunks[i]|] == s.chunks[i];
      }
    }
    assert Issued(ideal, key, history);
  }

  /** Associated data determines header digest, position and finality. */
  lemma AadInjective(ch: Channel, i: nat, final: bool, ch': Channel, j: nat, final': bool)
    requires |ch.digest| == |ch'.digest| && i < COUNTER_LIMIT && j < COUNTER_LIMIT
    requires Aad(ch, i, final) == Aad(ch', j, final')
    ensures ch.digest == ch'.digest && i == j && final == final'
  {
    var a, b := Aad(ch, i, final), Aad(ch', j, final');
    var n := |ch.digest|;
    assert a[..n] == ch.digest && b[..n] == ch'.digest;
    assert a[n..n + 8] == BigEndian(i, 8) && b[n..n + 8] == BigEndian(j, 8);
    assert a[n + 8] == b[n + 8];
    Widths();
    BigEndianInjective(i, j, 8);
  }

  /** Some stream with this header has the chunk at this position, with this finality. */
  ghost predicate Offered(history: set<Stream>, s: Stream, i: nat, final: bool, chunk: Bytes) {
    exists t :: t in history && SameHeader(s, t) && OfStream(t, i, final, chunk)
  }

  ghost predicate OfStream(t: Stream, i: nat, final: bool, chunk: Bytes) {
    i < |t.chunks| && t.chunks[i] == chunk && final == (i == |t.chunks| - 1)
  }

  /** Under an issued header only a frame of a stream with that header opens, at its own position and finality. */
  lemma OnlyOfferedOpens(suite: Suite, key: Key, history: set<Stream>, s: Stream, i: nat, final: bool, c: Bytes)
    requires World(suite, key, history) && s in history && i < COUNTER_LIMIT
    requires Opened(StreamChannel(suite, key, s), i, final, c).Some?
    ensures
      var p := Opened(StreamChannel(suite, key, s), i, final, c).value;
      Offered(history, s, i, final, p) && c == Sealed(StreamChannel(suite, key, s), i, final, p)
  {
    var ch := StreamChannel(suite, key, s);
    var n, a := Nonce(ch, i), Aad(ch, i, final);
    assert SealedInHistory(suite, key, history, n, c, a);
    var t, j :| t in history && WasSealed(suite, key, t, j, n, c, a);
    AadInjective(ch, i, final, StreamChannel(suite, key, t), j, j == |t.chunks| - 1);
    assert SameHeader(s, t);
    assert FrameOpens(ch, 0 + i, i == |t.chunks| - 1, t.chunks[i]);
    assert OfStream(t, i, final, t.chunks[i]);
  }

  lemma OfferedOpens(suite: Suite, key: Key, history: set<Stream>, s: Stream, i: nat, final: bool, p: Bytes)
    requires World(suite, key, history) && s in history && Offered(history, s, i, final, p)
    ensures FrameOpens(StreamChannel(suite, key, s), i, final, p) && |p| <= s.chunkSize && i < COUNTER_LIMIT
  {
    var t :| t in history && SameHeader(s, t) && OfStream(t, i, final, p);
    assert FrameOpens(StreamChannel(suite, key, t), 0 + i, i == |t.chunks| - 1, t.chunks[i]);
    assert t.chunks[i] in t.chunks;
  }

  /** Under a genuine header that no other stream shares, only the stream's own frame opens at a position. */
  lemma OnlyGenuineOpens(suite: Suite, key: Key, history: set<Stream>, s: Stream, i: nat, final: bool, c: Bytes)
    requires World(suite, key, history) && s in history && Alone(history, s) && i < COUNTER_LIMIT
    requires Opened(StreamChannel(suite, key, s), i, final, c).Some?
    ensures i < |s.chunks| && final == (i == |s.chunks| - 1)
    ensures c == Sealed(StreamChannel(suite, key, s), i, final, s.chunks[i])
    ensures Opened(StreamChannel(suite, key, s), i, final, c) == Some(s.chunks[i])
  {
    OnlyOfferedOpens(suite, key, history, s, i, final, c);
  }

  lemma {:induction false} ConcatSplit(chunks: seq<Bytes>, n: nat)
    requires n <= |chunks|
    ensures Concat(chunks) == Concat(chunks[..n]) + Concat(chunks[n..])
  {
    if n == 0 {
      assert chunks[..0] == [] && chunks[0..] == chunks;
    } else {
      ConcatSplit(chunks[1..], n - 1);
      assert chunks[..n][1..] == chunks[1..][..n - 1] && chunks[1..][n - 1..] == chunks[n..];
      Assoc(chunks[0], Concat(chunks[1..][..n - 1]), Concat(chunks[n..]));
    }
  }

  lemma ConcatSnoc(chunks: seq<Bytes>, n: nat)
    requires n < |chunks|
    ensures Concat(chunks[..n + 1]) == Concat(chunks[..n]) + chunks[n]
  {
    ConcatSplit(chunks[..n + 1], n);
    assert chunks[..n + 1][..n] == chunks[..n] && chunks[..n + 1][n..] == [chunks[n]];
    var last := [chunks[n]];
    assert last[1..] == [];
    assert Concat(last) == chunks[n];
  }

  /** What opens at position i is the stream's own frame there, with its own finality. */
  ghost predicate GenuineAt(ch: Channel, chunks: seq<Bytes>, i: nat, final: bool, c: Bytes) {
    i < COUNTER_LIMIT && Opened(ch, i, final, c).Some? ==>
      && i < |chunks| && final == (i == |chunks| - 1)
      && c == Sealed(ch, i, final, chunks[i]) && Opened(ch, i, final, c) == Some(chunks[i])
  }

  /** A channel on which exactly the frames of the chunks open. */
  ghost predicate Genuine(ch: Channel, chunks: seq<Bytes>) {
    && chunks != [] && |chunks| <= COUNTER_LIMIT && Fits(ch, chunks) && Authentic(ch, chunks, 0)
    && forall i: nat, final, c :: GenuineAt(ch, chunks, i, final, c)
  }

  lemma IssuedIsGenuine(suite: Suite, key: Key, history: set<Stream>, s: Stream)
    requires World(suite, key, history) && s in history && Alone(history, s)
    ensures Genuine(StreamChannel(suite, key, s), s.chunks)
  {
    var ch := StreamChannel(suite, key, s);
    forall i: nat, final, c ensures GenuineAt(ch, s.chunks, i, final, c) {
      if i < COUNTER_LIMIT && Opened(ch, i, final, c).Some? {
        OnlyGenuineOpens(suite, key, history, s, i, final, c);
      }
    }
  }

  /** The decryption of any bytes from position i on: a prefix of the plaintext, all of it only for the genuine frames. */
  lemma {:induction false} OnlyGenuineFrames(ch: Channel, chunks: seq<Bytes>, current: Bytes, rest: Bytes, i: nat)
    requires Genuine(ch, chunks) && i <= |chunks|
    ensures
      var d := OpenFrames(ch, current, rest, i, Concat(chunks[..i]));
      && d.written <= Concat(chunks)
      && (d.error.None? ==> d.written == Concat(chunks) && Frame(current) + rest == Body(ch, chunks[i..], i))
    decreases |rest|
  {
    ConcatSplit(chunks, i);
    var r := ReadFrame(rest, ch.chunkSize);
    if i < COUNTER_LIMIT && r.End? && Opened(ch, i, true, current).Some? {
      assert GenuineAt(ch, chunks, i, true, current);
      ConcatSnoc(chunks, i);
      assert chunks[..i + 1] == chunks;
      LastFrame(ch, chunks, i);
    } else if i < COUNTER_LIMIT && r.Got? && Opened(ch, i, false, current).Some? {
      assert GenuineAt(ch, chunks, i, false, current);
      ConcatSnoc(chunks, i);
      ReadFrameInverts(rest, ch.chunkSize);
      OnlyGenuineFrames(ch, chunks, r.sealed, r.rest, i + 1);
      MiddleFrame(ch, chunks, i);
    }
  }

  lemma LastFrame(ch: Channel, chunks: seq<Bytes>, i: nat)
    requires i == |chunks| - 1
    ensures Frame(Sealed(ch, i, true, chunks[i])) + [] == Body(ch, chunks[i..], i)
  {
    var last := chunks[i..];
    assert last == [chunks[i]] && last[1..] == [];
    assert Body(ch, last[1..], i + 1) == [];
  }

  lemma MiddleFrame(ch: Channel, chunks: seq<Bytes>, i: nat)
    requires i < |chunks| - 1
    ensures Frame(Sealed(ch, i, false, chunks[i])) + Body(ch, chunks[i + 1..], i + 1) == Body(ch, chunks[i..], i)
  {
    assert chunks[i..][1..] == chunks[i + 1..];
  }

  lemma OnlyGenuineBody(ch: Channel, chunks: seq<Bytes>, body: Bytes)
    requires Genuine(ch, chunks)
    ensures
      var d := OpenBody(ch, body);
      && d.written <= Concat(chunks)
      && (d.error.None? <==> body == Body(ch, chunks, 0))
      && (d.error.None? ==> d.written == Concat(chunks))
  {
    var r := ReadFrame(body, ch.chunkSize);
    BodyOpens(ch, chunks);
    if r.Got? {
      ReadFrameInverts(body, ch.chunkSize);
      assert chunks[..0] == [] && chunks[0..] == chunks;
      OnlyGenuineFrames(ch, chunks, r.sealed, r.rest, 0);
    }
  }

  /** The header of a stream is the one its key and parameters give, and the key list finds the key. */
  ghost predicate Readable(suite: Suite, key: Key, s: Stream, setting: seq<Key>) {
    var h := HeaderFor(suite, key, s.chunkSize, s.prefix);
    && HeaderLaw(suite, h) && s.header == suite.encode(h) && |s.prefix| == PREFIX_BYTES
    && ConfiguredKeys(setting).Ok?
    && FindKey(suite, ConfiguredKeys(setting).value, suite.fingerprint(key)) == Some(key)
  }

  /**
   * Under a genuine header that no other stream drew, whatever has been written is a prefix of the original plaintext, and
   * decryption returns normally exactly when the bytes after the header are the genuine frames, having written all of it. So
   * every truncation and every reordering, dropping, repeating or appending of frames, even of other streams, is refused.
   */
  lemma OnlyGenuineFile(suite: Suite, key: Key, history: set<Stream>, s: Stream, setting: seq<Key>, body: Bytes)
    requires World(suite, key, history) && s in history && Alone(history, s) && Readable(suite, key, s, setting)
    ensures
      var (written, r) := Decrypt(suite, setting, Preamble(s.header) + body);
      && written <= Concat(s.chunks)
      && (r.Ok? <==> body == StreamBody(suite, key, s))
      && (r.Ok? ==> written == Concat(s.chunks))
  {
    IssuedIsGenuine(suite, key, history, s);
    PreambleReadsBack(suite, HeaderFor(suite, key, s.chunkSize, s.prefix), body);
    OnlyGenuineBody(StreamChannel(suite, key, s), s.chunks, body);
  }

  lemma PrefixSplit(pre: Bytes, body: Bytes, cut: Bytes)
    requires cut < pre + body
    ensures |cut| < |pre| ==> cut <= pre
    ensures |cut| >= |pre| ==> cut == pre + cut[|pre|..] && cut[|pre|..] != body
  {
    if |cut| >= |pre| {
      assert cut[..|pre|] == (pre + body)[..|pre|] == pre;
    }
  }

  /** Every proper prefix of a genuine file is refused. */
  lemma TruncationRefused(suite: Suite, key: Key, history: set<Stream>, s: Stream, setting: seq<Key>, cut: Bytes)
    requires World(suite, key, history) && s in history && Alone(history, s) && Readable(suite, key, s, setting)
    requires cut < Preamble(s.header) + StreamBody(suite, key, s)
    ensures Decrypt(suite, setting, cut).1.Err?
  {
    var pre := Preamble(s.header);
    PrefixSplit(pre, StreamBody(suite, key, s), cut);
    if |cut| < |pre| {
      CutPreamble(suite, s.header, cut);
    } else {
      OnlyGenuineFile(suite, key, history, s, setting, cut[|pre|..]);
    }
  }

  lemma CutPreamble(suite: Suite, raw: Bytes, cut: Bytes)
    requires 0 < |raw| <= MAX_HEADER_BYTES && |cut| < |Preamble(raw)| && cut <= Preamble(raw)
    ensures ReadPreamble(suite, cut).Err?
  {
    if |cut| >= 9 {
      Widths();
      BigEndianRoundTrip(|raw|, 4);
      assert Preamble(raw)[5..9] == BigEndian(|raw|, 4);
      assert cut[5..9] == Preamble(raw)[5..9];
    }
  }

  // ---- Two streams with one header ----

  /** Every chunk is at its own position and finality in some stream with the header. */
  ghost predicate Spliced(history: set<Stream>, s: Stream, chunks: seq<Bytes>, first: nat) {
    chunks != [] && forall i: nat | i < |chunks| :: Offered(history, s, first + i, i == |chunks| - 1, chunks[i])
  }

  lemma SplicedCons(history: set<Stream>, s: Stream, p: Bytes, rest: seq<Bytes>, first: nat)
    requires Offered(history, s, first, rest == [], p) && (rest == [] || Spliced(history, s, rest, first + 1))
    ensures Spliced(history, s, [p] + rest, first)
  {
    var chunks := [p] + rest;
    forall i: nat | i < |chunks| ensures Offered(history, s, first + i, i == |chunks| - 1, chunks[i]) {
      if i > 0 {
        assert Offered(history, s, first + 1 + (i - 1), i - 1 == |rest| - 1, rest[i - 1]);
      }
    }
  }

  /** What opens without an error, from any position on, are frames of streams with the header. */
  lemma {:induction false} OpenedIsSpliced(
      suite: Suite, key: Key, history: set<Stream>, s: Stream, current: Bytes, rest: Bytes, i: nat, written: Bytes)
    returns (chunks: seq<Bytes>)
    requires World(suite, key, history) && s in history
    requires OpenFrames(StreamChannel(suite, key, s), current, rest, i, written).error.None?
    ensures Spliced(history, s, chunks, i)
    ensures Frame(current) + rest == Body(StreamChannel(suite, key, s), chunks, i)
    decreases |rest|
  {
    var ch := StreamChannel(suite, key, s);
    var r := ReadFrame(rest, ch.chunkSize);
    OpenedThere(ch, current, rest, i, written);
    OnlyOfferedOpens(suite, key, history, s, i, r.End?, current);
    var p := Opened(ch, i, r.End?, current).value;
    var tail := [];
    if r.Got? {
      OneFrameFurther(ch, current, rest, i, written);
      ReadFrameInverts(rest, ch.chunkSize);
      tail := OpenedIsSpliced(suite, key, history, s, r.sealed, r.rest, i + 1, written + p);
    } else {
      assert Body(ch, tail, i + 1) == [];
    }
    chunks := [p] + tail;
    SplicedCons(history, s, p, tail, i);
    BodyCons(ch, p, tail, i);
  }

  /** Without an error the frame at hand opened, as the last one exactly at the end. */
  lemma OpenedThere(ch: Channel, current: Bytes, rest: Bytes, i: nat, written: Bytes)
    requires OpenFrames(ch, current, rest, i, written).error.None?
    ensures i < COUNTER_LIMIT && !ReadFrame(rest, ch.chunkSize).Bad?
    ensures Opened(ch, i, ReadFrame(rest, ch.chunkSize).End?, current).Some?
  {
  }

  lemma SplicedIsAuthentic(suite: Suite, key: Key, history: set<Stream>, s: Stream, chunks: seq<Bytes>)
    requires World(suite, key, history) && s in history && Spliced(history, s, chunks, 0)
    ensures Authentic(StreamChannel(suite, key, s), chunks, 0) && |chunks| <= COUNTER_LIMIT
    ensures forall c | c in chunks :: |c| <= s.chunkSize
  {
    forall i: nat | i < |chunks| ensures SplicedAt(suite, key, s, chunks, i) {
      assert Offered(history, s, 0 + i, i == |chunks| - 1, chunks[i]);
      OfferedOpens(suite, key, history, s, i, i == |chunks| - 1, chunks[i]);
    }
    assert SplicedAt(suite, key, s, chunks, |chunks| - 1);
    forall c | c in chunks ensures |c| <= s.chunkSize {
      var i :| 0 <= i < |chunks| && chunks[i] == c;
      assert SplicedAt(suite, key, s, chunks, i);
    }
    AuthenticFrom(suite, key, s, chunks);
  }

  ghost predicate SplicedAt(suite: Suite, key: Key, s: Stream, chunks: seq<Bytes>, i: nat)
    requires i < |chunks|
  {
    && FrameOpens(StreamChannel(suite, key, s), i, i == |chunks| - 1, chunks[i])
    && |chunks[i]| <= s.chunkSize && i < COUNTER_LIMIT
  }

  lemma AuthenticFrom(suite: Suite, key: Key, s: Stream, chunks: seq<Bytes>)
    requires forall i: nat | i < |chunks| :: SplicedAt(suite, key, s, chunks, i)
    ensures Authentic(StreamChannel(suite, key, s), chunks, 0)
  {
    forall i: nat | i < |chunks| ensures FrameOpens(StreamChannel(suite, key, s), 0 + i, i == |chunks| - 1, chunks[i]) {
      assert SplicedAt(suite, key, s, chunks, i);
    }
  }

  lemma SplicedOpens(suite: Suite, key: Key, history: set<Stream>, s: Stream, chunks: seq<Bytes>)
    requires World(suite, key, history) && s in history && Spliced(history, s, chunks, 0)
    ensures OpenBody(StreamChannel(suite, key, s), Body(StreamChannel(suite, key, s), chunks, 0)) == Decryption(Concat(chunks), None)
  {
    SplicedIsAuthentic(suite, key, history, s, chunks);
    assert Fits(StreamChannel(suite, key, s), s.chunks);
    BodyOpens(StreamChannel(suite, key, s), chunks);
  }

  /** Every chunk is one that is not the last, at its own position, in some stream with the header. */
  ghost predicate Begun(history: set<Stream>, s: Stream, chunks: seq<Bytes>, first: nat) {
    forall i: nat | i < |chunks| :: Offered(history, s, first + i, false, chunks[i])
  }

  lemma BegunCons(history: set<Stream>, s: Stream, p: Bytes, rest: seq<Bytes>, first: nat)
    requires Offered(history, s, first, false, p) && Begun(history, s, rest, first + 1)
    ensures Begun(history, s, [p] + rest, first)
  {
    forall i: nat | i < |[p] + rest| ensures Offered(history, s, first + i, false, ([p] + rest)[i]) {
      if i > 0 {
        assert Offered(history, s, first + 1 + (i - 1), false, rest[i - 1]);
      }
    }
  }

  lemma ConcatCons(p: Bytes, rest: seq<Bytes>)
    ensures Concat([p] + rest) == p + Concat(rest)
  {
    assert ([p] + rest)[1..] == rest;
  }

  /** What was written before an error, from any position on, are chunks of streams with the header. */
  lemma {:induction false} WrittenIsBegun(
      suite: Suite, key: Key, history: set<Stream>, s: Stream, current: Bytes, rest: Bytes, i: nat, written: Bytes)
    returns (chunks: seq<Bytes>)
    requires World(suite, key, history) && s in history
    requires OpenFrames(StreamChannel(suite, key, s), current, rest, i, written).error.Some?
    ensures Begun(history, s, chunks, i)
    ensures OpenFrames(StreamChannel(suite, key, s), current, rest, i, written).written == written + Concat(chunks)
    decreases |rest|
  {
    var ch := StreamChannel(suite, key, s);
    var r := ReadFrame(rest, ch.chunkSize);
    chunks := [];
    if r.Got? && i < COUNTER_LIMIT && Opened(ch, i, false, current).Some? {
      var p := Opened(ch, i, false, current).value;
      OneFrameFurther(ch, current, rest, i, written);
      OnlyOfferedOpens(suite, key, history, s, i, false, current);
      var tail := WrittenIsBegun(suite, key, history, s, r.sealed, r.rest, i + 1, written + p);
      chunks := [p] + tail;
      BegunCons(history, s, p, tail, i);
      WrittenCons(written, p, tail);
    } else {
      NoFrameFurther(ch, current, rest, i, written);
    }
  }

  lemma OneFrameFurther(ch: Channel, current: Bytes, rest: Bytes, i: nat, written: Bytes)
    requires ReadFrame(rest, ch.chunkSize).Got? && i < COUNTER_LIMIT && Opened(ch, i, false, current).Some?
    ensures
      var r := ReadFrame(rest, ch.chunkSize);
      OpenFrames(ch, current, rest, i, written) ==
      OpenFrames(ch, r.sealed, r.rest, i + 1, written + Opened(ch, i, false, current).value)
  {
  }

  lemma NoFrameFurther(ch: Channel, current: Bytes, rest: Bytes, i: nat, written: Bytes)
    requires !(ReadFrame(rest, ch.chunkSize).Got? && i < COUNTER_LIMIT && Opened(ch, i, false, current).Some?)
    requires OpenFrames(ch, current, rest, i, written).error.Some?
    ensures OpenFrames(ch, current, rest, i, written).written == written + Concat([])
  {
  }

  lemma WrittenCons(written: Bytes, p: Bytes, tail: seq<Bytes>)
    ensures written + p + Concat(tail) == written + Concat([p] + tail)
  {
    ConcatCons(p, tail);
    Assoc(written, p, Concat(tail));
  }

  /**
   * With no assumption on the random prefixes: a file with an issued header opens exactly when its frames, each at its own
   * position and finality, come from streams with that header; and when it does not open, what was written nevertheless are
   * chunks of such streams, each at its own position, none of them a last one.
   */
  lemma OpensIffSpliced(suite: Suite, key: Key, history: set<Stream>, s: Stream, setting: seq<Key>, body: Bytes)
    requires World(suite, key, history) && s in history && Readable(suite, key, s, setting)
    ensures
      var (written, r) := Decrypt(suite, setting, Preamble(s.header) + body);
      && (r.Ok? <==> exists chunks :: Spliced(history, s, chunks, 0) && body == Body(StreamChannel(suite, key, s), chunks, 0))
      && (r.Ok? ==> exists chunks :: Spliced(history, s, chunks, 0) && written == Concat(chunks))
      && (r.Err? ==> exists chunks :: Begun(history, s, chunks, 0) && written == Concat(chunks))
  {
    var ch := StreamChannel(suite, key, s);
    PreambleReadsBack(suite, HeaderFor(suite, key, s.chunkSize, s.prefix), body);
    var r := ReadFrame(body, ch.chunkSize);
    if OpenBody(ch, body).error.None? {
      ReadFrameInverts(body, ch.chunkSize);
      var chunks := OpenedIsSpliced(suite, key, history, s, r.sealed, r.rest, 0, []);
      SplicedOpens(suite, key, history, s, chunks);
    } else {
      NotOpened(suite, key, history, s, body);
    }
    forall chunks | Spliced(history, s, chunks, 0) && body == Body(ch, chunks, 0) ensures OpenBody(ch, body).error.None? {
      SplicedOpens(suite, key, history, s, chunks);
    }
  }

  lemma NotOpened(suite: Suite, key: Key, history: set<Stream>, s: Stream, body: Bytes)
    requires World(suite, key, history) && s in history && OpenBody(StreamChannel(suite, key, s), body).error.Some?
    ensures exists chunks :: Begun(history, s, chunks, 0) && OpenBody(StreamChannel(suite, key, s), body).written == Concat(chunks)
  {
    var ch := StreamChannel(suite, key, s);
    var r := ReadFrame(body, ch.chunkSize);
    var none: seq<Bytes> := [];
    assert Begun(history, s, none, 0) && Concat(none) == [];
    if r.Got? {
      var chunks := WrittenIsBegun(suite, key, history, s, r.sealed, r.rest, 0, []);
      assert [] + Concat(chunks) == Concat(chunks);
    }
  }

  /** Two streams that drew one prefix can be spliced at every position both have: the file opens to parts of both. */
  lemma SharedHeaderSplices(suite: Suite, key: Key, history: set<Stream>, s: Stream, t: Stream, setting: seq<Key>, i: nat)
    requires World(suite, key, history) && s in history && t in history && SameHeader(s, t) && Readable(suite, key, s, setting)
    requires i < |s.chunks| && i < |t.chunks|
    ensures
      var mixed := s.chunks[..i] + t.chunks[i..];
      Decrypt(suite, setting, Preamble(s.header) + Body(StreamChannel(suite, key, s), mixed, 0)) ==
      (Concat(mixed), Ok(suite.fingerprint(key)))
  {
    var mixed := s.chunks[..i] + t.chunks[i..];
    forall j: nat | j < |mixed| ensures Offered(history, s, 0 + j, j == |mixed| - 1, mixed[j]) {
      assert OfStream(if j < i then s else t, j, j == |mixed| - 1, mixed[j]);
    }
    SplicedOpens(suite, key, history, s, mixed);
    PreambleReadsBack(suite, HeaderFor(suite, key, s.chunkSize, s.prefix), Body(StreamChannel(suite, key, s), mixed, 0));
  }

  /** Under a header that was never issued nothing is written, whatever follows it. */
  lemma ForeignHeaderRefused(suite: Suite, key: Key, history: set<Stream>, ch: Channel, body: Bytes)
    requires World(suite, key, history) && ch.suite == suite && ch.key == key && |ch.digest| == DIGEST_LENGTH
    requires forall s | s in history :: suite.digest(s.header) != ch.digest
    ensures OpenBody(ch, body).written == [] && OpenBody(ch, body).error.Some?
  {
    var r := ReadFrame(body, ch.chunkSize);
    if r.Got? {
      NothingOpens(suite, key, history, ch, true, r.sealed);
      NothingOpens(suite, key, history, ch, false, r.sealed);
    }
  }

  lemma NothingOpens(suite: Suite, key: Key, history: set<Stream>, ch: Channel, final: bool, c: Bytes)
    requires World(suite, key, history) && ch.suite == suite && ch.key == key && |ch.digest| == DIGEST_LENGTH
    requires forall s | s in history :: suite.digest(s.header) != ch.digest
    ensures Opened(ch, 0, final, c).None?
  {
    if Opened(ch, 0, final, c).Some? {
      var n, a := Nonce(ch, 0), Aad(ch, 0, final);
      assert SealedInHistory(suite, key, history, n, c, a);
      var t, j :| t in history && WasSealed(suite, key, t, j, n, c, a);
      AadInjective(ch, 0, final, StreamChannel(suite, key, t), j, j == |t.chunks| - 1);
      assert false;
    }
  }
}
