/** The streaming MD5 implementation: bytes arrive in pieces of any size, whole
    blocks are transformed as soon as they are complete, the rest is buffered. */
module Md5Stream {
  import opened Md5Reference
  import opened Memory
  import JsonText

  /** The pieces `update` can take with `index` bytes buffered: on others its block
      loop, which counts in 32 bits, never ends (`LoopEndsIff`). */
  predicate Takes(index: nat, length: nat) {
    index + length < 0x1_0000_0000
  }

  // ---------- the object's state as a value ----------

  /** `_state`, `_count` and `_buffer`. */
  datatype Context = Context(state: State, low: word, high: word, buffer: seq<byte>)

  ghost predicate Shaped(c: Context) {
    |c.buffer| == 64
  }

  function Index(c: Context): (i: nat)
    ensures i < 64
  {
    c.low / 8 % 64
  }

  /** The 64-bit counter after `length` more bytes. */
  function CountLow(low: word, length: nat): word {
    (low + length * 8 % 0x1_0000_0000) % 0x1_0000_0000
  }

  function CountHigh(low: word, high: word, length: nat): word {
    (high + (if CountLow(low, length) < length * 8 % 0x1_0000_0000 then 1 else 0)
      + length % 0x1_0000_0000 / 0x2000_0000) % 0x1_0000_0000
  }

  /** Number of input bytes transformed beyond the first, completed block. */
  function Direct(index: nat, length: nat): (n: nat)
    requires index < 64 && length >= 64 - index
    ensures n % 64 == 0 && 64 - index + n <= length < 64 - index + n + 64
  {
    (length - (64 - index)) / 64 * 64
  }

  function Updated(c: Context, input: seq<byte>): (r: Context)
    requires Shaped(c)
    ensures Shaped(r)
  {
    var index := Index(c);
    var part := 64 - index;
    var low, high := CountLow(c.low, |input|), CountHigh(c.low, c.high, |input|);
    if |input| >= part then
      var full := Overlay(c.buffer, index, input[..part]);
      var done := part + Direct(index, |input|);
      Context(Fold(Transform(c.state, full), input[part..done]), low, high,
              Overlay(full, 0, input[done..]))
    else
      Context(c.state, low, high, Overlay(c.buffer, index, input))
  }

  function CountBytes(c: Context): (b: seq<byte>)
    ensures |b| == 8
  {
    WordBytes(c.low) + WordBytes(c.high)
  }

  /** The context in which `final` reads off the digest. */
  function Finished(c: Context): (r: Context)
    requires Shaped(c)
    ensures Shaped(r)
  {
    Updated(Updated(c, Padding(PadLength(Index(c)))), CountBytes(c))
  }

  function Digest(c: Context): (d: seq<byte>)
    requires Shaped(c)
    ensures |d| == 16
  {
    StateBytes(Finished(c).state)
  }

  /** What `final` leaves behind: state and count are restored, the buffer is not. */
  function AfterDigest(c: Context): (r: Context)
    requires Shaped(c)
    ensures Shaped(r)
  {
    c.(buffer := Finished(c).buffer)
  }

  // ---------- the invariant ----------

  function Whole(n: nat): (w: nat)
    ensures w <= n < w + 64 && w % 64 == 0 && n % 64 == n - w
  {
    n - n % 64
  }

  function Tail(message: seq<byte>): (t: seq<byte>)
    ensures |t| == |message| % 64
  {
    message[Whole(|message|)..]
  }

  /** The context is the one that results from feeding `message`: the state is the
      fold over the whole blocks, the buffer starts with what is left, and the
      counter is the length in bits modulo 2^64. */
  ghost predicate Tracks(c: Context, message: seq<byte>) {
    && Shaped(c)
    && c.low + 0x1_0000_0000 * c.high == 8 * |message| % 0x1_0000_0000_0000_0000
    && c.state == Fold(INITIAL, message[..Whole(|message|)])
    && c.buffer[..|message| % 64] == Tail(message)
  }

  lemma CountTracks(low: word, high: word, n: nat, length: nat)
    requires low + 0x1_0000_0000 * high == 8 * n % 0x1_0000_0000_0000_0000
    requires length < 0x1_0000_0000
    ensures CountLow(low, length) + 0x1_0000_0000 * CountHigh(low, high, length) ==
            8 * (n + length) % 0x1_0000_0000_0000_0000
  {
    hide CountLow, CountHigh;
    CountParts(low, high, length);
    var lowAdd, highAdd := length * 8 % 0x1_0000_0000, length / 0x2000_0000;
    assert length * 8 == lowAdd + 0x1_0000_0000 * highAdd;
    var carry := if low + lowAdd >= 0x1_0000_0000 then 1 else 0;
    var sum := high + carry + highAdd;
    assert low + 0x1_0000_0000 * high + 8 * length == CountLow(low, length) + 0x1_0000_0000 * sum;
    CountWraps(CountLow(low, length), sum, 8 * n, 8 * length);
  }

  /** The low word wraps exactly when the test `_count[0] < length << 3` notices it. */
  lemma CountParts(low: word, high: word, length: nat)
    requires length < 0x1_0000_0000
    ensures var lowAdd := length * 8 % 0x1_0000_0000;
            var carry := if low + lowAdd >= 0x1_0000_0000 then 1 else 0;
            && CountLow(low, length) == low + lowAdd - carry * 0x1_0000_0000
            && CountHigh(low, high, length) == (high + carry + length / 0x2000_0000) % 0x1_0000_0000
  {
    LowWraps(low, length * 8 % 0x1_0000_0000);
    assert length % 0x1_0000_0000 == length;
  }

  lemma LowWraps(low: word, add: word)
    ensures var sum := (low + add) % 0x1_0000_0000;
            && (sum < add <==> low + add >= 0x1_0000_0000)
            && sum == low + add - (if low + add >= 0x1_0000_0000 then 0x1_0000_0000 else 0)
  {
  }

  lemma CountWraps(low: word, sum: nat, bits: nat, add: nat)
    requires low + 0x1_0000_0000 * sum == bits % 0x1_0000_0000_0000_0000 + add
    ensures low + 0x1_0000_0000 * (sum % 0x1_0000_0000) == (bits + add) % 0x1_0000_0000_0000_0000
  {
    var q := bits / 0x1_0000_0000_0000_0000;
    var r := sum / 0x1_0000_0000;
    var value := low + 0x1_0000_0000 * (sum % 0x1_0000_0000);
    Quotient(bits + add, q + r, value);
  }

  lemma Quotient(n: nat, q: nat, r: nat)
    requires n == 0x1_0000_0000_0000_0000 * q + r && r < 0x1_0000_0000_0000_0000
    ensures n % 0x1_0000_0000_0000_0000 == r
  {
  }

  lemma IndexFromCount(low: word, high: word, n: nat)
    requires low + 0x1_0000_0000 * high == 8 * n % 0x1_0000_0000_0000_0000
    ensures low / 8 % 64 == n % 64
  {
    var q := 8 * n / 0x1_0000_0000_0000_0000;
    assert 8 * n == low + 0x1_0000_0000 * high + 0x1_0000_0000_0000_0000 * q;
    var blocks := 0x80_0000 * high + 0x80_0000_0000_0000 * q;
    Eighth(low, n - 64 * blocks);
    AddBlocks(n - 64 * blocks, blocks);
  }

  lemma Eighth(low: nat, m: int)
    requires low == 8 * m
    ensures low / 8 == m
  {
  }

  lemma AddBlocks(m: int, blocks: nat)
    ensures (m + 64 * blocks) % 64 == m % 64
  {
  }

  lemma IndexTracks(c: Context, message: seq<byte>)
    requires Tracks(c, message)
    ensures Index(c) == |message| % 64
  {
    hide Fold;
    IndexFromCount(c.low, c.high, |message|);
  }

  // ---------- update ----------

  lemma WholeGrows(m: nat, length: nat)
    ensures m % 64 + length < 64 ==> Whole(m + length) == Whole(m)
    ensures m % 64 + length >= 64 ==>
              Whole(m + length) == Whole(m) + 64 + Direct(m % 64, length)
  {
  }

  /** Buffered bytes and new input split the extended message as `update` does. */
  lemma SplitMessage(message: seq<byte>, input: seq<byte>)
    requires |message| % 64 + |input| >= 64
    ensures var w, part := Whole(|message|), 64 - |message| % 64;
            var done := part + Direct(|message| % 64, |input|);
            var whole := message + input;
            && w + 64 + done - part <= |whole|
            && whole[w + 64 + done - part..] == input[done..]
            && whole[..w + 64 + done - part] == message[..w] + (Tail(message) + input[..part]) + input[part..done]
  {
    var w, part := Whole(|message|), 64 - |message| % 64;
    var done := part + Direct(|message| % 64, |input|);
    hide Whole, Direct;
    SplitAt(message, input, w, part, done);
  }

  lemma SplitAt(message: seq<byte>, input: seq<byte>, w: nat, part: nat, done: nat)
    requires w <= |message| && |message| - w + part == 64 && part <= done <= |input|
    ensures (message + input)[w + 64 + done - part..] == input[done..]
    ensures (message + input)[..w + 64 + done - part] ==
            message[..w] + (message[w..] + input[..part]) + input[part..done]
  {
    assert message == message[..w] + message[w..];
    assert input[..done] == input[..part] + input[part..done];
    assert (message + input)[..|message| + done] == message + input[..done];
  }

  lemma FoldThree(x: seq<byte>, block: seq<byte>, z: seq<byte>)
    requires |x| % 64 == 0 && |block| == 64 && |z| % 64 == 0
    ensures |x + block + z| % 64 == 0
    ensures Fold(INITIAL, x + block + z) == Fold(Transform(Fold(INITIAL, x), block), z)
  {
    hide Fold, Transform;
    FoldJoin(INITIAL, x, block);
    FoldOne(Fold(INITIAL, x), block);
    FoldJoin(INITIAL, x + block, z);
  }

  lemma UpdatedBig(c: Context, message: seq<byte>, input: seq<byte>)
    requires Tracks(c, message) && 64 <= |message| % 64 + |input| && Takes(|message| % 64, |input|)
    ensures Tracks(Updated(c, input), message + input)
  {
    hide Fold, Transform, CountLow, CountHigh, Direct, Whole, Index, Updated, Tail, Overlay;
    IndexTracks(c, message);
    CountTracks(c.low, c.high, |message|, |input|);
    WholeGrows(|message|, |input|);
    SplitMessage(message, input);
    var part := 64 - |message| % 64;
    var done := part + Direct(|message| % 64, |input|);
    UpdatedAfterBlocks(c, input, Overlay(c.buffer, |message| % 64, input[..part]), part, done);
    FullBlock(c, message, input[..part]);
    FoldThree(message[..Whole(|message|)], Tail(message) + input[..part], input[part..done]);
    OverlayStart(Tail(message) + input[..part], input[done..]);
    TailOf(message + input, Whole(|message + input|), input[done..]);
  }

  lemma FullBlock(c: Context, message: seq<byte>, start: seq<byte>)
    requires Tracks(c, message) && |start| == 64 - |message| % 64
    ensures Overlay(c.buffer, |message| % 64, start) == Tail(message) + start
  {
    hide Fold;
  }

  lemma OverlayStart(buffer: seq<byte>, data: seq<byte>)
    requires |data| <= |buffer|
    ensures Overlay(buffer, 0, data)[..|data|] == data
  {
  }

  lemma TailOf(message: seq<byte>, w: nat, rest: seq<byte>)
    requires w == Whole(|message|) && message[w..] == rest
    ensures Tail(message) == rest && |rest| == |message| % 64
  {
  }

  lemma UpdatedSmall(c: Context, message: seq<byte>, input: seq<byte>)
    requires Tracks(c, message)
    requires |message| % 64 + |input| < 64
    ensures Tracks(Updated(c, input), message + input)
  {
    hide Fold, Transform, CountLow, CountHigh, Whole;
    IndexTracks(c, message);
    CountTracks(c.low, c.high, |message|, |input|);
    WholeGrows(|message|, |input|);
    var w := Whole(|message|);
    assert (message + input)[..w] == message[..w];
    assert Tail(message + input) == Tail(message) + input;
  }

  /** `update` keeps the context in step with the message, for every piece it can take. */
  lemma UpdateTracks(c: Context, message: seq<byte>, input: seq<byte>)
    requires Tracks(c, message) && Takes(|message| % 64, |input|)
    ensures Tracks(Updated(c, input), message + input)
  {
    if |message| % 64 + |input| < 64 {
      UpdatedSmall(c, message, input);
    } else {
      UpdatedBig(c, message, input);
    }
  }

  // ---------- digest ----------

  lemma CountBytesTrack(c: Context, message: seq<byte>)
    requires Tracks(c, message)
    ensures CountBytes(c) == LengthBytes(message)
  {
    hide Fold, WordBytes;
    var bits := 8 * |message| % 0x1_0000_0000_0000_0000;
    assert bits % 0x1_0000_0000 == c.low && bits / 0x1_0000_0000 == c.high;
  }

  lemma FinishedTracks(c: Context, message: seq<byte>)
    requires Tracks(c, message)
    ensures var d := Updated(c, Padding(PadLength(|message|)));
            && Shaped(d) && Index(d) == 56
            && Finished(c) == Updated(d, LengthBytes(message))
    ensures Tracks(Finished(c), Padded(message))
  {
    hide Fold, Updated, LengthBytes, Padding, CountBytes, Index, Tracks, Shaped, Padded, PadLength;
    assert Shaped(c) by { TracksShape(c, message); }
    IndexTracks(c, message);
    CountBytesTrack(c, message);
    PadAligns(|message|);
    var pad, bits := Padding(PadLength(|message|)), LengthBytes(message);
    var d := Updated(c, pad);
    UpdateTracks(c, message, pad);
    IndexTracks(d, message + pad);
    UpdateTracks(d, message + pad, bits);
    PaddedIs(message);
    TracksShape(d, message + pad);
  }

  lemma PadAligns(n: nat)
    ensures PadLength(n % 64) == PadLength(n) <= 64 && (n + PadLength(n)) % 64 == 56
  {
  }

  lemma PaddedIs(message: seq<byte>)
    ensures Padded(message) == message + Padding(PadLength(|message|)) + LengthBytes(message)
  {
  }

  lemma TracksShape(c: Context, message: seq<byte>)
    requires Tracks(c, message)
    ensures Shaped(c)
    ensures |message| % 64 == 0 ==> c.state == Fold(INITIAL, message)
  {
    hide Fold;
    if |message| % 64 == 0 {
      assert message[..Whole(|message|)] == message;
    }
  }

  /** The first digest is the MD5 of the message. */
  lemma DigestTracks(c: Context, message: seq<byte>)
    requires Tracks(c, message)
    ensures Shaped(c) && Digest(c) == Md5(message)
  {
    hide Fold, Updated, StateBytes, Padded, Finished, Tracks;
    TracksShape(c, message);
    FinishedTracks(c, message);
    TracksShape(Finished(c), Padded(message));
  }

  /** The bytes `final` leaves in the buffer. */
  function LeftOver(c: Context, message: seq<byte>): (b: seq<byte>)
    requires |c.buffer| == 64
    ensures |b| == 64
  {
    var index := |message| % 64;
    if index < 56 then c.buffer[..index] + Padding(56 - index) + LengthBytes(message)
    else Zeros(56) + LengthBytes(message)
  }

  /** Where the padding lands: behind the buffered bytes, or past the end of the
      buffer, whose first 56 bytes then become zero. */
  lemma PaddedBuffer(c: Context)
    requires Shaped(c)
    ensures var index := Index(c);
            Updated(c, Padding(PadLength(index))).buffer[..56] ==
            if index < 56 then c.buffer[..index] + Padding(56 - index) else Zeros(56)
  {
    hide Fold, Transform, CountLow, CountHigh;
    var index := Index(c);
    var pad := Padding(PadLength(index));
    if index >= 56 {
      assert Direct(index, |pad|) == 0;
      assert pad[64 - index..] == Zeros(56);
    }
  }

  lemma LengthBuffer(d: Context, bits: seq<byte>)
    requires Shaped(d) && Index(d) == 56 && |bits| == 8
    ensures Updated(d, bits).buffer == d.buffer[..56] + bits
  {
    hide Fold, Transform, CountLow, CountHigh;
  }

  lemma LeftOverTracks(c: Context, message: seq<byte>)
    requires Tracks(c, message)
    ensures Finished(c).buffer == LeftOver(c, message)
  {
    hide Fold, LengthBytes, Updated, Padding, Finished;
    IndexTracks(c, message);
    FinishedTracks(c, message);
    assert PadLength(Index(c)) == PadLength(|message|);
    PaddedBuffer(c);
    LengthBuffer(Updated(c, Padding(PadLength(|message|))), LengthBytes(message));
  }

  /** After a digest the stream can be continued exactly when fewer than 56 bytes
      were buffered, or those buffered happen to be what `final` put there. */
  lemma ResumableIff(c: Context, message: seq<byte>)
    requires Tracks(c, message)
    ensures Tracks(AfterDigest(c), message) <==>
            |message| % 64 < 56 ||
            Tail(message) == (Zeros(56) + LengthBytes(message))[..|message| % 64]
  {
    hide Fold, LengthBytes, Padding, Finished;
    LeftOverTracks(c, message);
  }

  // ---------- whole streams ----------

  ghost predicate Fresh(c: Context) {
    Shaped(c) && c.state == INITIAL && c.low == 0 && c.high == 0
  }

  function Fed(c: Context, pieces: seq<seq<byte>>): (r: Context)
    requires Shaped(c)
    ensures Shaped(r)
    decreases pieces
  {
    if pieces == [] then c else Fed(Updated(c, pieces[0]), pieces[1..])
  }

  function Joined(pieces: seq<seq<byte>>): seq<byte> {
    if pieces == [] then [] else pieces[0] + Joined(pieces[1..])
  }

  /** With `n` bytes fed already, `update` can take one piece after the other. */
  predicate AllTaken(n: nat, pieces: seq<seq<byte>>)
    decreases pieces
  {
    pieces != [] ==> Takes(n % 64, |pieces[0]|) && AllTaken(n + |pieces[0]|, pieces[1..])
  }

  lemma {:induction false} FedTracks(c: Context, message: seq<byte>, pieces: seq<seq<byte>>)
    requires Shaped(c) && AllTaken(|message|, pieces)
    ensures Tracks(c, message) ==> Tracks(Fed(c, pieces), message + Joined(pieces))
    decreases pieces
  {
    hide Updated, Tracks, Shaped, Takes;
    if pieces == [] {
      assert message + [] == message;
    } else if Tracks(c, message) {
      UpdateTracks(c, message, pieces[0]);
      FedTracks(Updated(c, pieces[0]), message + pieces[0], pieces[1..]);
      assert message + pieces[0] + Joined(pieces[1..]) == message + Joined(pieces);
    }
  }

  /** However a message is cut into pieces `update` can take, the first digest after
      `reset` is the one-shot MD5 of the whole message. */
  lemma StreamingDigest(start: Context, pieces: seq<seq<byte>>)
    requires Fresh(start) && AllTaken(0, pieces)
    ensures Digest(Fed(start, pieces)) == Md5(Joined(pieces))
  {
    hide Fed, Md5, Digest, AllTaken;
    FreshTracks(start);
    FedTracks(start, [], pieces);
    assert [] + Joined(pieces) == Joined(pieces);
    DigestTracks(Fed(start, pieces), Joined(pieces));
  }

  lemma FreshTracks(c: Context)
    requires Fresh(c)
    ensures Tracks(c, [])
  {
    hide Transform;
  }

  /** The message a stream stands for once a digest was taken: with 56 bytes or more
      in the buffer, those are overwritten by padding and length. */
  function Kept(message: seq<byte>): (k: seq<byte>)
    ensures |k| == |message|
  {
    if |message| % 64 < 56 then message
    else message[..Whole(|message|)] + (Zeros(56) + LengthBytes(message))[..|message| % 64]
  }

  lemma AfterDigestTracks(c: Context, message: seq<byte>)
    requires Tracks(c, message)
    ensures Tracks(AfterDigest(c), Kept(message))
  {
    hide Fold, LengthBytes, Padding, Finished;
    LeftOverTracks(c, message);
    assert Kept(message)[..Whole(|message|)] == message[..Whole(|message|)];
  }

  /** Digests taken in the middle of a stream: the next one, and every one after more
      data, is that of the message kept in place of the one fed. With fewer than 56
      bytes buffered that is the message itself. */
  lemma DigestThenContinue(start: Context, before: seq<seq<byte>>, after: seq<seq<byte>>)
    requires Fresh(start) && AllTaken(0, before) && AllTaken(|Joined(before)|, after)
    ensures var c := AfterDigest(Fed(start, before));
            && Digest(c) == Md5(Kept(Joined(before)))
            && Digest(Fed(c, after)) == Md5(Kept(Joined(before)) + Joined(after))
    ensures |Joined(before)| % 64 < 56 ==> Kept(Joined(before)) == Joined(before)
  {
    var message := Joined(before);
    assert |message| % 64 < 56 ==> Kept(message) == message;
    hide Fed, Md5, Digest, Tracks, AfterDigest, AllTaken, Kept, Joined;
    FreshTracks(start);
    FedTracks(start, [], before);
    assert [] + message == message;
    var c := AfterDigest(Fed(start, before));
    AfterDigestTracks(Fed(start, before), message);
    DigestTracks(c, Kept(message));
    FedTracks(c, Kept(message), after);
    DigestTracks(Fed(c, after), Kept(message) + Joined(after));
  }

  /** A second digest of 56 ones is the digest of 56 zeros. */
  lemma DigestLosesTail(c: Context)
    requires Tracks(c, seq(56, _ => 1))
    ensures Digest(c) == Md5(seq(56, _ => 1)) && Digest(AfterDigest(c)) == Md5(Zeros(56))
  {
    hide Tracks, AfterDigest, LengthBytes, Md5, Digest;
    var message: seq<byte> := seq(56, _ => 1);
    DigestTracks(c, message);
    AfterDigestTracks(c, message);
    assert Kept(message) == Zeros(56);
    DigestTracks(AfterDigest(c), Zeros(56));
  }

  // ---------- the block loop in 32 bits ----------

  /** The loop's test, `i + 63 < length` in 32 bits. */
  predicate Guard(i: nat, length: nat) {
    (i + 63) % 0x1_0000_0000 < length
  }

  /** The k-th position of the loop counter. */
  function Position(index: nat, k: nat): nat
    requires index < 64
  {
    (64 - index + 64 * k) % 0x1_0000_0000
  }

  ghost predicate LoopEnds(index: nat, length: nat)
    requires index < 64
  {
    exists k: nat :: !Guard(Position(index, k), length)
  }

  /** Both the test and the counter step over the multiples of 64. */
  lemma PositionWraps(index: nat, k: nat)
    requires index < 64
    ensures (Position(index, k) + 63) % 0x1_0000_0000 == 64 * ((k + 1) % 0x400_0000) + (63 - index)
  {
    var r, q := (k + 1) % 0x400_0000, (k + 1) / 0x400_0000;
    assert k + 1 == 0x400_0000 * q + r;
    var at := 64 - index + 64 * k;
    Remainder(at + 63, q, 64 * r + (63 - index));
    WrapTwice(at);
  }

  lemma WrapTwice(n: nat)
    ensures (n % 0x1_0000_0000 + 63) % 0x1_0000_0000 == (n + 63) % 0x1_0000_0000
  {
    var q, r := n / 0x1_0000_0000, n % 0x1_0000_0000;
    if r + 63 < 0x1_0000_0000 {
      Remainder(n + 63, q, r + 63);
    } else {
      Remainder(n + 63, q + 1, r + 63 - 0x1_0000_0000);
    }
  }

  lemma Remainder(n: nat, q: nat, r: nat)
    requires n == 0x1_0000_0000 * q + r && r < 0x1_0000_0000
    ensures n % 0x1_0000_0000 == r
  {
  }

  /** The block loop ends exactly on the pieces `Takes` describes, of any length. */
  lemma LoopEndsIff(index: nat, length: nat)
    requires index < 64 && 64 - index <= length
    ensures LoopEnds(index, length) <==> Takes(index, length)
  {
    hide Position;
    if Takes(index, length) {
      PositionWraps(index, 0x3ff_fffe);
      assert !Guard(Position(index, 0x3ff_fffe), length);
    } else {
      forall k: nat ensures Guard(Position(index, k), length) {
        PositionWraps(index, k);
      }
    }
  }

  /** On those pieces its test means what it says at every position it visits. */
  lemma GuardIs(index: nat, i: nat, length: nat)
    requires Takes(index, length) && i <= length && (i + index) % 64 == 0
    ensures Guard(i, length) <==> i + 63 < length
  {
  }

  /** With one byte buffered, a piece of 2^32 - 1 bytes makes the loop run past its
      end: it transforms a block where no byte is left, and goes on for ever. */
  lemma OverrunExample()
    ensures Position(1, 0x3ff_ffff) == 0xffff_ffff
    ensures Guard(Position(1, 0x3ff_ffff), 0xffff_ffff)
    ensures !LoopEnds(1, 0xffff_ffff)
  {
    LoopEndsIff(1, 0xffff_ffff);
  }

  // ---------- hexadecimal output ----------

  const HEX := "0123456789abcdef"

  function HexString(input: seq<byte>): (s: string)
    ensures |s| == 2 * |input|
  {
    if input == [] then ""
    else
      var last := input[|input| - 1];
      HexString(input[..|input| - 1]) + [HEX[last / 16], HEX[last % 16]]
  }

  lemma LowerDigit(d: nat)
    requires d < 16
    ensures var c := "0123456789abcdef"[d];
            c == HEX[d] && ('0' <= c <= '9' || 'a' <= c <= 'f') && JsonText.HexDigit(c) == d
  {
  }

  /** Each byte becomes two lower-case digits whose value it is. */
  lemma {:induction false} HexStringReads(input: seq<byte>, k: nat)
    requires k < |input|
    ensures var s := HexString(input);
            && s[2 * k] == "0123456789abcdef"[input[k] / 16] && s[2 * k + 1] == "0123456789abcdef"[input[k] % 16]
            && ('0' <= s[2 * k] <= '9' || 'a' <= s[2 * k] <= 'f')
            && ('0' <= s[2 * k + 1] <= '9' || 'a' <= s[2 * k + 1] <= 'f')
            && 16 * JsonText.HexDigit(s[2 * k]) + JsonText.HexDigit(s[2 * k + 1]) == input[k]
  {
    var front, last := input[..|input| - 1], input[|input| - 1];
    if k < |front| {
      HexStringReads(front, k);
    } else {
      LowerDigit(last / 16);
      LowerDigit(last % 16);
    }
  }

  // ---------- the class ----------

  class MD5 {
    const state: array<word>
    const count: array<word>
    const buffer: array<byte>
    const digestBytes: array<byte>
    var finished: bool

    ghost predicate Valid()
      reads this
    {
      && state.Length == 4 && count.Length == 2 && buffer.Length == 64 && digestBytes.Length == 16
      && state != count && buffer != digestBytes
    }

    /** The four words of `state`. */
    ghost function Words4(): State
      reads this, state
      requires state.Length == 4
    {
      State(state[0], state[1], state[2], state[3])
    }

    ghost function Ctx(): (c: Context)
      reads this, state, count, buffer
      requires Valid()
      ensures Shaped(c)
    {
      Context(Words4(), count[0], count[1], buffer[..])
    }

    constructor ()
      ensures Valid() && Fresh(Ctx()) && !finished
      ensures fresh(state) && fresh(count) && fresh(buffer) && fresh(digestBytes)
    {
      state := new word[4];
      count := new word[2];
      buffer := new byte[64];
      digestBytes := new byte[16];
      finished := false;
      new;
      Reset();
    }

    method Reset()
      requires Valid()
      modifies this, state, count
      ensures Valid() && Fresh(Ctx()) && !finished
    {
      finished := false;
      count[0], count[1] := 0, 0;
      state[0] := 0x67452301;
      state[1] := 0xefcdab89;
      state[2] := 0x98badcfe;
      state[3] := 0x10325476;
    }

    method Update(input: seq<byte>)
      requires Valid() && Takes(Index(Ctx()), |input|)
      modifies this`finished, state, count, buffer
      ensures Valid() && !finished
      ensures Ctx() == Updated(old(Ctx()), input)
    {
      hide Transform, Fold, Updated, Direct, Overlay, CountLow, CountHigh, Takes;
      finished := false;
      ghost var c := Ctx();
      var index := count[0] / 8 % 64;
      var bits := |input| * 8 % 0x1_0000_0000;
      count[0] := (count[0] as int + bits) % 0x1_0000_0000;
      if count[0] < bits {
        count[1] := (count[1] as int + 1) % 0x1_0000_0000;
      }
      count[1] := (count[1] as int + |input| % 0x1_0000_0000 / 0x2000_0000) % 0x1_0000_0000;
      CountIs(c.low, c.high, |input|);
      var partLen := 64 - index;
      var i := 0;
      if |input| >= partLen {
        Copy(buffer, index, input[..partLen]);
        ghost var full := buffer[..];
        TransformBlock(buffer[..]);
        i := TransformBlocks(input, partLen);
        index := 0;
        UpdatedAfterBlocks(c, input, full, partLen, i);
        assert Overlay(full, 0, input[i..]) == Updated(c, input).buffer;
      } else {
        UpdatedInBuffer(c, input);
        assert input[0..] == input;
      }
      Copy(buffer, index, input[i..]);
    }

    /** The block loop of `update`: all complete blocks from position `from` on. */
    method TransformBlocks(input: seq<byte>, from: nat) returns (i: nat)
      requires Valid() && from <= 64 && from <= |input| && Takes(64 - from, |input|)
      modifies state
      ensures from <= i <= |input| <= i + 63 && |input[from..i]| % 64 == 0
      ensures Words4() == Fold(old(Words4()), input[from..i])
    {
      hide Transform, Fold, Guard, Takes;
      ghost var first := Words4();
      i := from;
      FoldNone(first);
      assert input[from..i] == [];
      while Guard(i, |input|)
        invariant from <= i <= |input| && |input[from..i]| % 64 == 0 && (i + (64 - from)) % 64 == 0
        invariant Words4() == Fold(first, input[from..i])
        decreases |input| - i
      {
        GuardIs(64 - from, i, |input|);
        TransformBlock(input[i..i + 64]);
        FoldNext(first, input[from..i], input[i..i + 64]);
        assert input[from..i] + input[i..i + 64] == input[from..i + 64];
        i := i + 64;
      }
      GuardIs(64 - from, i, |input|);
    }

    /** `final`. */
    method Finish()
      requires Valid()
      modifies this`finished, state, count, buffer, digestBytes
      ensures Valid() && !finished
      ensures digestBytes[..] == Digest(old(Ctx()))
      ensures Ctx() == AfterDigest(old(Ctx()))
    {
      hide Updated, StateBytes, WordsBytes, PadLength, CountBytes, Padding;
      ghost var c := Ctx();
      var oldState := [state[0], state[1], state[2], state[3]];
      var oldCount := [count[0], count[1]];
      var bits := new byte[8];
      EncodeWords(count, bits, 8);
      CountBytesAre(c);
      assert count[..2] == [c.low, c.high] && bits[..8] == bits[..];
      var index := count[0] / 8 % 64;
      var padLen := if index < 56 then 56 - index else 120 - index;
      PadLengthIs(index);
      Update(Padding(padLen));
      Update(bits[..]);
      EncodeWords(state, digestBytes, 16);
      StateBytesAre(Words4());
      assert state[..4] == [state[0], state[1], state[2], state[3]] && digestBytes[..16] == digestBytes[..];
      state[0], state[1], state[2], state[3] := oldState[0], oldState[1], oldState[2], oldState[3];
      count[0], count[1] := oldCount[0], oldCount[1];
    }

    /** `digest`. The updates inside `final` clear `_finished` again, so every call computes. */
    method TakeDigest() returns (result: array<byte>)
      requires Valid()
      modifies this`finished, state, count, buffer, digestBytes
      ensures Valid() && result == digestBytes
      ensures !old(finished) ==> !finished
      ensures !old(finished) ==> digestBytes[..] == Digest(old(Ctx())) && Ctx() == AfterDigest(old(Ctx()))
      ensures old(finished) ==> finished && digestBytes[..] == old(digestBytes[..]) && Ctx() == old(Ctx())
    {
      if !finished {
        finished := true;
        Finish();
      }
      result := digestBytes;
    }

    method ToString() returns (s: string)
      requires Valid()
      modifies this`finished, state, count, buffer, digestBytes
      ensures s == HexString(if old(finished) then old(digestBytes[..]) else Digest(old(Ctx())))
    {
      var d := TakeDigest();
      s := BytesToHexString(d, 16);
      assert d[..16] == d[..];
    }

    static method BytesToHexString(input: array<byte>, length: nat) returns (s: string)
      requires length <= input.Length
      ensures s == HexString(input[..length])
    {
      s := "";
      for i := 0 to length
        invariant s == HexString(input[..i])
      {
        var t := input[i];
        s := s + [HEX[t / 16]] + [HEX[t % 16]];
        assert input[..i + 1][..i] == input[..i];
      }
    }

    static method EncodeWords(input: array<word>, output: array<byte>, length: nat)
      requires length % 4 == 0 && length <= output.Length && length / 4 <= input.Length
      modifies output
      ensures output[..length] == WordsBytes(input[..length / 4])
      ensures output[length..] == old(output[length..])
    {
      hide WordBytes, WordsBytes;
      ghost var words := input[..];
      var i, j := 0, 0;
      assert WordsBytes(words[..0]) == [] by { WordsBytesNone(); }
      while j < length
        invariant j == 4 * i && j <= length
        invariant input[..] == words && output[..j] == WordsBytes(words[..i])
        invariant output[length..] == old(output[length..])
      {
        ghost var done, w := output[..j], input[i];
        output[j] := input[i] % 0x100;
        output[j + 1] := input[i] / 0x100 % 0x100;
        output[j + 2] := input[i] / 0x1_0000 % 0x100;
        output[j + 3] := input[i] / 0x100_0000 % 0x100;
        WordBytesAre(w, output[j..j + 4]);
        WordsBytesNext(words, i);
        assert output[..j + 4] == done + output[j..j + 4];
        i, j := i + 1, j + 4;
      }
    }

    /** The four bytes of a word do not overlap, so `|` of the shifted bytes is their sum. */
    static method DecodeWords(input: seq<byte>, output: array<word>, length: nat)
      requires length % 4 == 0 && length <= |input| && length / 4 <= output.Length
      modifies output
      ensures forall k :: 0 <= k < length / 4 ==> output[k] == WordAt(input, k)
    {
      var i, j := 0, 0;
      while j < length
        invariant j == 4 * i && j <= length
        invariant forall k :: 0 <= k < i ==> output[k] == WordAt(input, k)
      {
        output[i] := input[j] as int + input[j + 1] as int * 0x100 +
          input[j + 2] as int * 0x1_0000 + input[j + 3] as int * 0x100_0000;
        i, j := i + 1, j + 4;
      }
    }

    method TransformBlock(block: seq<byte>)
      requires Valid() && |block| == 64
      modifies state
      ensures Words4() == Transform(old(Words4()), block)
    {
      hide Steps;
      var x := new word[16];
      DecodeWords(block, x, 64);
      assert x[..] == Words(block);
      ghost var before := Words4();
      var s := Round1(State(state[0], state[1], state[2], state[3]), x[..]);
      s := Round2(s, x[..]);
      s := Round3(s, x[..]);
      s := Round4(s, x[..]);
      RoundsJoin(before, x[..]);
      state[0] := Add(state[0], s.a);
      state[1] := Add(state[1], s.b);
      state[2] := Add(state[2], s.c);
      state[3] := Add(state[3], s.d);
    }

    /** Round 1 of `transform`: sixteen steps on the four registers. */
    static method Round1(s: State, x: seq<word>) returns (r: State)
      requires |x| == 16
      ensures r == Steps(s, x, 0, 16)
    {
      hide FF, GG, HH, II, Steps, Step;
      var a, b, c, d := s.a, s.b, s.c, s.d;
      StepsNone(s, x, 0);
      FFNext(s, x, 0, State(a, b, c, d), 0, S11, 0xd76aa478);
      a := FF(a, b, c, d, x[0], S11, 0xd76aa478);
      FFNext(s, x, 1, State(d, a, b, c), 1, S12, 0xe8c7b756);
      d := FF(d, a, b, c, x[1], S12, 0xe8c7b756);
      FFNext(s, x, 2, State(c, d, a, b), 2, S13, 0x242070db);
      c := FF(c, d, a, b, x[2], S13, 0x242070db);
      FFNext(s, x, 3, State(b, c, d, a), 3, S14, 0xc1bdceee);
      b := FF(b, c, d, a, x[3], S14, 0xc1bdceee);
      FFNext(s, x, 4, State(a, b, c, d), 4, S11, 0xf57c0faf);
      a := FF(a, b, c, d, x[4], S11, 0xf57c0faf);
      FFNext(s, x, 5, State(d, a, b, c), 5, S12, 0x4787c62a);
      d := FF(d, a, b, c, x[5], S12, 0x4787c62a);
      FFNext(s, x, 6, State(c, d, a, b), 6, S13, 0xa8304613);
      c := FF(c, d, a, b, x[6], S13, 0xa8304613);
      FFNext(s, x, 7, State(b, c, d, a), 7, S14, 0xfd469501);
      b := FF(b, c, d, a, x[7], S14, 0xfd469501);
      FFNext(s, x, 8, State(a, b, c, d), 8, S11, 0x698098d8);
      a := FF(a, b, c, d, x[8], S11, 0x698098d8);
      FFNext(s, x, 9, State(d, a, b, c), 9, S12, 0x8b44f7af);
      d := FF(d, a, b, c, x[9], S12, 0x8b44f7af);
      FFNext(s, x, 10, State(c, d, a, b), 10, S13, 0xffff5bb1);
      c := FF(c, d, a, b, x[10], S13, 0xffff5bb1);
      FFNext(s, x, 11, State(b, c, d, a), 11, S14, 0x895cd7be);
      b := FF(b, c, d, a, x[11], S14, 0x895cd7be);
      FFNext(s, x, 12, State(a, b, c, d), 12, S11, 0x6b901122);
      a := FF(a, b, c, d, x[12], S11, 0x6b901122);
      FFNext(s, x, 13, State(d, a, b, c), 13, S12, 0xfd987193);
      d := FF(d, a, b, c, x[13], S12, 0xfd987193);
      FFNext(s, x, 14, State(c, d, a, b), 14, S13, 0xa679438e);
      c := FF(c, d, a, b, x[14], S13, 0xa679438e);
      FFNext(s, x, 15, State(b, c, d, a), 15, S14, 0x49b40821);
      b := FF(b, c, d, a, x[15], S14, 0x49b40821);
      r := State(a, b, c, d);
    }

    /** Round 2 of `transform`: sixteen steps on the four registers. */
    static method Round2(s: State, x: seq<word>) returns (r: State)
      requires |x| == 16
      ensures r == Steps(s, x, 16, 16)
    {
      hide FF, GG, HH, II, Steps, Step;
      var a, b, c, d := s.a, s.b, s.c, s.d;
      StepsNone(s, x, 16);
      GGNext(s, x, 16, State(a, b, c, d), 1, S21, 0xf61e2562);
      a := GG(a, b, c, d, x[1], S21, 0xf61e2562);
      GGNext(s, x, 17, State(d, a, b, c), 6, S22, 0xc040b340);
      d := GG(d, a, b, c, x[6], S22, 0xc040b340);
      GGNext(s, x, 18, State(c, d, a, b), 11, S23, 0x265e5a51);
      c := GG(c, d, a, b, x[11], S23, 0x265e5a51);
      GGNext(s, x, 19, State(b, c, d, a), 0, S24, 0xe9b6c7aa);
      b := GG(b, c, d, a, x[0], S24, 0xe9b6c7aa);
      GGNext(s, x, 20, State(a, b, c, d), 5, S21, 0xd62f105d);
      a := GG(a, b, c, d, x[5], S21, 0xd62f105d);
      GGNext(s, x, 21, State(d, a, b, c), 10, S22, 0x02441453);
      d := GG(d, a, b, c, x[10], S22, 0x02441453);
      GGNext(s, x, 22, State(c, d, a, b), 15, S23, 0xd8a1e681);
      c := GG(c, d, a, b, x[15], S23, 0xd8a1e681);
      GGNext(s, x, 23, State(b, c, d, a), 4, S24, 0xe7d3fbc8);
      b := GG(b, c, d, a, x[4], S24, 0xe7d3fbc8);
      GGNext(s, x, 24, State(a, b, c, d), 9, S21, 0x21e1cde6);
      a := GG(a, b, c, d, x[9], S21, 0x21e1cde6);
      GGNext(s, x, 25, State(d, a, b, c), 14, S22, 0xc33707d6);
      d := GG(d, a, b, c, x[14], S22, 0xc33707d6);
      GGNext(s, x, 26, State(c, d, a, b), 3, S23, 0xf4d50d87);
      c := GG(c, d, a, b, x[3], S23, 0xf4d50d87);
      GGNext(s, x, 27, State(b, c, d, a), 8, S24, 0x455a14ed);
      b := GG(b, c, d, a, x[8], S24, 0x455a14ed);
      GGNext(s, x, 28, State(a, b, c, d), 13, S21, 0xa9e3e905);
      a := GG(a, b, c, d, x[13], S21, 0xa9e3e905);
      GGNext(s, x, 29, State(d, a, b, c), 2, S22, 0xfcefa3f8);
      d := GG(d, a, b, c, x[2], S22, 0xfcefa3f8);
      GGNext(s, x, 30, State(c, d, a, b), 7, S23, 0x676f02d9);
      c := GG(c, d, a, b, x[7], S23, 0x676f02d9);
      GGNext(s, x, 31, State(b, c, d, a), 12, S24, 0x8d2a4c8a);
      b := GG(b, c, d, a, x[12], S24, 0x8d2a4c8a);
      r := State(a, b, c, d);
    }

    /** Round 3 of `transform`: sixteen steps on the four registers. */
    static method Round3(s: State, x: seq<word>) returns (r: State)
      requires |x| == 16
      ensures r == Steps(s, x, 32, 16)
    {
      hide FF, GG, HH, II, Steps, Step;
      var a, b, c, d := s.a, s.b, s.c, s.d;
      StepsNone(s, x, 32);
      HHNext(s, x, 32, State(a, b, c, d), 5, S31, 0xfffa3942);
      a := HH(a, b, c, d, x[5], S31, 0xfffa3942);
      HHNext(s, x, 33, State(d, a, b, c), 8, S32, 0x8771f681);
      d := HH(d, a, b, c, x[8], S32, 0x8771f681);
      HHNext(s, x, 34, State(c, d, a, b), 11, S33, 0x6d9d6122);
      c := HH(c, d, a, b, x[11], S33, 0x6d9d6122);
      HHNext(s, x, 35, State(b, c, d, a), 14, S34, 0xfde5380c);
      b := HH(b, c, d, a, x[14], S34, 0xfde5380c);
      HHNext(s, x, 36, State(a, b, c, d), 1, S31, 0xa4beea44);
      a := HH(a, b, c, d, x[1], S31, 0xa4beea44);
      HHNext(s, x, 37, State(d, a, b, c), 4, S32, 0x4bdecfa9);
      d := HH(d, a, b, c, x[4], S32, 0x4bdecfa9);
      HHNext(s, x, 38, State(c, d, a, b), 7, S33, 0xf6bb4b60);
      c := HH(c, d, a, b, x[7], S33, 0xf6bb4b60);
      HHNext(s, x, 39, State(b, c, d, a), 10, S34, 0xbebfbc70);
      b := HH(b, c, d, a, x[10], S34, 0xbebfbc70);
      HHNext(s, x, 40, State(a, b, c, d), 13, S31, 0x289b7ec6);
      a := HH(a, b, c, d, x[13], S31, 0x289b7ec6);
      HHNext(s, x, 41, State(d, a, b, c), 0, S32, 0xeaa127fa);
      d := HH(d, a, b, c, x[0], S32, 0xeaa127fa);
      HHNext(s, x, 42, State(c, d, a, b), 3, S33, 0xd4ef3085);
      c := HH(c, d, a, b, x[3], S33, 0xd4ef3085);
      HHNext(s, x, 43, State(b, c, d, a), 6, S34, 0x04881d05);
      b := HH(b, c, d, a, x[6], S34, 0x04881d05);
      HHNext(s, x, 44, State(a, b, c, d), 9, S31, 0xd9d4d039);
      a := HH(a, b, c, d, x[9], S31, 0xd9d4d039);
      HHNext(s, x, 45, State(d, a, b, c), 12, S32, 0xe6db99e5);
      d := HH(d, a, b, c, x[12], S32, 0xe6db99e5);
      HHNext(s, x, 46, State(c, d, a, b), 15, S33, 0x1fa27cf8);
      c := HH(c, d, a, b, x[15], S33, 0x1fa27cf8);
      HHNext(s, x, 47, State(b, c, d, a), 2, S34, 0xc4ac5665);
      b := HH(b, c, d, a, x[2], S34, 0xc4ac5665);
      r := State(a, b, c, d);
    }

    /** Round 4 of `transform`: sixteen steps on the four registers. */
    static method Round4(s: State, x: seq<word>) returns (r: State)
      requires |x| == 16
      ensures r == Steps(s, x, 48, 16)
    {
      hide FF, GG, HH, II, Steps, Step;
      var a, b, c, d := s.a, s.b, s.c, s.d;
      StepsNone(s, x, 48);
      IINext(s, x, 48, State(a, b, c, d), 0, S41, 0xf4292244);
      a := II(a, b, c, d, x[0], S41, 0xf4292244);
      IINext(s, x, 49, State(d, a, b, c), 7, S42, 0x432aff97);
      d := II(d, a, b, c, x[7], S42, 0x432aff97);
      IINext(s, x, 50, State(c, d, a, b), 14, S43, 0xab9423a7);
      c := II(c, d, a, b, x[14], S43, 0xab9423a7);
      IINext(s, x, 51, State(b, c, d, a), 5, S44, 0xfc93a039);
      b := II(b, c, d, a, x[5], S44, 0xfc93a039);
      IINext(s, x, 52, State(a, b, c, d), 12, S41, 0x655b59c3);
      a := II(a, b, c, d, x[12], S41, 0x655b59c3);
      IINext(s, x, 53, State(d, a, b, c), 3, S42, 0x8f0ccc92);
      d := II(d, a, b, c, x[3], S42, 0x8f0ccc92);
      IINext(s, x, 54, State(c, d, a, b), 10, S43, 0xffeff47d);
      c := II(c, d, a, b, x[10], S43, 0xffeff47d);
      IINext(s, x, 55, State(b, c, d, a), 1, S44, 0x85845dd1);
      b := II(b, c, d, a, x[1], S44, 0x85845dd1);
      IINext(s, x, 56, State(a, b, c, d), 8, S41, 0x6fa87e4f);
      a := II(a, b, c, d, x[8], S41, 0x6fa87e4f);
      IINext(s, x, 57, State(d, a, b, c), 15, S42, 0xfe2ce6e0);
      d := II(d, a, b, c, x[15], S42, 0xfe2ce6e0);
      IINext(s, x, 58, State(c, d, a, b), 6, S43, 0xa3014314);
      c := II(c, d, a, b, x[6], S43, 0xa3014314);
      IINext(s, x, 59, State(b, c, d, a), 13, S44, 0x4e0811a1);
      b := II(b, c, d, a, x[13], S44, 0x4e0811a1);
      IINext(s, x, 60, State(a, b, c, d), 4, S41, 0xf7537e82);
      a := II(a, b, c, d, x[4], S41, 0xf7537e82);
      IINext(s, x, 61, State(d, a, b, c), 11, S42, 0xbd3af235);
      d := II(d, a, b, c, x[11], S42, 0xbd3af235);
      IINext(s, x, 62, State(c, d, a, b), 2, S43, 0x2ad7d2bb);
      c := II(c, d, a, b, x[2], S43, 0x2ad7d2bb);
      IINext(s, x, 63, State(b, c, d, a), 9, S44, 0xeb86d391);
      b := II(b, c, d, a, x[9], S44, 0xeb86d391);
      r := State(a, b, c, d);
    }
  }

  lemma FFNext(s: State, x: seq<word>, i: nat, t: State, k: nat, shift: amount, ac: word)
    requires |x| == 16 && 0 <= i < 16 && k < 16
    ensures t == Steps(s, x, 0, i) && k == i && shift == Shift(i) && ac == T(i) ==>
              Steps(s, x, 0, i + 1) == State(t.d, FF(t.a, t.b, t.c, t.d, x[k], shift, ac), t.b, t.c)
  {
    hide FF;
  }

  lemma GGNext(s: State, x: seq<word>, i: nat, t: State, k: nat, shift: amount, ac: word)
    requires |x| == 16 && 16 <= i < 32 && k < 16
    ensures t == Steps(s, x, 16, i - 16) && k == (5 * i + 1) % 16 && shift == Shift(i) && ac == T(i) ==>
              Steps(s, x, 16, i - 15) == State(t.d, GG(t.a, t.b, t.c, t.d, x[k], shift, ac), t.b, t.c)
  {
    hide GG;
  }

  lemma HHNext(s: State, x: seq<word>, i: nat, t: State, k: nat, shift: amount, ac: word)
    requires |x| == 16 && 32 <= i < 48 && k < 16
    ensures t == Steps(s, x, 32, i - 32) && k == (3 * i + 5) % 16 && shift == Shift(i) && ac == T(i) ==>
              Steps(s, x, 32, i - 31) == State(t.d, HH(t.a, t.b, t.c, t.d, x[k], shift, ac), t.b, t.c)
  {
    hide HH;
  }

  lemma IINext(s: State, x: seq<word>, i: nat, t: State, k: nat, shift: amount, ac: word)
    requires |x| == 16 && 48 <= i < 64 && k < 16
    ensures t == Steps(s, x, 48, i - 48) && k == 7 * i % 16 && shift == Shift(i) && ac == T(i) ==>
              Steps(s, x, 48, i - 47) == State(t.d, II(t.a, t.b, t.c, t.d, x[k], shift, ac), t.b, t.c)
  {
    hide II;
  }

  lemma RoundsJoin(s: State, x: seq<word>)
    requires |x| == 16
    ensures Steps(Steps(Steps(Steps(s, x, 0, 16), x, 16, 16), x, 32, 16), x, 48, 16) == Steps(s, x, 0, 64)
  {
    hide Steps;
    StepsJoin(s, x, 0, 16, 16);
    StepsJoin(s, x, 0, 32, 16);
    StepsJoin(s, x, 0, 48, 16);
  }

  lemma FoldNone(s: State)
    ensures Fold(s, []) == s
  {
  }

  /** The two additions to the high word, as `update` makes them. */
  lemma CountIs(low: word, high: word, length: nat)
    ensures var bits := length * 8 % 0x1_0000_0000;
            var sum := (low as int + bits) % 0x1_0000_0000;
            var carried := if sum < bits then (high as int + 1) % 0x1_0000_0000 else high;
            && CountLow(low, length) == sum
            && CountHigh(low, high, length) ==
               (carried as int + length % 0x1_0000_0000 / 0x2000_0000) % 0x1_0000_0000
  {
    CountCarry(high, length % 0x1_0000_0000 / 0x2000_0000);
  }

  lemma CountCarry(high: word, add: nat)
    ensures ((high + 1) % 0x1_0000_0000 + add) % 0x1_0000_0000 == (high + 1 + add) % 0x1_0000_0000
  {
  }

  lemma UpdatedInBuffer(c: Context, input: seq<byte>)
    requires Shaped(c) && |input| < 64 - Index(c)
    ensures Updated(c, input) ==
            Context(c.state, CountLow(c.low, |input|), CountHigh(c.low, c.high, |input|),
                    Overlay(c.buffer, Index(c), input))
  {
    hide Fold, Transform, CountLow, CountHigh, Overlay, Index;
  }

  /** The block loop stops at the only place `Updated` can mean. */
  lemma UpdatedAfterBlocks(c: Context, input: seq<byte>, full: seq<byte>, part: nat, i: nat)
    requires Shaped(c) && part == 64 - Index(c) && part <= i <= |input| <= i + 63
    requires |input[part..i]| % 64 == 0
    requires full == Overlay(c.buffer, Index(c), input[..part])
    ensures Updated(c, input) ==
            Context(Fold(Transform(c.state, full), input[part..i]),
                    CountLow(c.low, |input|), CountHigh(c.low, c.high, |input|),
                    Overlay(full, 0, input[i..]))
  {
    hide Fold, Transform, CountLow, CountHigh, Overlay, Index;
    BlocksEnd(Index(c), |input|, i);
  }

  lemma BlocksEnd(index: nat, length: nat, i: nat)
    requires index < 64 && 64 - index <= i <= length <= i + 63
    requires (i - (64 - index)) % 64 == 0
    ensures i == 64 - index + Direct(index, length)
  {
  }

  lemma WordBytesAre(w: word, b: seq<byte>)
    requires |b| == 4 && b[0] == w % 0x100 && b[1] == w / 0x100 % 0x100
    requires b[2] == w / 0x1_0000 % 0x100 && b[3] == w / 0x100_0000 % 0x100
    ensures b == WordBytes(w)
  {
  }

  lemma WordsBytesNone()
    ensures WordsBytes([]) == []
  {
  }

  lemma WordsBytesNext(ws: seq<word>, i: nat)
    requires i < |ws|
    ensures WordsBytes(ws[..i + 1]) == WordsBytes(ws[..i]) + WordBytes(ws[i])
  {
    hide WordBytes;
    assert ws[..i + 1][..i] == ws[..i];
  }

  lemma CountBytesAre(c: Context)
    ensures WordsBytes([c.low, c.high]) == CountBytes(c)
  {
    hide WordBytes;
    assert [c.low, c.high][..1] == [c.low] && [c.low][..0] == [];
  }

  lemma StateBytesAre(s: State)
    ensures WordsBytes([s.a, s.b, s.c, s.d]) == StateBytes(s)
  {
    hide WordBytes, WordsBytes;
    var ws := [s.a, s.b, s.c, s.d];
    WordsBytesNone();
    assert ws[..0] == [] && ws[..4] == ws;
    WordsBytesNext(ws, 0);
    WordsBytesNext(ws, 1);
    WordsBytesNext(ws, 2);
    WordsBytesNext(ws, 3);
  }

  lemma PadLengthIs(index: nat)
    requires index < 64
    ensures PadLength(index) == if index < 56 then 56 - index else 120 - index
  {
  }
}
