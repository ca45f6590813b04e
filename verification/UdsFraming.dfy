/**
 The framing of the Unix-socket protocol (src/ipc/uds_server.c) as functions on
 byte strings: a frame is a 4-byte big-endian length followed by the payload.

 `Decode` reads a whole byte string at once.  `Feed` reads it the way the server
 does, one `recv` at a time with an undecoded rest in between, and is proved
 equal to `Decode` of the concatenation for every way to split the input.
 */
module UdsFraming {

  const READ_BUF: nat := 8192
  const MAX_FRAME: nat := 0x10_0000

  newtype byte = b: int | 0 <= b < 256
  type Bytes = seq<byte>

  // ---------------------------------------------------------------- frames

  function Be32(n: nat): (s: Bytes)
    requires n < 0x1_0000_0000
    ensures |s| == 4
  {
    [(n / 0x100_0000) as byte, (n / 0x1_0000 % 256) as byte, (n / 256 % 256) as byte, (n % 256) as byte]
  }

  function FromBe32(s: Bytes): nat
    requires |s| >= 4
  {
    s[0] as int * 0x100_0000 + s[1] as int * 0x1_0000 + s[2] as int * 256 + s[3] as int
  }

  function Frame(payload: Bytes): Bytes
    requires |payload| <= MAX_FRAME
  {
    Be32(|payload|) + payload
  }

  predicate Sendable(ps: seq<Bytes>) {
    forall i :: 0 <= i < |ps| ==> |ps[i]| <= MAX_FRAME
  }

  function Stream(ps: seq<Bytes>): Bytes
    requires Sendable(ps)
  {
    if ps == [] then [] else Frame(ps[0]) + Stream(ps[1..])
  }

  function Concat(chunks: seq<Bytes>): Bytes {
    if chunks == [] then [] else chunks[0] + Concat(chunks[1..])
  }

  /** The most significant byte goes first, as the protocol says: 0x01020304 is sent as 1, 2, 3, 4, and so read. */
  lemma MostSignificantFirst(n: nat, s: Bytes)
    requires n < 0x1_0000_0000 && |s| >= 4
    ensures Be32(n)[3] as int == n % 256 && Be32(n)[0] as int == n / 256 / 256 / 256
    ensures FromBe32(s) == ((s[0] as int * 256 + s[1] as int) * 256 + s[2] as int) * 256 + s[3] as int
    ensures Be32(0x0102_0304) == [1, 2, 3, 4] && FromBe32([1, 2, 3, 4]) == 0x0102_0304
  {
    assert n / 256 / 256 == n / 0x1_0000 && n / 0x1_0000 / 256 == n / 0x100_0000;
  }

  lemma {:induction false} StreamSnoc(ps: seq<Bytes>, p: Bytes)
    requires Sendable(ps) && |p| <= MAX_FRAME
    ensures Sendable(ps + [p]) && Stream(ps + [p]) == Stream(ps) + Frame(p)
  {
    if ps == [] {
      assert [] + [p] == [p] && [p][1..] == [];
      assert Stream([p]) == Frame(p) + [];
    } else {
      assert (ps + [p])[1..] == ps[1..] + [p];
      StreamSnoc(ps[1..], p);
      assert (Frame(ps[0]) + Stream(ps[1..])) + Frame(p) == Frame(ps[0]) + (Stream(ps[1..]) + Frame(p));
    }
  }

  lemma Be32RoundTrip(n: nat, tail: Bytes)
    requires n < 0x1_0000_0000
    ensures FromBe32(Be32(n) + tail) == n
  {
    var a, b, c := n / 0x100_0000, n / 0x1_0000, n / 256;
    assert c == b * 256 + c % 256 && b == c / 256;
    assert b == a * 256 + b % 256 && a == b / 256;
    assert n == c * 256 + n % 256;
  }

  // ---------------------------------------------------------------- decoding

  /** Payloads in order, the bytes left undecoded, and whether a length above the limit was met. */
  datatype Parse = Parse(served: seq<Bytes>, rest: Bytes, oversized: bool) {

    /** The payloads `ps`, then this parse. */
    function After(ps: seq<Bytes>): Parse {
      Parse(ps + served, rest, oversized)
    }
  }

  /** A complete frame stands at the front. */
  predicate WholeFrame(b: Bytes) {
    |b| >= 4 && FromBe32(b) <= MAX_FRAME && |b| >= 4 + FromBe32(b)
  }

  function FirstPayload(b: Bytes): Bytes
    requires WholeFrame(b)
  {
    b[4..4 + FromBe32(b)]
  }

  function AfterFirst(b: Bytes): Bytes
    requires WholeFrame(b)
  {
    b[4 + FromBe32(b)..]
  }

  function Decode(b: Bytes): Parse
    decreases |b|
  {
    if WholeFrame(b) then
      Decode(AfterFirst(b)).After([FirstPayload(b)])
    else
      Parse([], b, |b| >= 4 && FromBe32(b) > MAX_FRAME)
  }

  lemma AfterAfter(p: Parse, xs: seq<Bytes>, ys: seq<Bytes>)
    ensures p.After(ys).After(xs) == p.After(xs + ys)
  {
    assert xs + (ys + p.served) == (xs + ys) + p.served;
  }

  /** Appending bytes does not change a complete first frame. */
  lemma FirstFrameStays(a: Bytes, b: Bytes)
    requires WholeFrame(a)
    ensures WholeFrame(a + b) && FirstPayload(a + b) == FirstPayload(a) && AfterFirst(a + b) == AfterFirst(a) + b
  {
    assert FromBe32(a + b) == FromBe32(a);
  }

  /** Decoding stops where it must wait, so more bytes continue from the rest; an oversized length is final. */
  lemma {:induction false} DecodeAppend(a: Bytes, b: Bytes)
    ensures !Decode(a).oversized ==> Decode(a + b) == Decode(Decode(a).rest + b).After(Decode(a).served)
    ensures Decode(a).oversized ==> Decode(a + b).oversized && Decode(a + b).served == Decode(a).served
    decreases |a|
  {
    if WholeFrame(a) {
      FirstFrameStays(a, b);
      DecodeAppend(AfterFirst(a), b);
      var p := Decode(AfterFirst(a));
      assert Decode(a) == p.After([FirstPayload(a)]);
      assert Decode(a + b) == Decode(AfterFirst(a) + b).After([FirstPayload(a)]);
      AfterAfter(Decode(p.rest + b), [FirstPayload(a)], p.served);
    } else if |a| >= 4 {
      assert FromBe32(a + b) == FromBe32(a);
    }
  }

  /** A frame followed by anything decodes to its payload first. */
  lemma FrameFirst(p: Bytes, tail: Bytes)
    requires |p| <= MAX_FRAME
    ensures var b := Frame(p) + tail;
      WholeFrame(b) && FirstPayload(b) == p && AfterFirst(b) == tail
  {
    var b := Frame(p) + tail;
    assert b == Be32(|p|) + (p + tail);
    Be32RoundTrip(|p|, p + tail);
  }

  /** Encoding then decoding any sequence of payloads, with more bytes behind them. */
  lemma {:induction false} DecodeStream(ps: seq<Bytes>, tail: Bytes)
    requires Sendable(ps)
    ensures Decode(Stream(ps) + tail) == Decode(tail).After(ps)
  {
    if ps == [] {
      assert Stream(ps) + tail == tail;
      assert ps + Decode(tail).served == Decode(tail).served;
    } else {
      var more := Stream(ps[1..]) + tail;
      assert Stream(ps) + tail == Frame(ps[0]) + more;
      FrameFirst(ps[0], more);
      assert Decode(Frame(ps[0]) + more) == Decode(more).After([ps[0]]);
      DecodeStream(ps[1..], tail);
      AfterAfter(Decode(tail), [ps[0]], ps[1..]);
      assert ps == [ps[0]] + ps[1..];
    }
  }

  // ---------------------------------------------------------------- reading in chunks

  /** One `recv` after another: decode what is buffered plus the chunk, keep the rest. */
  function Feed(buffered: Bytes, chunks: seq<Bytes>): Parse
    decreases |chunks|
  {
    if chunks == [] then
      Parse([], buffered, false)
    else
      var p := Decode(buffered + chunks[0]);
      if p.oversized then
        p
      else
        Feed(p.rest, chunks[1..]).After(p.served)
  }

  /** Nothing decodable is left waiting in the buffer between two reads. */
  predicate Drained(b: Bytes) {
    Decode(b) == Parse([], b, false)
  }

  lemma {:induction false} RestIsDrained(b: Bytes)
    ensures !Decode(b).oversized ==> Drained(Decode(b).rest)
    decreases |b|
  {
    if WholeFrame(b) {
      RestIsDrained(AfterFirst(b));
    }
  }

  /** How the bytes are split into reads does not matter: same payloads, same rest, same verdict on the length. */
  lemma {:induction false} ChunkingIndependence(buffered: Bytes, chunks: seq<Bytes>)
    requires Drained(buffered)
    ensures var p := Feed(buffered, chunks);
      var whole := Decode(buffered + Concat(chunks));
      p.served == whole.served && p.oversized == whole.oversized && (!p.oversized ==> p.rest == whole.rest)
    decreases |chunks|
  {
    if chunks == [] {
      assert buffered + Concat(chunks) == buffered;
    } else {
      var p := Decode(buffered + chunks[0]);
      assert buffered + Concat(chunks) == (buffered + chunks[0]) + Concat(chunks[1..]);
      DecodeAppend(buffered + chunks[0], Concat(chunks[1..]));
      if !p.oversized {
        RestIsDrained(buffered + chunks[0]);
        ChunkingIndependence(p.rest, chunks[1..]);
      }
    }
  }

  /** A payload of at most READ_BUF - 4 bytes fits the read buffer together with its length. */
  predicate Fitting(ps: seq<Bytes>) {
    forall i :: 0 <= i < |ps| ==> |ps[i]| <= READ_BUF - 4
  }

  /** Any prefix of a fitting stream decodes to some of its payloads and a rest short enough to leave room. */
  lemma {:induction false} PrefixLeavesRoom(ps: seq<Bytes>, b: Bytes)
    requires Fitting(ps) && b <= Stream(ps)
    ensures var p := Decode(b);
      !p.oversized && p.served <= ps && |p.rest| < READ_BUF
  {
    if |b| >= 4 {
      FrameFirst(ps[0], Stream(ps[1..]));
      SameLength(b, Stream(ps));
      if WholeFrame(b) {
        assert FirstPayload(b) == FirstPayload(Stream(ps));
        assert AfterFirst(b) <= AfterFirst(Stream(ps));
        PrefixLeavesRoom(ps[1..], AfterFirst(b));
        assert ps == [ps[0]] + ps[1..];
      }
    }
  }

  lemma SameLength(a: Bytes, b: Bytes)
    requires 4 <= |a| && a <= b
    ensures FromBe32(a) == FromBe32(b)
  {
  }

  lemma {:induction false} ConcatSplit(chunks: seq<Bytes>, k: nat)
    requires k <= |chunks|
    ensures Concat(chunks) == Concat(chunks[..k]) + Concat(chunks[k..])
  {
    if k > 0 {
      ConcatSplit(chunks[1..], k - 1);
      assert chunks[1..][..k - 1] == chunks[..k][1..];
      assert chunks[1..][k - 1..] == chunks[k..];
      assert chunks[..k][0] == chunks[0];
    } else {
      assert chunks[k..] == chunks;
    }
  }

  /** Fitting payloads, split into reads in any way, are served exactly and in order, and `recv` always has room. */
  lemma EveryPayloadIsServed(ps: seq<Bytes>, chunks: seq<Bytes>)
    requires Fitting(ps) && Concat(chunks) == Stream(ps)
    ensures Feed([], chunks) == Parse(ps, [], false)
    ensures forall k :: 0 <= k <= |chunks| ==> |Feed([], chunks[..k]).rest| < READ_BUF
  {
    ChunkingIndependence([], chunks);
    DecodeStream(ps, []);
    assert Stream(ps) + [] == Stream(ps) && ps + [] == ps && [] + Concat(chunks) == Concat(chunks);
    assert Decode([]) == Parse([], [], false);
    forall k | 0 <= k <= |chunks|
      ensures |Feed([], chunks[..k]).rest| < READ_BUF
    {
      ConcatSplit(chunks, k);
      ChunkingIndependence([], chunks[..k]);
      assert [] + Concat(chunks[..k]) == Concat(chunks[..k]);
      PrefixLeavesRoom(ps, Concat(chunks[..k]));
    }
  }

  // ---------------------------------------------------------------- the payload limit

  /** Reads the kernel can deliver: each is nonempty and fits behind what is buffered. */
  predicate Deliverable(buffered: Bytes, chunks: seq<Bytes>)
    decreases |chunks|
  {
    chunks != [] ==>
      && 1 <= |chunks[0]| <= READ_BUF - |buffered|
      && Deliverable(Decode(buffered + chunks[0]).rest, chunks[1..])
  }

  /** What has arrived of a frame that does not fit the buffer is not decodable. */
  lemma LongFrameWaits(p: Bytes, tail: Bytes, b: Bytes)
    requires READ_BUF - 4 < |p| <= MAX_FRAME && b <= Frame(p) + tail && |b| <= READ_BUF
    ensures Decode(b) == Parse([], b, false)
  {
    if |b| >= 4 {
      assert Frame(p) + tail == Be32(|p|) + (p + tail);
      Be32RoundTrip(|p|, p + tail);
      SameLength(b, Frame(p) + tail);
    }
  }

  /** While a frame does not fit the buffer, nothing is served and the buffer only fills up. */
  lemma {:induction false} LongFrameStalls(p: Bytes, tail: Bytes, buffered: Bytes, chunks: seq<Bytes>)
    requires READ_BUF - 4 < |p| <= MAX_FRAME
    requires buffered + Concat(chunks) <= Frame(p) + tail && |buffered| <= READ_BUF && Deliverable(buffered, chunks)
    ensures Feed(buffered, chunks) == Parse([], buffered + Concat(chunks), false)
    ensures |buffered + Concat(chunks)| <= READ_BUF
    decreases |chunks|
  {
    if chunks != [] {
      var b := buffered + chunks[0];
      assert b + Concat(chunks[1..]) == buffered + Concat(chunks);
      assert b <= b + Concat(chunks[1..]);
      LongFrameWaits(p, tail, b);
      LongFrameStalls(p, tail, b, chunks[1..]);
    }
  }

  predicate ServedBy(p: Bytes, chunks: seq<Bytes>)
    requires |p| <= MAX_FRAME
  {
    Deliverable([], chunks) && Concat(chunks) == Frame(p) && Feed([], chunks).served == [p]
  }

  /** A payload can be received at all exactly when it has at most READ_BUF - 4 = 8188 bytes. */
  lemma PayloadLimit(p: Bytes)
    requires |p| <= MAX_FRAME
    ensures (exists chunks :: ServedBy(p, chunks)) <==> |p| <= READ_BUF - 4
  {
    if |p| <= READ_BUF - 4 {
      var one := [Frame(p)];
      assert one[1..] == [] && [p][1..] == [];
      assert Concat(one) == one[0] + Concat([]) == Frame(p);
      assert Stream([p]) == Frame([p][0]) + Stream([]) == Frame(p);
      EveryPayloadIsServed([p], one);
      assert ServedBy(p, one);
    } else {
      forall chunks
        ensures !ServedBy(p, chunks)
      {
        if Deliverable([], chunks) && Concat(chunks) == Frame(p) {
          assert [] + Concat(chunks) == Frame(p) + [];
          LongFrameStalls(p, [], [], chunks);
        }
      }
    }
  }
}
