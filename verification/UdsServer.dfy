/**
 One client connection of the Unix-socket server (src/ipc/uds_server.c): the
 fixed read buffer, the partial-write queue and the request loop, updated in
 place.  The kernel is an input: `recv` delivers any chunk that fits, and the
 outcome of every `send` is given beforehand.
 */
module UdsServer {
  import opened Common
  import opened UdsFraming

  const WRITE_BUF: nat := 65536

  /** What recv came to; an empty `Data` is end of stream, or a buffer with no room left. */
  datatype Recv = Again | Failed | Data(chunk: Bytes)

  /** What one send came to; it accepts at most what it is offered. */
  datatype SendResult = WouldBlock | Error | Accepted(n: nat)

  type Kernel = nat -> SendResult

  /**
   `ClosedInLoop`: answering a request closed the client while the request loop was still
   running.  The C loop goes on there and moves the buffer by counters that were just
   cleared; what that does to memory is not modelled, only the length it asks for.
   */
  datatype ReadResult = Waiting | Progress | Closed | ClosedInLoop

  /** The frames that answer the requests, in order. */
  function Responses(handler: Bytes -> Option<Bytes>, requests: seq<Bytes>): Bytes {
    Concat(seq(|requests|, i requires 0 <= i < |requests| => Response(handler, requests[i])))
  }

  /** A request may have no answer, and an answer above the limit is dropped. */
  function Response(handler: Bytes -> Option<Bytes>, request: Bytes): Bytes {
    match handler(request)
    case None => []
    case Some(json) => if |json| > MAX_FRAME then [] else Frame(json)
  }

  const TWO_64: nat := 0x1_0000_0000_0000_0000

  /** The length of the memmove behind a request, in 64-bit arithmetic: the bytes left, if the request is there. */
  function MoveLength(rlen: nat, frameLen: nat): (n: int)
    requires rlen <= READ_BUF && frameLen <= MAX_FRAME
    ensures 0 <= n < TWO_64 && (n <= READ_BUF <==> 4 + frameLen <= rlen)
  {
    if 4 + frameLen <= rlen then rlen - (4 + frameLen) else TWO_64 + rlen - (4 + frameLen)
  }

  // ---------------------------------------------------------------- the write queue

  /** The queue between `taken` and `filled`, and how often send was called. */
  datatype Queue = Queue(taken: nat, filled: nat, sends: nat)

  function Least(a: nat, b: nat): nat {
    if a < b then a else b
  }

  /** The queue after one send, unless the send fails. */
  function Flushed(k: Kernel, q: Queue): (r: Option<Queue>)
    requires q.taken <= q.filled
    ensures r.None? <==> q.taken < q.filled && k(q.sends).Error?
    ensures r.Some? ==> r.value.taken <= r.value.filled <= q.filled
  {
    if q.taken == q.filled then Some(q)
    else
      match k(q.sends)
      case WouldBlock => Some(q.(sends := q.sends + 1))
      case Error => None
      case Accepted(n) =>
        var t := q.taken + Least(n, q.filled - q.taken);
        Some(if t == q.filled then Queue(0, 0, q.sends + 1) else Queue(t, q.filled, q.sends + 1))
  }

  /** The queue after `len` more bytes, unless they overflow it or the send that follows fails. */
  function Enqueued(k: Kernel, q: Queue, len: nat): (r: Option<Queue>)
    requires q.taken <= q.filled
    ensures r.Some? ==> r.value.taken <= r.value.filled <= q.filled + len
  {
    if q.filled + len > WRITE_BUF then None else Flushed(k, q.(filled := q.filled + len))
  }

  /** The queue after one request was answered. */
  function AnsweredOne(k: Kernel, q: Queue, response: Option<Bytes>): (r: Option<Queue>)
    requires q.taken <= q.filled
    ensures r.Some? ==> r.value.taken <= r.value.filled
  {
    if response.None? || |response.value| > MAX_FRAME then Some(q)
    else
      var q1 := Enqueued(k, q, 4);
      if q1.None? then None else Enqueued(k, q1.value, |response.value|)
  }

  /** The queue after the requests were answered in order; None once that closes the client. */
  function Answered(k: Kernel, q: Queue, handler: Bytes -> Option<Bytes>, requests: seq<Bytes>): (r: Option<Queue>)
    requires q.taken <= q.filled
    ensures r.Some? ==> r.value.taken <= r.value.filled
  {
    if requests == [] then Some(q)
    else
      var before := Answered(k, q, handler, requests[..|requests| - 1]);
      if before.None? then None else AnsweredOne(k, before.value, handler(requests[|requests| - 1]))
  }

  lemma AnsweredSnoc(k: Kernel, q: Queue, handler: Bytes -> Option<Bytes>, done: seq<Bytes>, request: Bytes)
    requires q.taken <= q.filled && Answered(k, q, handler, done).Some?
    ensures Answered(k, q, handler, done + [request])
         == AnsweredOne(k, Answered(k, q, handler, done).value, handler(request))
  {
    assert (done + [request])[..|done|] == done;
  }

  /** From queue `q` and enqueued bytes `base`, answering `done` led to queue `now` and enqueued bytes `all`. */
  ghost predicate Ledger(k: Kernel, handler: Bytes -> Option<Bytes>, q: Queue, base: Bytes, done: seq<Bytes>,
                          now: Queue, all: Bytes)
    requires q.taken <= q.filled
  {
    all == base + Responses(handler, done) && Answered(k, q, handler, done) == Some(now)
  }

  lemma NoAnswers(k: Kernel, handler: Bytes -> Option<Bytes>, q: Queue, base: Bytes)
    requires q.taken <= q.filled
    ensures Ledger(k, handler, q, base, [], q, base)
  {
    NoResponses(handler);
    assert base + [] == base;
  }

  /** One more answered request. */
  lemma AnswersStep(k: Kernel, handler: Bytes -> Option<Bytes>, q: Queue, base: Bytes, done: seq<Bytes>,
                    now: Queue, all: Bytes, request: Bytes)
    requires q.taken <= q.filled && now.taken <= now.filled && Ledger(k, handler, q, base, done, now, all)
    ensures var next := AnsweredOne(k, now, handler(request));
      && (Answered(k, q, handler, done + [request]).Some? <==> next.Some?)
      && (next.Some? ==>
            Ledger(k, handler, q, base, done + [request], next.value, all + Response(handler, request)))
  {
    AnsweredSnoc(k, q, handler, done, request);
    AnswersGrow(handler, base, done, all, request);
  }

  lemma AnswersGrow(handler: Bytes -> Option<Bytes>, base: Bytes, done: seq<Bytes>, all: Bytes, request: Bytes)
    requires all == base + Responses(handler, done)
    ensures all + Response(handler, request) == base + Responses(handler, done + [request])
  {
    ResponsesSnoc(handler, done, request);
  }

  /** What closes the client early closes it. */
  lemma {:induction false} AnsweredPrefix(k: Kernel, q: Queue, handler: Bytes -> Option<Bytes>,
                                          a: seq<Bytes>, b: seq<Bytes>)
    requires q.taken <= q.filled && a <= b && Answered(k, q, handler, a).None?
    ensures Answered(k, q, handler, b).None?
  {
    if |a| < |b| {
      AnsweredPrefix(k, q, handler, a, b[..|b| - 1]);
    } else {
      assert a == b;
    }
  }

  /** Without send errors, answers whose frames fit behind what is queued never close the client. */
  lemma {:induction false} FittingAnswersStay(k: Kernel, q: Queue, handler: Bytes -> Option<Bytes>,
                                              requests: seq<Bytes>)
    requires q.taken <= q.filled && (forall i: nat :: !k(i).Error?)
    requires q.filled + |Responses(handler, requests)| <= WRITE_BUF
    ensures var r := Answered(k, q, handler, requests);
      r.Some? && r.value.filled <= q.filled + |Responses(handler, requests)|
  {
    if requests != [] {
      var before, last := requests[..|requests| - 1], requests[|requests| - 1];
      assert requests == before + [last];
      ResponsesSnoc(handler, before, last);
      FittingAnswersStay(k, q, handler, before);
    }
  }

  /** A kernel that never takes anything: the client stays open exactly as long as all answers fit the buffer. */
  lemma {:induction false} StalledIff(k: Kernel, q: Queue, handler: Bytes -> Option<Bytes>, requests: seq<Bytes>)
    requires q.taken <= q.filled <= WRITE_BUF && (forall i: nat :: k(i) == WouldBlock)
    ensures var r := Answered(k, q, handler, requests);
      && (r.Some? <==> q.filled + |Responses(handler, requests)| <= WRITE_BUF)
      && (r.Some? ==> r.value.filled == q.filled + |Responses(handler, requests)|)
  {
    if requests == [] {
      NoResponses(handler);
    } else {
      var before, last := requests[..|requests| - 1], requests[|requests| - 1];
      assert requests == before + [last];
      ResponsesSnoc(handler, before, last);
      StalledIff(k, q, handler, before);
    }
  }

  /** An answer that the queue can hold, or that is dropped, or none. */
  predicate Queueable(response: Option<Bytes>) {
    response.None? || |response.value| <= WRITE_BUF || |response.value| > MAX_FRAME
  }

  /** A kernel that takes everything: the client stays open exactly if no answer is between the two limits. */
  lemma {:induction false} PromptIff(k: Kernel, q: Queue, handler: Bytes -> Option<Bytes>, requests: seq<Bytes>)
    requires q.taken == q.filled == 0 && (forall i: nat :: k(i) == Accepted(WRITE_BUF))
    ensures var r := Answered(k, q, handler, requests);
      && (r.Some? <==> forall i :: 0 <= i < |requests| ==> Queueable(handler(requests[i])))
      && (r.Some? ==> r.value.taken == r.value.filled == 0)
  {
    if requests != [] {
      PromptIff(k, q, handler, requests[..|requests| - 1]);
      assert forall i :: 0 <= i < |requests| - 1 ==> requests[..|requests| - 1][i] == requests[i];
    }
  }

  /** What the kernel takes of the bytes offered to successive sends: a beginning of each, no longer than it says. */
  function Taken(k: Kernel, offers: seq<Bytes>): Bytes {
    if offers == [] then []
    else
      var n := |offers| - 1;
      Taken(k, offers[..n]) +
      match k(n)
      case Accepted(most) => if most < |offers[n]| then offers[n][..most] else offers[n]
      case _ => []
  }

  lemma TakenSnoc(k: Kernel, offers: seq<Bytes>, offer: Bytes)
    ensures Taken(k, offers + [offer]) == Taken(k, offers) +
      match k(|offers|)
      case Accepted(most) => if most < |offer| then offer[..most] else offer
      case _ => []
  {
    assert (offers + [offer])[..|offers|] == offers;
  }

  class Client {
    const handler: Bytes -> Option<Bytes>
    const kernel: Kernel
    var open: bool
    var rbuf: array<byte>
    var rlen: nat
    var haveLen: bool
    var frameLen: nat
    var wbuf: array<byte>
    var wlen: nat
    var wpos: nat
    var sends: nat                  // send calls so far

    ghost var served: seq<Bytes>    // requests passed to the handler
    ghost var enqueued: Bytes       // all frames queued since accept
    ghost var sent: Bytes           // bytes the kernel accepted
    ghost var offers: seq<Bytes>    // what each send call offered

    ghost predicate Valid()
      reads this, rbuf, wbuf
    {
      && rbuf != wbuf && rbuf.Length == READ_BUF && wbuf.Length == WRITE_BUF
      && rlen <= READ_BUF && wpos <= wlen <= WRITE_BUF
      && (haveLen ==> 4 <= rlen && frameLen == FromBe32(rbuf[..rlen]) && frameLen <= MAX_FRAME)
      && (open ==> sent + wbuf[wpos..wlen] == enqueued)
      && |offers| == sends && sent == Taken(kernel, offers)
      && (!open ==> rlen == 0 && !haveLen && frameLen == 0)
    }

    /** Received bytes not decoded yet. */
    function Buffered(): Bytes
      requires rlen <= rbuf.Length
      reads this`rlen, this`rbuf, rbuf
    {
      rbuf[..rlen]
    }

    function Unsent(): Queue
      reads this`wpos, this`wlen, this`sends
    {
      Queue(wpos, wlen, sends)
    }

    /** Since `base` was enqueued and `q` unsent, exactly the requests `done` were answered. */
    ghost predicate AnsweredSince(done: seq<Bytes>, base: Bytes, q: Queue)
      requires q.taken <= q.filled
      reads this`enqueued, this`wpos, this`wlen, this`sends
    {
      Ledger(kernel, handler, q, base, done, Unsent(), enqueued)
    }

    constructor (handler: Bytes -> Option<Bytes>, kernel: Kernel)
      ensures Valid() && open && fresh(rbuf) && fresh(wbuf) && Unsent() == Queue(0, 0, 0)
      ensures this.handler == handler && this.kernel == kernel
      ensures Buffered() == [] && served == [] && enqueued == [] && sent == []
    {
      this.handler, this.kernel := handler, kernel;
      rbuf := new byte[READ_BUF];
      wbuf := new byte[WRITE_BUF];
      open, rlen, haveLen, frameLen, wlen, wpos, sends := true, 0, false, 0, 0, 0, 0;
      served, enqueued, sent, offers := [], [], [], [];
    }

    /** close_client: all buffer state is cleared. */
    method Close()
      requires Valid()
      modifies this`open, this`rlen, this`haveLen, this`frameLen, this`wlen, this`wpos
      ensures Valid() && !open && rlen == 0 && !haveLen && frameLen == 0 && wlen == 0 && wpos == 0
    {
      open, rlen, haveLen, frameLen, wlen, wpos := false, 0, false, 0, 0, 0;
    }

    /**
     client_write: one send of all that is queued.  The bytes the kernel takes leave the
     queue at its front; only an error of that send closes the client.
     */
    method Write() returns (ok: bool)
      requires Valid() && open
      modifies this`open, this`rlen, this`haveLen, this`frameLen, this`wlen, this`wpos, this`sends, this`sent,
               this`offers
      ensures Valid() && ok == open
      ensures !ok <==> old(wpos) < old(wlen) && kernel(old(sends)).Error?
      ensures open ==> Flushed(kernel, old(Unsent())) == Some(Unsent())
      ensures offers == old(offers) + (if old(wpos) < old(wlen) then [old(wbuf[wpos..wlen])] else [])
      ensures var queued := old(wbuf[wpos..wlen]);
        if queued != [] && kernel(old(sends)).Accepted? then
          var m := if kernel(old(sends)).n < |queued| then kernel(old(sends)).n else |queued|;
          sent == old(sent) + queued[..m] && wbuf[wpos..wlen] == queued[m..]
        else
          sent == old(sent) && (open ==> wbuf[wpos..wlen] == queued)
      ensures open ==> rlen == old(rlen) && haveLen == old(haveLen) && frameLen == old(frameLen)
    {
      if wpos >= wlen {
        return true;
      }
      var r := kernel(sends);
      ghost var queued := wbuf[wpos..wlen];
      TakenSnoc(kernel, offers, queued);
      offers := offers + [queued];
      sends := sends + 1;
      match r {
        case WouldBlock =>
          assert sent + [] == sent;
          return true;
        case Error =>
          assert sent + [] == sent;
          Close();
          return false;
        case Accepted(most) =>
          var n := Least(most, wlen - wpos);
          Advance(n);
          return true;
      }
    }

    /** The kernel took `n` bytes from the front of the queue. */
    method Advance(n: nat)
      requires open && wpos + n <= wlen <= wbuf.Length
      requires sent + wbuf[wpos..wlen] == enqueued
      modifies this`wlen, this`wpos, this`sent
      ensures wpos <= wlen <= wbuf.Length && sent + wbuf[wpos..wlen] == enqueued
      ensures sent == old(sent) + old(wbuf[wpos..wlen])[..n] && wbuf[wpos..wlen] == old(wbuf[wpos..wlen])[n..]
      ensures Unsent() ==
        if old(wpos) + n == old(wlen) then Queue(0, 0, sends) else Queue(old(wpos) + n, old(wlen), sends)
    {
      ghost var queued := wbuf[wpos..wlen];
      assert queued == queued[..n] + queued[n..];
      assert queued[n..] == wbuf[wpos + n..wlen];
      assert (sent + queued[..n]) + queued[n..] == sent + queued;
      sent := sent + queued[..n];
      wpos := wpos + n;
      if wpos >= wlen {
        wpos := 0;
        wlen := 0;
      }
    }

    /** client_enqueue: append and try to send; an overflow or an error of that send closes the client, nothing else. */
    method Enqueue(data: Bytes) returns (ok: bool)
      requires Valid() && open
      modifies this`open, this`rlen, this`haveLen, this`frameLen, this`wlen, this`wpos, this`sends, this`sent,
               this`offers, this`enqueued, wbuf
      ensures Valid() && ok == open
      ensures !ok <==>
        || old(wlen) + |data| > WRITE_BUF
        || (old(wpos) < old(wlen) + |data| && kernel(old(sends)).Error?)
      ensures open ==> Enqueued(kernel, old(Unsent()), |data|) == Some(Unsent())
      ensures open ==> enqueued == old(enqueued) + data
      ensures open ==> rlen == old(rlen) && haveLen == old(haveLen) && frameLen == old(frameLen)
    {
      if wlen + |data| > WRITE_BUF {
        Close();
        return false;
      }
      Append(data);
      ghost var q := Unsent();
      assert Enqueued(kernel, old(Unsent()), |data|) == Flushed(kernel, q);
      ok := Write();
    }

    /** The memcpy to the end of the queue. */
    method Append(data: Bytes)
      requires Valid() && open && wlen + |data| <= WRITE_BUF
      modifies this`wlen, this`enqueued, wbuf
      ensures Valid() && wlen == old(wlen) + |data| && enqueued == old(enqueued) + data
    {
      ghost var queued := wbuf[wpos..wlen];
      forall i | 0 <= i < |data| {
        wbuf[wlen + i] := data[i];
      }
      assert wbuf[wpos..wlen + |data|] == queued + data;
      assert sent + (queued + data) == (sent + queued) + data;
      wlen := wlen + |data|;
      enqueued := enqueued + data;
    }

    /** client_send_frame: length, then payload; a payload above the limit is dropped without closing. */
    method SendFrame(json: Bytes) returns (ok: bool)
      requires Valid() && open
      modifies this`open, this`rlen, this`haveLen, this`frameLen, this`wlen, this`wpos, this`sends, this`sent,
               this`offers, this`enqueued, wbuf
      ensures Valid()
      ensures ok <==> open && |json| <= MAX_FRAME
      ensures open <==> AnsweredOne(kernel, old(Unsent()), Some(json)).Some?
      ensures open ==> Unsent() == AnsweredOne(kernel, old(Unsent()), Some(json)).value
      ensures open ==> enqueued == old(enqueued) + (if |json| > MAX_FRAME then [] else Frame(json))
      ensures open ==> rlen == old(rlen) && haveLen == old(haveLen) && frameLen == old(frameLen)
    {
      if |json| > MAX_FRAME {
        return false;
      }
      ok := Enqueue(Be32(|json|));
      if !ok {
        return false;
      }
      ok := Enqueue(json);
      assert old(enqueued) + Be32(|json|) + json == old(enqueued) + Frame(json);
    }

    /** The handler call for one complete request, and its answer. */
    method Answer(request: Bytes)
      requires Valid() && open
      modifies this`open, this`rlen, this`haveLen, this`frameLen, this`wlen, this`wpos, this`sends, this`sent,
               this`offers, this`enqueued, this`served, wbuf
      ensures Valid() && served == old(served) + [request]
      ensures open <==> AnsweredOne(kernel, old(Unsent()), handler(request)).Some?
      ensures open ==> Unsent() == AnsweredOne(kernel, old(Unsent()), handler(request)).value
      ensures open ==> enqueued == old(enqueued) + Response(handler, request)
      ensures open ==> rlen == old(rlen) && haveLen == old(haveLen) && frameLen == old(frameLen)
    {
      served := served + [request];
      var response := handler(request);
      if response.Some? {
        var ok := SendFrame(response.value);
      }
    }

    /** memmove of the unread bytes to the front of the buffer. */
    method Shift(consumed: nat)
      requires Valid() && open && consumed <= rlen
      modifies this`rlen, this`haveLen, this`frameLen, rbuf
      ensures Valid() && Buffered() == old(Buffered())[consumed..] && !haveLen
    {
      ghost var before := rbuf[..rlen];
      forall i | 0 <= i < rlen - consumed {
        rbuf[i] := rbuf[consumed + i];
      }
      rlen := rlen - consumed;
      haveLen := false;
      frameLen := 0;
      assert rbuf[..rlen] == before[consumed..];
    }

    /**
     client_process_read: one recv, then every complete request in the buffer.  The
     client is closed exactly on a read error, at the end of the stream, by a
     length above the limit, or when answering overflows the queue or a send fails.
     */
    method ProcessRead(recv: Recv) returns (r: ReadResult)
      requires Valid() && open
      requires recv.Data? ==> |recv.chunk| <= READ_BUF - rlen
      modifies this, rbuf, wbuf
      ensures Valid() && rbuf == old(rbuf) && wbuf == old(wbuf)
      ensures open <==> r.Waiting? || r.Progress?
      ensures r.Waiting? <==> recv.Again?
      ensures r.Waiting? ==>
        Buffered() == old(Buffered()) && served == old(served) && enqueued == old(enqueued) && Unsent() == old(Unsent())
      ensures recv.Failed? || (recv.Data? && recv.chunk == []) ==> r.Closed? && served == old(served)
      ensures recv.Data? && recv.chunk != [] ==>
        var p := Decode(old(Buffered()) + recv.chunk);
        var q := Answered(kernel, old(Unsent()), handler, p.served);
        && (r.ClosedInLoop? <==> q.None?)
        && (r.Closed? <==> q.Some? && p.oversized)
        && (!r.ClosedInLoop? ==> served == old(served) + p.served)
        && (r.Progress? ==>
              && Buffered() == p.rest && Unsent() == q.value
              && enqueued == old(enqueued) + Responses(handler, p.served))
        && (r.ClosedInLoop? ==> old(served) < served <= old(served) + p.served)
      ensures r.ClosedInLoop? ==> 4 + frameLen > rlen && MoveLength(rlen, frameLen) == TWO_64 - 4 > READ_BUF
    {
      if recv.Again? {
        return Waiting;
      }
      if recv.Failed? || recv.chunk == [] {
        Close();
        return Closed;
      }
      forall i | 0 <= i < |recv.chunk| {
        rbuf[rlen + i] := recv.chunk[i];
      }
      ghost var whole := old(Buffered()) + recv.chunk;
      assert rbuf[..rlen + |recv.chunk|] == whole;
      rlen := rlen + |recv.chunk|;
      ghost var done;
      r, done := Drain(whole, enqueued, Unsent());
      if r.ClosedInLoop? {
        AnsweredPrefix(kernel, old(Unsent()), handler, done, Decode(whole).served);
      }
    }

    /** Whether a complete request stands in the buffer; None when its length is above the limit. */
    method HaveRequest() returns (r: Option<bool>)
      requires Valid()
      modifies this`haveLen, this`frameLen
      ensures Valid() && Buffered() == old(Buffered())
      ensures r.None? <==> rlen >= 4 && FromBe32(Buffered()) > MAX_FRAME
      ensures r.Some? ==> r.value == WholeFrame(Buffered())
      ensures r.Some? && r.value ==> frameLen == FromBe32(Buffered())
    {
      if !haveLen {
        if rlen < 4 {
          return Some(false);
        }
        var len := FromBe32(rbuf[..rlen]);
        if len > MAX_FRAME {
          return None;
        }
        frameLen := len;
        haveLen := true;
      }
      return Some(rlen >= 4 + frameLen);
    }

    /** The payload of the complete frame at the front. */
    method NextRequest() returns (request: Bytes)
      requires Valid() && WholeFrame(Buffered()) && frameLen == FromBe32(Buffered())
      ensures request == FirstPayload(Buffered())
    {
      request := rbuf[4..4 + frameLen];
      assert Buffered()[4..4 + frameLen] == request;
    }

    /** Answer the complete request at the front and drop its bytes. */
    method TakeRequest(ghost done: seq<Bytes>, ghost base: Bytes, ghost q: Queue) returns (ok: bool)
      requires Valid() && open && WholeFrame(Buffered()) && frameLen == FromBe32(Buffered())
      requires q.taken <= q.filled && AnsweredSince(done, base, q)
      modifies this, rbuf, wbuf
      ensures Valid() && rbuf == old(rbuf) && wbuf == old(wbuf) && ok == open
      ensures served == old(served) + [FirstPayload(old(Buffered()))]
      ensures open <==> Answered(kernel, q, handler, done + [FirstPayload(old(Buffered()))]).Some?
      ensures open ==> AnsweredSince(done + [FirstPayload(old(Buffered()))], base, q)
      ensures open ==> Buffered() == AfterFirst(old(Buffered()))
      ensures !open ==> 4 + frameLen > rlen
    {
      var request := NextRequest();
      AnswersStep(kernel, handler, q, base, done, Unsent(), enqueued, request);
      Answer(request);
      // without this test, as in the C loop, the move below would be MoveLength(0, 0) long
      if !open {
        return false;
      }
      Shift(4 + frameLen);
      return true;
    }

    /**
     One round of the request loop after `done` was answered; Waiting means that the
     rest is not a complete request.
     */
    method ServeOne(ghost whole: Bytes, ghost first: seq<Bytes>, ghost done: seq<Bytes>, ghost base: Bytes,
                    ghost q: Queue)
      returns (r: ReadResult, ghost done': seq<Bytes>)
      requires Valid() && open && Midway(whole, done, Buffered()) && served == first + done
      requires q.taken <= q.filled && AnsweredSince(done, base, q)
      modifies this, rbuf, wbuf
      ensures Valid() && rbuf == old(rbuf) && wbuf == old(wbuf) && open == (r.Waiting? || r.Progress?)
      ensures served == first + done'
      ensures open ==> AnsweredSince(done', base, q)
      ensures r.Progress? ==> Midway(whole, done', Buffered()) && rlen < old(rlen)
      ensures r.Waiting? ==> Decode(whole) == Parse(done', Buffered(), false)
      ensures r.Closed? ==> done' == done && Decode(whole).served == done' && Decode(whole).oversized
      ensures r.ClosedInLoop? ==>
        done' != [] && done' <= Decode(whole).served && Answered(kernel, q, handler, done').None?
    {
      done' := done;
      var have := HaveRequest();
      if have.Some? && have.value {
        var ok;
        ok, done' := AnswerNext(whole, first, done, base, q);
        return if ok then Progress else ClosedInLoop, done';
      }
      MidwayEnd(whole, done, Buffered());
      if have.None? {
        Close();
        return Closed, done';
      }
      r := Waiting;
    }

    /** The round of the request loop that answers a complete request. */
    method AnswerNext(ghost whole: Bytes, ghost first: seq<Bytes>, ghost done: seq<Bytes>, ghost base: Bytes,
                      ghost q: Queue)
      returns (ok: bool, ghost done': seq<Bytes>)
      requires Valid() && open && Midway(whole, done, Buffered()) && served == first + done
      requires WholeFrame(Buffered()) && frameLen == FromBe32(Buffered())
      requires q.taken <= q.filled && AnsweredSince(done, base, q)
      modifies this, rbuf, wbuf
      ensures Valid() && rbuf == old(rbuf) && wbuf == old(wbuf) && open == ok
      ensures served == first + done' && done' != [] && done' <= Decode(whole).served
      ensures ok ==> Midway(whole, done', Buffered()) && AnsweredSince(done', base, q) && rlen < old(rlen)
      ensures !ok ==> Answered(kernel, q, handler, done').None?
    {
      MidwayStep(whole, done, Buffered());
      done' := done + [FirstPayload(Buffered())];
      assert served + [FirstPayload(Buffered())] == first + done';
      ok := TakeRequest(done, base, q);
    }

    /** The request loop on a buffer that holds `whole`. */
    method Drain(ghost whole: Bytes, ghost base: Bytes, ghost q: Queue)
      returns (r: ReadResult, ghost done: seq<Bytes>)
      requires Valid() && open && Buffered() == whole && base == enqueued && q == Unsent()
      modifies this, rbuf, wbuf
      ensures Valid() && rbuf == old(rbuf) && wbuf == old(wbuf)
      ensures !r.Waiting? && open == r.Progress?
      ensures served == old(served) + done
      ensures r.Progress? ==> AnsweredSince(done, base, q) && Decode(whole) == Parse(done, Buffered(), false)
      ensures r.Closed? ==>
        Decode(whole).served == done && Decode(whole).oversized && Answered(kernel, q, handler, done).Some?
      ensures r.ClosedInLoop? ==> 4 + frameLen > rlen
      ensures r.ClosedInLoop? ==>
        done != [] && done <= Decode(whole).served && Answered(kernel, q, handler, done).None?
    {
      done := [];
      NoAnswers(kernel, handler, q, base);
      MidwayStart(whole);
      while rlen > 0
        invariant Valid() && open && rbuf == old(rbuf) && wbuf == old(wbuf)
        invariant served == old(served) + done && AnsweredSince(done, base, q)
        invariant Midway(whole, done, Buffered())
        decreases rlen
      {
        r, done := ServeOne(whole, old(served), done, base, q);
        if r.Waiting? {
          return Progress, done;
        }
        if !r.Progress? {
          return;
        }
      }
      MidwayEnd(whole, done, Buffered());
      r := Progress;
    }
  }

  /** `done` was served from `whole` and `left` is still to be decoded. */
  ghost predicate Midway(whole: Bytes, done: seq<Bytes>, left: Bytes) {
    Decode(whole) == Decode(left).After(done)
  }

  lemma MidwayStart(whole: Bytes)
    ensures Midway(whole, [], whole)
  {
    assert [] + Decode(whole).served == Decode(whole).served;
  }

  lemma MidwayStep(whole: Bytes, done: seq<Bytes>, left: Bytes)
    requires Midway(whole, done, left) && WholeFrame(left)
    ensures Midway(whole, done + [FirstPayload(left)], AfterFirst(left))
    ensures done + [FirstPayload(left)] <= Decode(whole).served
  {
    AfterAfter(Decode(AfterFirst(left)), done, [FirstPayload(left)]);
  }

  /** At a place where decoding must wait, everything decodable was served. */
  lemma MidwayEnd(whole: Bytes, done: seq<Bytes>, left: Bytes)
    requires Midway(whole, done, left) && !WholeFrame(left)
    ensures Decode(whole) == Parse(done, left, |left| >= 4 && FromBe32(left) > MAX_FRAME)
  {
    assert done + [] == done;
  }

  lemma ResponsesAppend(handler: Bytes -> Option<Bytes>, a: seq<Bytes>, b: seq<Bytes>)
    ensures Responses(handler, a + b) == Responses(handler, a) + Responses(handler, b)
  {
    var all := seq(|a + b|, i requires 0 <= i < |a + b| => Response(handler, (a + b)[i]));
    ConcatSplit(all, |a|);
    assert all[..|a|] == seq(|a|, i requires 0 <= i < |a| => Response(handler, a[i]));
    assert all[|a|..] == seq(|b|, i requires 0 <= i < |b| => Response(handler, b[i]));
  }

  lemma NoResponses(handler: Bytes -> Option<Bytes>)
    ensures Responses(handler, []) == []
  {
  }

  /** One more request adds one answer. */
  lemma ResponsesSnoc(handler: Bytes -> Option<Bytes>, a: seq<Bytes>, request: Bytes)
    ensures Responses(handler, a + [request]) == Responses(handler, a) + Response(handler, request)
  {
    ResponsesAppend(handler, a, [request]);
    var one := seq(1, i requires 0 <= i < 1 => Response(handler, [request][i]));
    assert one == [Response(handler, request)];
    assert Concat(one) == one[0] + Concat(one[1..]);
    assert Concat(one[1..]) == [];
  }

  /**
   An empty request whose answer has one byte more than the write buffer: whatever the
   kernel takes, the client is closed inside the loop, and the move that follows in C is
   2^64 - 4 bytes long.
   */
  method MoveUnderflowExample(kernel: Kernel) returns (r: ReadResult, length: int)
    ensures r.ClosedInLoop? && length == 0xffff_ffff_ffff_fffc
  {
    var answer := seq(WRITE_BUF + 1, _ => 32 as byte);
    var c := new Client(_ => Some(answer), kernel);
    var request := [0, 0, 0, 0];
    EmptyRequest(request);
    assert [] + request == request;
    OverflowingAnswer(kernel, c.handler, answer);
    r := c.ProcessRead(Data(request));
    length := MoveLength(c.rlen, c.frameLen);
  }

  lemma EmptyRequest(request: Bytes)
    requires request == [0, 0, 0, 0]
    ensures Decode(request) == Parse([[]], [], false)
  {
    assert FromBe32(request) == 0 && AfterFirst(request) == [] && FirstPayload(request) == [];
  }

  lemma OverflowingAnswer(k: Kernel, handler: Bytes -> Option<Bytes>, answer: Bytes)
    requires handler([]) == Some(answer) && |answer| == WRITE_BUF + 1
    ensures Answered(k, Queue(0, 0, 0), handler, [[]]).None?
  {
    var one: seq<Bytes> := [[]];
    assert one[..0] == [] && Answered(k, Queue(0, 0, 0), handler, []) == Some(Queue(0, 0, 0));
  }

  /** The answers that are sent: all there are, in order, but for those above the frame limit. */
  function Answers(handler: Bytes -> Option<Bytes>, requests: seq<Bytes>): (r: seq<Bytes>)
    ensures Sendable(r)
  {
    if requests == [] then []
    else
      Answers(handler, requests[..|requests| - 1]) +
      match handler(requests[|requests| - 1])
      case Some(json) => if |json| <= MAX_FRAME then [json] else []
      case None => []
  }

  /** The peer decodes what is sent to it as exactly those answers. */
  lemma PeerReads(handler: Bytes -> Option<Bytes>, requests: seq<Bytes>)
    ensures Decode(Responses(handler, requests)) == Parse(Answers(handler, requests), [], false)
  {
    ResponsesAreStream(handler, requests);
    var ps := Answers(handler, requests);
    DecodeStream(ps, []);
    assert Stream(ps) + [] == Stream(ps) && ps + [] == ps;
  }

  lemma {:induction false} ResponsesAreStream(handler: Bytes -> Option<Bytes>, requests: seq<Bytes>)
    ensures Responses(handler, requests) == Stream(Answers(handler, requests))
  {
    if requests == [] {
      NoResponses(handler);
    } else {
      var before, last := requests[..|requests| - 1], requests[|requests| - 1];
      assert requests == before + [last];
      ResponsesSnoc(handler, before, last);
      ResponsesAreStream(handler, before);
      var done := Answers(handler, before);
      if handler(last).Some? && |handler(last).value| <= MAX_FRAME {
        StreamSnoc(done, handler(last).value);
      } else {
        assert done + [] == done && Stream(done) + [] == Stream(done);
      }
    }
  }

  /**
   A whole connection: the peer sends fitting payloads as one byte stream, cut into
   reads in any way, and the socket becomes writable any number of times before
   each read.  If no send fails and the answers fit the write buffer, the client
   stays open, every read has room, the handler sees exactly the payloads in order,
   and what the kernel took plus what is still queued is exactly the answers.
   */
  method ServeStream(c: Client, ps: seq<Bytes>, chunks: seq<Bytes>, flushes: seq<nat>) returns (completed: bool)
    requires c.Valid() && c.open && c.Buffered() == [] && c.served == [] && c.enqueued == []
    requires c.Unsent() == Queue(0, 0, 0)
    requires Fitting(ps) && Concat(chunks) == Stream(ps) && |flushes| == |chunks|
    requires forall i :: 0 <= i < |chunks| ==> 1 <= |chunks[i]|
    requires forall i :: 0 <= i < |chunks| ==> |chunks[i]| <= READ_BUF - |Feed([], chunks[..i]).rest|
    modifies c, c.rbuf, c.wbuf
    ensures c.Valid() && c.open == completed
    ensures Unhindered(c.kernel, c.handler, ps) ==> completed
    ensures completed ==>
      && c.served == ps && c.Buffered() == []
      && c.sent + c.wbuf[c.wpos..c.wlen] == Responses(c.handler, ps)
    // what the kernel took is on the wire once and in order, and the peer will read the answers
    ensures c.sent == Taken(c.kernel, c.offers)
    ensures completed ==> Decode(c.sent + c.wbuf[c.wpos..c.wlen]) == Parse(Answers(c.handler, ps), [], false)
    ensures c.served <= ps
  {
    EveryPayloadIsServed(ps, chunks);
    for i := 0 to |chunks|
      invariant c.Valid() && c.open && c.rbuf == old(c.rbuf) && c.wbuf == old(c.wbuf)
      invariant Upto(c, ps, chunks, i)
    {
      var ok := ServeWritable(c, ps, chunks, i, flushes[i]);
      if ok {
        ok := ServeRead(c, ps, chunks, i);
      }
      if !ok {
        return false;
      }
    }
    assert chunks[..|chunks|] == chunks;
    assert c.served == ps && c.Buffered() == [];
    assert c.sent + c.wbuf[c.wpos..c.wlen] == Responses(c.handler, ps);
    PeerReads(c.handler, ps);
    return true;
  }

  /** After `i` reads: served and left is what decoding them gives, and every answer was enqueued. */
  ghost predicate Upto(c: Client, ps: seq<Bytes>, chunks: seq<Bytes>, i: nat)
    requires i <= |chunks| && c.rlen <= c.rbuf.Length
    reads c`rlen, c`rbuf, c.rbuf, c`served, c`enqueued, c`wlen
  {
    && Feed([], chunks[..i]) == Parse(c.served, c.Buffered(), false) && c.served <= ps
    && c.enqueued == Responses(c.handler, c.served) && c.wlen <= |c.enqueued|
  }

  /** The socket becomes writable `times` times. */
  method ServeWritable(c: Client, ghost ps: seq<Bytes>, ghost chunks: seq<Bytes>, ghost i: nat, times: nat)
    returns (ok: bool)
    requires c.Valid() && c.open && i <= |chunks| && Upto(c, ps, chunks, i)
    modifies c`open, c`rlen, c`haveLen, c`frameLen, c`wlen, c`wpos, c`sends, c`sent, c`offers
    ensures c.Valid() && ok == c.open && c.served == old(c.served)
    ensures ok ==> Upto(c, ps, chunks, i)
    ensures (forall n: nat :: !c.kernel(n).Error?) ==> ok
  {
    var n := 0;
    while n < times
      invariant c.Valid() && c.open && Upto(c, ps, chunks, i)
    {
      ok := c.Write();
      if !ok {
        return;
      }
      n := n + 1;
    }
    ok := true;
  }

  /** One read of a connection. */
  method ServeRead(c: Client, ghost ps: seq<Bytes>, chunks: seq<Bytes>, i: nat) returns (ok: bool)
    requires c.Valid() && c.open && i < |chunks| && Upto(c, ps, chunks, i) && Fitting(ps)
    requires 1 <= |chunks[i]| <= READ_BUF - c.rlen
    requires Concat(chunks) == Stream(ps)
    modifies c, c.rbuf, c.wbuf
    ensures c.Valid() && ok == c.open && c.rbuf == old(c.rbuf) && c.wbuf == old(c.wbuf) && c.served <= ps
    ensures ok ==> Upto(c, ps, chunks, i + 1)
    ensures Unhindered(c.kernel, c.handler, ps) ==> ok
  {
    ReadStep(ps, chunks, i);
    ghost var before, q := c.served, c.Unsent();
    ghost var p := Decode(c.Buffered() + chunks[i]);
    RoundFits(c.kernel, c.handler, q, before, p.served, ps);
    ResponsesAppend(c.handler, before, p.served);
    var r := c.ProcessRead(Data(chunks[i]));
    ok := c.open;
    if ok {
      FilledBound(c.kernel, q, c.handler, p.served);
    }
  }

  /** No send fails, and all answers together fit the write buffer. */
  ghost predicate Unhindered(k: Kernel, handler: Bytes -> Option<Bytes>, ps: seq<Bytes>) {
    (forall i: nat :: !k(i).Error?) && |Responses(handler, ps)| <= WRITE_BUF
  }

  /** The queue grows by at most the answers. */
  lemma {:induction false} FilledBound(k: Kernel, q: Queue, handler: Bytes -> Option<Bytes>, requests: seq<Bytes>)
    requires q.taken <= q.filled && Answered(k, q, handler, requests).Some?
    ensures Answered(k, q, handler, requests).value.filled <= q.filled + |Responses(handler, requests)|
  {
    if requests != [] {
      var before, last := requests[..|requests| - 1], requests[|requests| - 1];
      assert requests == before + [last];
      ResponsesSnoc(handler, before, last);
      FilledBound(k, q, handler, before);
    }
  }

  /** One round of an unhindered connection cannot close the client. */
  lemma RoundFits(k: Kernel, handler: Bytes -> Option<Bytes>, q: Queue,
                  before: seq<Bytes>, now: seq<Bytes>, ps: seq<Bytes>)
    requires q.taken <= q.filled <= |Responses(handler, before)| && before + now <= ps
    ensures Unhindered(k, handler, ps) ==> Answered(k, q, handler, now).Some?
  {
    var rest := ps[|before + now|..];
    assert ps == (before + now) + rest;
    ResponsesAppend(handler, before + now, rest);
    ResponsesAppend(handler, before, now);
    if Unhindered(k, handler, ps) {
      FittingAnswersStay(k, q, handler, now);
    }
  }

  /** One more read extends the payloads served so far within `ps`. */
  lemma ReadStep(ps: seq<Bytes>, chunks: seq<Bytes>, i: nat)
    requires Fitting(ps) && Concat(chunks) == Stream(ps) && i < |chunks|
    ensures var f := Feed([], chunks[..i]);
      var p := Decode(f.rest + chunks[i]);
      && !p.oversized && f.served + p.served <= ps
      && Feed([], chunks[..i + 1]) == p.After(f.served)
  {
    var before, after := Concat(chunks[..i]), Concat(chunks[..i + 1]);
    PrefixOfStream(ps, chunks, i);
    PrefixOfStream(ps, chunks, i + 1);
    ConcatSnoc(chunks, i);
    DecodeAppend(before, chunks[i]);
  }

  lemma ConcatSnoc(chunks: seq<Bytes>, i: nat)
    requires i < |chunks|
    ensures Concat(chunks[..i + 1]) == Concat(chunks[..i]) + chunks[i]
  {
    ConcatSplit(chunks[..i + 1], i);
    assert chunks[..i + 1][..i] == chunks[..i] && chunks[..i + 1][i..] == [chunks[i]];
    assert Concat([chunks[i]]) == chunks[i] + [] == chunks[i];
  }

  /** The first `i` reads together: they decode like their concatenation, a prefix of the stream. */
  lemma PrefixOfStream(ps: seq<Bytes>, chunks: seq<Bytes>, i: nat)
    requires Fitting(ps) && Concat(chunks) == Stream(ps) && i <= |chunks|
    ensures Feed([], chunks[..i]) == Decode(Concat(chunks[..i]))
    ensures !Feed([], chunks[..i]).oversized && Feed([], chunks[..i]).served <= ps
  {
    ConcatSplit(chunks, i);
    assert [] + Concat(chunks[..i]) == Concat(chunks[..i]);
    ChunkingIndependence([], chunks[..i]);
    PrefixLeavesRoom(ps, Concat(chunks[..i]));
  }
}
