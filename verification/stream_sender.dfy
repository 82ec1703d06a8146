/** The sending side of a stream connection: one block of the write buffers for each request. */
module StreamSenders {
  import opened Base
  import opened Vint
  import opened Crc32
  import opened Splitting
  import opened Framing
  import opened BlockList
  import opened Buffers
  import opened BufferManagers
  import opened Segmentation

  /** What a written callback is told. */
  datatype Written = Written(status: int, code: Status, data: seq<byte>)

  /** How a payload looks on the wire. */
  type Encoding = seq<byte> -> seq<byte>

  /** Block `b` is the request of `payload`: the request record, then the encoded payload. */
  ghost predicate RequestOf(b: Block, reqSize: nat, enc: Encoding, payload: seq<byte>) {
    b.Ok() && b.used == 0 && |payload| < WORD && reqSize < b.size && b.bytes[reqSize..] == enc(payload)
  }

  /** The blocks are the requests of `payloads`, and the platform holds their addresses. */
  ghost predicate Outstanding(blocks: seq<Block>, requests: seq<nat>, reqSize: nat, enc: Encoding,
                              payloads: seq<seq<byte>>)
    decreases blocks
  {
    && |blocks| == |requests| == |payloads|
    && (blocks != [] ==>
          && RequestOf(blocks[0], reqSize, enc, payloads[0]) && blocks[0].pointer == requests[0]
          && Outstanding(blocks[1..], requests[1..], reqSize, enc, payloads[1..]))
  }

  lemma {:induction false} OutstandingMore(blocks: seq<Block>, requests: seq<nat>, reqSize: nat, enc: Encoding,
                                           payloads: seq<seq<byte>>, b: Block, p: seq<byte>)
    requires Outstanding(blocks, requests, reqSize, enc, payloads) && RequestOf(b, reqSize, enc, p)
    ensures Outstanding(blocks + [b], requests + [b.pointer], reqSize, enc, payloads + [p])
    decreases blocks
  {
    if blocks != [] {
      OutstandingMore(blocks[1..], requests[1..], reqSize, enc, payloads[1..], b, p);
      assert (blocks + [b])[1..] == blocks[1..] + [b] && (payloads + [p])[1..] == payloads[1..] + [p];
      assert (requests + [b.pointer])[1..] == requests[1..] + [b.pointer];
    }
  }

  /** The callbacks so far carried the first payloads, one each, in order. */
  ghost predicate CalledBack(written: seq<Written>, accepted: seq<seq<byte>>)
    decreases written
  {
    written != [] ==>
      var n := |written| - 1;
      n < |accepted| && written[n].data == accepted[n] && CalledBack(written[..n], accepted)
  }

  lemma {:induction false} CalledBackMore(written: seq<Written>, accepted: seq<seq<byte>>, p: seq<byte>)
    requires CalledBack(written, accepted)
    ensures CalledBack(written, accepted + [p])
    decreases written
  {
    if written != [] {
      CalledBackMore(written[..|written| - 1], accepted, p);
    }
  }

  lemma {:induction false} CalledBackEach(written: seq<Written>, accepted: seq<seq<byte>>, i: nat)
    requires CalledBack(written, accepted) && i < |written|
    ensures i < |accepted| && written[i].data == accepted[i]
    decreases written
  {
    if i < |written| - 1 {
      CalledBackEach(written[..|written| - 1], accepted, i);
    }
  }

  /** The encoded payloads one after another. */
  function WireOf(enc: Encoding, payloads: seq<seq<byte>>): seq<byte>
    decreases payloads
  {
    if payloads == [] then [] else enc(payloads[0]) + WireOf(enc, payloads[1..])
  }

  lemma {:induction false} WireOfMore(enc: Encoding, payloads: seq<seq<byte>>, p: seq<byte>)
    ensures WireOf(enc, payloads + [p]) == WireOf(enc, payloads) + enc(p)
    decreases payloads
  {
    if payloads == [] {
      assert payloads + [p] == [p] && WireOf(enc, [p]) == enc(p) + WireOf(enc, []);
    } else {
      assert (payloads + [p])[1..] == payloads[1..] + [p];
      WireOfMore(enc, payloads[1..], p);
    }
  }

  /** A block pushed at one end and taken whole from there leaves the queue and the account as they were. */
  lemma PutTakeUndone(q: Queue, end: End, b: Block, data: seq<byte>)
    requires Accounted(q) && b.Ok() && b.used == 0 && b.size == |data|
    ensures q.Put(end, b).WriteAt(end, data).Ok()
    ensures q.Put(end, b).WriteAt(end, data).Take(end, b.size, true) == (q, Success)
  {
    var w := q.Put(end, b).WriteAt(end, data);
    var d := Drain(w.blocks, end, b.size, true);
    assert d.left == q.blocks && d.freed && d.taken == b.size;
  }

  /** Queue `w` is `q` and the request of a payload behind it; taking that away gives `q` again. */
  ghost predicate Prepared(q: Queue, w: Queue, reqSize: nat, enc: Encoding, payload: seq<byte>, total: nat,
                           req: Option<nat>) {
    && Accounted(w) && |w.blocks| == |q.blocks| + 1 && w.blocks[..|q.blocks|] == q.blocks
    && RequestOf(w.blocks[|q.blocks|], reqSize, enc, payload) && req == Some(w.blocks[|q.blocks|].pointer)
    && w.Take(Back, total, true) == (q, Success)
  }

  /** Filling a new block with a request record and a frame makes it the payload's request. */
  lemma RequestFilled(q: Queue, b: Block, reqSize: nat, enc: Encoding, payload: seq<byte>, data: seq<byte>)
      returns (w: Queue)
    requires Accounted(q) && b.Ok() && b.used == 0 && b.size == |data|
    requires reqSize < |data| && data[reqSize..] == enc(payload) && |payload| < WORD
    ensures |data| <= q.Put(Back, b).At(Back).Unread() && q.Put(Back, b).Ok()
    ensures w == q.Put(Back, b).WriteAt(Back, data) && Prepared(q, w, reqSize, enc, payload, |data|, Some(b.pointer))
  {
    w := q.Put(Back, b).WriteAt(Back, data);
    assert b.Write(data).bytes == data;
    assert w == q.Put(Back, b.Write(data));
    PutKeepsAccount(q, Back, b.Write(data));
    PutTakeUndone(q, Back, b, data);
  }

  /** What the platform and the callbacks have seen: the payloads accepted, the requests not yet
      completed, oldest first, the callbacks made, and the bytes handed over. */
  datatype Log = Log(accepted: seq<seq<byte>>, requests: seq<nat>, written: seq<Written>, wire: seq<byte>) {
    function Accept(payload: seq<byte>, req: nat, frame: seq<byte>): Log {
      Log(accepted + [payload], requests + [req], written, wire + frame)
    }

    function Complete(w: Written): Log
      requires requests != []
    {
      this.(requests := requests[1..], written := written + [w])
    }

    /** What a completion of `req` does: the requests before it are called back as lost, in order, and it
        as written. */
    function CompleteTo(req: nat, status: int): Log
      decreases requests
    {
      if requests == [] || |written| >= |accepted| then this
      else if requests[0] == req then Complete(Written(status, Success, accepted[|written|]))
      else Complete(Written(status, NodeTimeout, accepted[|written|])).CompleteTo(req, status)
    }
  }

  /** Only the requests up to the completed one are called back. A completion out of nowhere calls back
      all of them. */
  lemma {:induction false} CompletedUpTo(log: Log, req: nat, status: int) returns (k: nat)
    requires |log.accepted| == |log.written| + |log.requests|
    ensures k <= |log.requests| && log.CompleteTo(req, status).requests == log.requests[k..]
    ensures |log.CompleteTo(req, status).written| == |log.written| + k
    ensures log.CompleteTo(req, status).written[..|log.written|] == log.written
    ensures if req in log.requests then k > 0 && log.requests[k - 1] == req && req !in log.requests[..k - 1]
            else k == |log.requests|
    decreases log.requests
  {
    if log.requests == [] {
      return 0;
    }
    if log.requests[0] == req {
      return 1;
    }
    var n := |log.written|;
    var one := log.Complete(Written(status, NodeTimeout, log.accepted[n]));
    var rest := CompletedUpTo(one, req, status);
    var l := log.CompleteTo(req, status);
    assert log.written == l.written[..n + 1][..n] == l.written[..n];
    k := rest + 1;
    assert one.requests[..k - 1] == log.requests[1..k];
  }

  /** Each of them once, in order and with its own payload; all but the completed one as lost. */
  lemma {:induction false} CompletedAs(log: Log, req: nat, status: int, i: nat)
    requires |log.accepted| == |log.written| + |log.requests|
    requires |log.written| + i < |log.CompleteTo(req, status).written|
    ensures i < |log.requests|
    ensures log.CompleteTo(req, status).written[|log.written| + i] ==
            Written(status, if log.requests[i] == req then Success else NodeTimeout, log.accepted[|log.written| + i])
    decreases log.requests
  {
    var n := |log.written|;
    if log.requests != [] && log.requests[0] != req {
      var one := log.Complete(Written(status, NodeTimeout, log.accepted[n]));
      if i > 0 {
        CompletedAs(one, req, status, i - 1);
      } else {
        var k := CompletedUpTo(one, req, status);
        assert one.CompleteTo(req, status).written[..n + 1][n] == one.written[n];
      }
    }
  }

  /** Each accepted payload either has had its callback or is outstanding, in order, and the wire
      holds the encodings of all of them. */
  ghost predicate Balanced(q: Queue, reqSize: nat, enc: Encoding, log: Log) {
    && Accounted(q) && |log.written| <= |log.accepted|
    && CalledBack(log.written, log.accepted)
    && Outstanding(q.blocks, log.requests, reqSize, enc, log.accepted[|log.written|..])
    && log.wire == WireOf(enc, log.accepted)
  }

  lemma BalancedMore(q: Queue, reqSize: nat, enc: Encoding, log: Log, w: Queue, payload: seq<byte>, total: nat,
                     req: Option<nat>, frame: seq<byte>) returns (log': Log)
    requires Balanced(q, reqSize, enc, log) && Prepared(q, w, reqSize, enc, payload, total, req)
    requires frame == enc(payload)
    ensures req.Some? && log' == log.Accept(payload, req.value, frame) && Balanced(w, reqSize, enc, log')
  {
    var n := |log.written|;
    log' := log.Accept(payload, req.value, frame);
    OutstandingMore(q.blocks, log.requests, reqSize, enc, log.accepted[n..], w.blocks[|q.blocks|], payload);
    assert w.blocks == q.blocks + [w.blocks[|q.blocks|]];
    assert log'.accepted[n..] == log.accepted[n..] + [payload];
    WireOfMore(enc, log.accepted, payload);
    CalledBackMore(log.written, log.accepted, payload);
  }

  /** The oldest request is the front block, and has had no callback yet. */
  lemma OldestOutstanding(q: Queue, reqSize: nat, enc: Encoding, log: Log) returns (payload: seq<byte>)
    requires Balanced(q, reqSize, enc, log)
    ensures |log.accepted| == |log.written| + |log.requests| && |q.blocks| == |log.requests|
    ensures log.requests != [] ==>
              && payload == log.accepted[|log.written|] && q.blocks[0].pointer == log.requests[0]
              && RequestOf(q.blocks[0], reqSize, enc, payload)
  {
    payload := if log.requests != [] then log.accepted[|log.written|] else [];
  }

  lemma BalancedLess(q: Queue, reqSize: nat, enc: Encoding, log: Log, callback: Written) returns (w: Queue, log': Log)
    requires Balanced(q, reqSize, enc, log) && log.requests != [] && |q.blocks| == |log.requests|
    requires |log.written| < |log.accepted| && callback.data == log.accepted[|log.written|]
    ensures w == q.Take(Front, q.blocks[0].size, true).0 && w.blocks == q.blocks[1..]
    ensures log' == log.Complete(callback) && Balanced(w, reqSize, enc, log')
  {
    var n := |log.written|;
    TakeKeepsAccount(q, Front, q.blocks[0].size, true);
    w, log' := q.Take(Front, q.blocks[0].size, true).0, log.Complete(callback);
    assert log.accepted[n..][1..] == log.accepted[n + 1..];
    assert log'.written[..n] == log.written;
  }

  lemma WrittenMore(log: Log, was: seq<Written>, callbacks: seq<Written>, callback: Written)
    requires log.requests != [] && log.written == was + callbacks
    ensures log.Complete(callback).written == was + (callbacks + [callback])
  {
  }

  function Framed(payload: seq<byte>): seq<byte> { Wire(FrameOf(payload)) }

  /** What a send leaves in the log. */
  function LogAfter(log: Log, status: Status, payload: seq<byte>, req: Option<nat>, frame: seq<byte>): Log {
    if status == Success && req.Some? then log.Accept(payload, req.value, frame) else log
  }

  /** A send that succeeds adds its request; one that does not leaves the queue alone. */
  ghost predicate Submitted(q: Queue, w: Queue, reqSize: nat, enc: Encoding, payload: seq<byte>, total: nat,
                            status: Status, req: Option<nat>) {
    if status == Success then Prepared(q, w, reqSize, enc, payload, total, req) else w == q
  }

  lemma Logged(q: Queue, reqSize: nat, log: Log, w: Queue, payload: seq<byte>, total: nat, status: Status,
               req: Option<nat>, enc: Encoding, frame: seq<byte>) returns (log': Log)
    requires Balanced(q, reqSize, enc, log) && frame == enc(payload)
    requires Submitted(q, w, reqSize, enc, payload, total, status, req)
    ensures log' == LogAfter(log, status, payload, req, frame) && Balanced(w, reqSize, enc, log')
    ensures status == Success ==> req.Some?
  {
    log' := log;
    if status == Success {
      log' := BalancedMore(q, reqSize, enc, log, w, payload, total, req, frame);
    }
  }

  /** The parts of a request record. */
  lemma RequestParts(b: Block, reqSize: nat, payload: seq<byte>)
    requires RequestOf(b, reqSize, Framed, payload)
    ensures var field := b.bytes[reqSize + CRC_SIZE..];
            var used := Scan(field, 0).1;
            && Scan(field, 0) == (|payload|, |Encode(|payload|)|)
            && field[used..] == payload && b.size == reqSize + CRC_SIZE + used + |payload|
  {
    var field := b.bytes[reqSize + CRC_SIZE..];
    assert field == b.bytes[reqSize..][CRC_SIZE..];
    assert Framed(payload)[CRC_SIZE..] == Encode(|payload|) + payload;
    RoundTrip(|payload|, payload);
  }

  /** The bytes handed over are the wire form a receiver parses. */
  lemma {:induction false} WireIsFramed(payloads: seq<seq<byte>>)
    ensures WireOf(Framed, payloads) == WireAll(FramesOf(payloads))
    decreases payloads
  {
    if payloads != [] {
      assert FramesOf(payloads)[1..] == FramesOf(payloads[1..]);
      WireIsFramed(payloads[1..]);
    }
  }

  /** What the invariant says of any run: one callback for each request completed or lost, with its own
      payload and in the order of acceptance; as many outstanding as not called back; and the wire is what a
      receiver parses into exactly the accepted payloads. */
  lemma OneCallbackEach(q: Queue, reqSize: nat, log: Log)
    requires Balanced(q, reqSize, Framed, log)
    ensures |log.requests| == |log.accepted| - |log.written|
    ensures forall i :: 0 <= i < |log.written| ==> log.written[i].data == log.accepted[i]
    ensures log.wire == WireAll(FramesOf(log.accepted))
  {
    forall i | 0 <= i < |log.written|
      ensures log.written[i].data == log.accepted[i]
    {
      CalledBackEach(log.written, log.accepted, i);
    }
    WireIsFramed(log.accepted);
  }

  lemma WholeStream(frames: seq<Frame>)
    requires FramesOk(frames)
    ensures var w := WireAll(frames); Complete(frames, |w|) == |frames| && Parse(w[..|w|]).rest == []
  {
    assert WireAll(frames)[..|WireAll(frames)|] == WireAll(frames);
    ParseWireAll(frames);
    AllComplete(frames);
  }

  /** From sender to receiver: after any number of bytes of the wire, however they were read, the receive
      callbacks carry the first accepted payloads, as they were, each with its code. */
  lemma SentArrives(q: Queue, reqSize: nat, log: Log, limit: nat, n: nat, events: seq<Event>, pending: seq<byte>)
    requires Balanced(q, reqSize, Framed, log)
    requires forall p :: p in log.accepted ==> |p| < WORD
    requires FramesOk(FramesOf(log.accepted)) && Reached(FramesOf(log.accepted), n, limit, events, pending)
    ensures n <= |log.wire| && Arrived(events, log.accepted[..Complete(FramesOf(log.accepted), n)], limit)
    ensures n == |log.wire| ==> Arrived(events, log.accepted, limit) && pending == []
  {
    var frames := FramesOf(log.accepted);
    WireIsFramed(log.accepted);
    PayloadsArrive(log.accepted, limit);
    WholeStream(frames);
    assert log.accepted[..|frames|] == log.accepted;
  }

  class Sender {
    const buffers: BufferManager
    const limit: nat
    const reqSize: nat
    ghost var log: Log

    ghost const enc: Encoding

    ghost predicate Valid()
      reads this, buffers
    {
      enc == Framed && Books()
    }

    ghost predicate Books()
      reads this, buffers
    {
      buffers.Valid() && Balanced(buffers.State(), reqSize, enc, log)
    }

    constructor (limit: nat, reqSize: nat, maxSize: nat, staticNumber: nat)
      ensures Valid() && log == Log([], [], [], []) && fresh(buffers) && buffers.State().blocks == []
      ensures this.limit == limit && this.reqSize == reqSize && buffers.limits.limitSize == maxSize
      ensures buffers.limits.limitNumber == if maxSize > 0 && staticNumber > 0 then staticNumber else 0
      ensures buffers.store.Region? <==> maxSize > 0 && staticNumber > 0
      ensures buffers.store.Region? ==>
                |buffers.store.st.mem| == PaddingSize(maxSize) && |buffers.store.st.index| == staticNumber + 1
    {
      var m := new BufferManager();
      var ok := m.SetLimit(maxSize, 0);
      if maxSize > 0 && staticNumber > 0 {
        m.SetMode(maxSize, staticNumber);
      }
      buffers, this.limit, this.reqSize := m, limit, reqSize;
      enc, log := Framed, Log([], [], [], []);
    }

    /** Whether the write buffers refuse a request of `total` bytes. */
    ghost predicate Full(total: nat)
      requires buffers.Valid()
      reads this, buffers
    {
      Overfull(buffers.State(), total) || !buffers.HasRoom(Back, total)
    }

    /** A new block at the back of the write buffers, if they are not full. */
    method Reserve(total: nat, ghost q: Queue, ghost full: bool)
        returns (status: Status, req: Option<nat>, ghost b: Block)
      requires buffers.Valid() && q == buffers.State() && Accounted(q) && full == Full(total)
      modifies buffers
      ensures buffers.Valid() && status == if full then BuffLimit else Success
      ensures if status == Success then IsNew(b, total, req) && buffers.State() == q.Put(Back, b)
              else buffers.State() == q
    {
      b := Block(0, 0, 0, []);
      status, req := buffers.Push(Back, total);
      if status == Success {
        b :| IsNew(b, total, req) && buffers.State() == q.Put(Back, b);
      }
    }

    /** A block of the write buffers filled with the request of a payload. */
    method Prepare(payload: seq<byte>, frame: seq<byte>, ghost q: Queue, ghost full: bool)
        returns (status: Status, req: Option<nat>)
      requires buffers.Valid() && Accounted(q) && q == buffers.State()
      requires frame == enc(payload) && frame != [] && |payload| < WORD && full == Full(reqSize + |frame|)
      modifies buffers
      ensures buffers.Valid() && status == if full then BuffLimit else Success
      ensures Submitted(q, buffers.State(), reqSize, enc, payload, reqSize + |frame|, status, req)
    {
      var data := seq<byte>(reqSize, _ => 0) + frame;
      assert data[reqSize..] == frame;
      ghost var b;
      status, req, b := Reserve(|data|, q, full);
      if status == Success {
        ghost var w := RequestFilled(q, b, reqSize, enc, payload, data);
        buffers.Write(Back, data);
        assert buffers.State() == w;
      }
    }

    /** The bytes of a payload on the wire. */
    method FrameBytes(payload: seq<byte>) returns (data: seq<byte>)
      requires |payload| < WORD && enc == Framed
      ensures data == enc(payload) && data != []
    {
      var vint := new byte[16];
      WordFitsTenBytes(|payload|);
      EncodeLength(|payload|);
      var vintLen := WriteVint(|payload|, vint);
      var crc := Crc32.Crc32(0, payload);
      data := StoreU32(crc) + vint[..vintLen] + payload;
    }

    /** The same, between a look at the buffers and their use. */
    method FrameFor(payload: seq<byte>, ghost full: bool) returns (data: seq<byte>)
      requires Valid() && |payload| < WORD && full == Full(reqSize + |enc(payload)|)
      ensures Books() && data == enc(payload) && data != [] && full == Full(reqSize + |data|)
    {
      data := FrameBytes(payload);
    }

    /** Stores a request and hands it to the platform, which refuses it unless `uvResult` is zero;
        then the block goes back. */
    method Submit(payload: seq<byte>, frame: seq<byte>, ghost q: Queue, ghost full: bool, uvResult: int)
        returns (status: Status, req: Option<nat>)
      requires buffers.Valid() && Accounted(q) && q == buffers.State()
      requires frame == enc(payload) && frame != [] && |payload| < WORD && full == Full(reqSize + |frame|)
      modifies buffers
      ensures buffers.Valid() && status == if full then BuffLimit else if uvResult != 0 then WriteFailed else Success
      ensures Submitted(q, buffers.State(), reqSize, enc, payload, reqSize + |frame|, status, req)
    {
      status, req := Prepare(payload, frame, q, full);
      if status == Success && uvResult != 0 {
        status := buffers.Pop(Back, reqSize + |frame|, true);
        return WriteFailed, req;
      }
    }

    /** Submits a framed payload and notes what the platform has seen. */
    method SendFrame(payload: seq<byte>, frame: seq<byte>, ghost full: bool, uvResult: int)
        returns (status: Status, ghost req: Option<nat>)
      requires Books() && |payload| < WORD && frame == enc(payload) && frame != [] && full == Full(reqSize + |frame|)
      modifies this`log, buffers
      ensures Books() && status == if full then BuffLimit else if uvResult != 0 then WriteFailed else Success
      ensures log == LogAfter(old(log), status, payload, req, frame)
      ensures if status == Success then req.Some? else buffers.State() == old(buffers.State())
    {
      ghost var q := buffers.State();
      status, req := Submit(payload, frame, q, full, uvResult);
      log := Logged(q, reqSize, log, buffers.State(), payload, reqSize + |frame|, status, req, enc, frame);
    }

    /** Accepts a payload unless it is over the limit, the write buffers are full or the platform
        refuses the write; then nothing changes. */
    method Send(payload: seq<byte>, uvResult: int) returns (status: Status, ghost req: Option<nat>)
      requires Valid() && |payload| < WORD
      modifies this`log, buffers
      ensures Valid()
      ensures status == if limit > 0 && |payload| > limit then InvalidSize
                        else if old(Full(reqSize + |enc(payload)|)) then BuffLimit
                        else if uvResult != 0 then WriteFailed else Success
      ensures log == LogAfter(old(log), status, payload, req, enc(payload))
      ensures if status == Success then req.Some? else buffers.State() == old(buffers.State())
    {
      if limit > 0 && |payload| > limit {
        return InvalidSize, None;
      }
      ghost var full := Full(reqSize + |enc(payload)|);
      var frame := FrameFor(payload, full);
      status, req := SendFrame(payload, frame, full, uvResult);
    }

    /** The payload of the oldest request, out of its block, and the code of its callback. */
    method Oldest(req: nat, ghost payload: seq<byte>) returns (own: bool, code: Status, data: seq<byte>, size: nat)
      requires buffers.Valid() && buffers.State().blocks != []
      requires RequestOf(buffers.State().blocks[0], reqSize, Framed, payload)
      ensures own == (req == buffers.State().blocks[0].pointer) && code == (if own then Success else NodeTimeout)
      ensures data == payload && size == buffers.State().blocks[0].size
    {
      RequestParts(buffers.State().blocks[0], reqSize, payload);
      var status, pointer, nread, nwrite := buffers.Peek(Front);
      assert pointer.Some? && nwrite != 0 && nread == 0;
      var content := buffers.Content(Front);
      var field := content[reqSize + CRC_SIZE..];
      var (out, vintLen) := Scan(field, 0);
      assert out == nwrite - vintLen - CRC_SIZE - reqSize;
      own := pointer == Some(req);
      code := if own then Success else NodeTimeout;
      data, size := field[vintLen..], nwrite;
    }

    /** Whether all requests have had their callback. */
    method Idle() returns (idle: bool)
      requires Valid()
      ensures idle == (log.requests == []) && |log.accepted| == |log.written| + |log.requests|
    {
      ghost var payload := OldestOutstanding(buffers.State(), reqSize, enc, log);
      idle := buffers.Empty();
    }

    /** Calls back the oldest request and gives its block back. */
    method CompleteOne(req: nat, status: int) returns (own: bool, callback: Written)
      requires Valid() && log.requests != []
      modifies this`log, buffers
      ensures Valid() && own == (req == old(log).requests[0]) && |old(log).written| < |log.accepted|
      ensures callback == Written(status, if own then Success else NodeTimeout, log.accepted[|old(log).written|])
      ensures log == old(log).Complete(callback)
    {
      ghost var q := buffers.State();
      ghost var payload := OldestOutstanding(q, reqSize, enc, log);
      var code, data, size;
      own, code, data, size := Oldest(req, payload);
      callback := Written(status, code, data);
      ghost var w, log' := BalancedLess(q, reqSize, enc, log, callback);
      code := buffers.Pop(Front, size, true);
      assert buffers.State() == w;
      log := log';
    }

    /** The platform reports a request as written. Requests before it are called back as lost. */
    method OnWritten(req: nat, status: int) returns (callbacks: seq<Written>)
      requires Valid()
      modifies this`log, buffers
      ensures Valid() && log == old(log).CompleteTo(req, status)
      ensures log.written == old(log).written + callbacks
    {
      callbacks := [];
      ghost var was := log;
      ghost var all := was.CompleteTo(req, status);
      var own := false;
      var idle := Idle();
      while !idle && !own
        invariant Valid() && idle == (log.requests == []) && log.written == was.written + callbacks
        invariant all == if own then log else log.CompleteTo(req, status)
        decreases |log.requests|
      {
        ghost var before := log;
        var callback;
        own, callback := CompleteOne(req, status);
        WrittenMore(before, was.written, callbacks, callback);
        callbacks := callbacks + [callback];
        idle := Idle();
      }
    }
  }

  /** Completions of the oldest request each time, with these results. */
  function InTurn(log: Log, results: seq<int>): Log
    decreases results
  {
    if results == [] || log.requests == [] then log
    else InTurn(log.CompleteTo(log.requests[0], results[0]), results[1..])
  }

  lemma OneInTurn(log: Log, results: seq<int>) returns (one: Log)
    requires 0 < |results| <= |log.requests| && |log.accepted| == |log.written| + |log.requests|
    ensures one == log.Complete(Written(results[0], Success, log.accepted[|log.written|]))
    ensures InTurn(log, results) == InTurn(one, results[1..])
  {
    one := log.CompleteTo(log.requests[0], results[0]);
  }

  /** A run of completions in turn takes that many requests off and makes as many callbacks. */
  lemma {:induction false} InTurnRun(log: Log, results: seq<int>)
    requires |results| <= |log.requests| && |log.accepted| == |log.written| + |log.requests|
    ensures InTurn(log, results).requests == log.requests[|results|..]
    ensures InTurn(log, results).accepted == log.accepted && InTurn(log, results).wire == log.wire
    ensures |InTurn(log, results).written| == |log.written| + |results|
    ensures InTurn(log, results).written[..|log.written|] == log.written
    decreases results
  {
    if results != [] {
      var one := OneInTurn(log, results);
      InTurnRun(one, results[1..]);
      PrefixKept(InTurn(log, results).written, one.written, log.written);
    }
  }

  lemma PrefixKept<T>(s: seq<T>, t: seq<T>, u: seq<T>)
    requires |u| <= |t| <= |s| && s[..|t|] == t && t[..|u|] == u
    ensures s[..|u|] == u
  {
    assert s[..|t|][..|u|] == s[..|u|];
  }

  lemma PrefixAt<T>(s: seq<T>, t: seq<T>, i: nat)
    requires i < |t| <= |s| && s[..|t|] == t
    ensures s[i] == t[i]
  {
  }

  lemma InTurnFirst(log: Log, results: seq<int>)
    requires 0 < |results| <= |log.requests| && |log.accepted| == |log.written| + |log.requests|
    ensures var w := InTurn(log, results).written;
            |w| > |log.written| && w[|log.written|] == Written(results[0], Success, log.accepted[|log.written|])
  {
    var one := OneInTurn(log, results);
    InTurnRun(one, results[1..]);
    PrefixAt(InTurn(one, results[1..]).written, one.written, |log.written|);
  }

  /** Each of them is a success with the payload of its own request. */
  lemma {:induction false} InTurnSucceed(log: Log, results: seq<int>, i: nat)
    requires |results| <= |log.requests| && |log.accepted| == |log.written| + |log.requests| && i < |results|
    ensures var w, k := InTurn(log, results).written, |log.written| + i;
            k < |w| && w[k] == Written(results[i], Success, log.accepted[k])
    decreases results
  {
    if i == 0 {
      InTurnFirst(log, results);
    } else {
      var one := OneInTurn(log, results);
      InTurnSucceed(one, results[1..], i - 1);
    }
  }
}
