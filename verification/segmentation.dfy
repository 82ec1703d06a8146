/** However a framed stream is cut into reads, the callbacks are those of its whole frames. */
module Segmentation {
  import opened Base
  import opened Vint
  import opened Splitting
  import opened Framing
  import opened Buffers
  import opened StreamReceivers

  /** Every body that is not empty fits the space. */
  ghost predicate Sendable(frames: seq<Frame>, space: Space) {
    FramesOk(frames) && forall f :: f in frames ==> FrameFits(f, space)
  }

  predicate FrameFits(f: Frame, space: Space) { f.body == [] || space.Fits(|f.body|) }

  /** The parse of what has arrived goes on with what arrives next. */
  lemma ParseResumes(frames: seq<Frame>, n: nat, m: nat)
    requires FramesOk(frames) && n <= m <= |WireAll(frames)|
    ensures var w := WireAll(frames);
            var p := Parse(Parse(w[..n]).rest + w[n..m]);
            && Parse(w[..n]).frames == frames[..Complete(frames, n)]
            && frames[..Complete(frames, m)] == frames[..Complete(frames, n)] + p.frames
            && Complete(frames, m) == Complete(frames, n) + |p.frames|
            && p.rest == Parse(w[..m]).rest
  {
    var w := WireAll(frames);
    assert w[..m] == w[..n] + w[n..m];
    HeadersStable();
    SplitResumes(ParseHeader, w[..n], w[n..m]);
    ParsePrefix(frames, n);
    ParsePrefix(frames, m);
  }

  /** What is left of a cut stream ends the connection exactly when it has the whole header of a frame that
      cannot be spilled; short of a header it has at most 13 bytes. */
  lemma RestOversized(frames: seq<Frame>, n: nat, space: Space)
    requires FramesOk(frames) && n <= |WireAll(frames)|
    ensures var rest, k := Parse(WireAll(frames)[..n]).rest, Complete(frames, n);
            && (space.Oversized(rest) <==>
                  k < |frames| && |Header(frames[k])| <= |rest| < |Wire(frames[k])| && !space.Fits(|frames[k].body|))
            && (ParseHeader(rest).None? ==> |rest| <= 13)
  {
    ParsePrefix(frames, n);
    var k := Complete(frames, n);
    if k < |frames| {
      var rest := Parse(WireAll(frames)[..n]).rest;
      assert rest == Wire(frames[k])[..|rest|];
      HeaderBytes(frames[k], |rest|);
    }
  }

  /** Frame `j` can be cut right behind its header. */
  lemma {:induction false} HeaderCut(frames: seq<Frame>, j: nat) returns (n: nat)
    requires FramesOk(frames) && j < |frames| && frames[j].body != []
    ensures n <= |WireAll(frames)| && Complete(frames, n) == j && Parse(WireAll(frames)[..n]).rest == Header(frames[j])
    decreases frames
  {
    var f, rest := frames[0], WireAll(frames[1..]);
    if j == 0 {
      n := |Header(f)|;
      assert WireAll(frames)[..n] == Header(f);
      FrameHeader(f, []);
      assert Header(f) + [] == Header(f);
    } else {
      var m := HeaderCut(frames[1..], j - 1);
      n := |Wire(f)| + m;
      assert WireAll(frames)[..n] == Wire(f) + rest[..m];
      ParseWire(f, rest[..m]);
    }
  }

  /** No cut of the stream ends the connection if and only if every body that is not empty fits. */
  lemma AnyCutting(frames: seq<Frame>, space: Space)
    requires FramesOk(frames)
    ensures (forall n :: 0 <= n <= |WireAll(frames)| ==> !space.Oversized(Parse(WireAll(frames)[..n]).rest))
            <==> Sendable(frames, space)
  {
    forall n | Sendable(frames, space) && 0 <= n <= |WireAll(frames)|
      ensures !space.Oversized(Parse(WireAll(frames)[..n]).rest)
    {
      RestFits(frames, n, space);
    }
    if !Sendable(frames, space) {
      var f :| f in frames && !FrameFits(f, space);
      var j :| 0 <= j < |frames| && frames[j] == f;
      var n := HeaderCut(frames, j);
      RestOversized(frames, n, space);
    }
  }

  lemma RestFits(frames: seq<Frame>, n: nat, space: Space)
    requires Sendable(frames, space) && n <= |WireAll(frames)|
    ensures var rest := Parse(WireAll(frames)[..n]).rest;
            && !space.Oversized(rest)
            && (ParseHeader(rest).None? ==> |rest| <= 13)
  {
    RestOversized(frames, n, space);
    var k := Complete(frames, n);
    assert k < |frames| ==> FrameFits(frames[k], space);
  }

  lemma JudgedNext(frames: seq<Frame>, k: nat, more: seq<Frame>, limit: nat)
    requires Shaped(frames) && k + |more| <= |frames| && frames[..k + |more|] == frames[..k] + more
    ensures Shaped(more) && Judged(frames, limit)[..k + |more|] == Judged(frames, limit)[..k] + Judged(more, limit)
  {
    forall i | 0 <= i < |more| ensures more[i] == frames[k + i] {
      assert frames[..k + |more|][k + i] == (frames[..k] + more)[k + i];
    }
  }

  lemma ReachedNext(frames: seq<Frame>, limit: nat, n: nat, m: nat, events: seq<Event>, pending: seq<byte>, p: Parsed)
    requires FramesOk(frames) && Reached(frames, n, limit, events, pending) && n <= m <= |WireAll(frames)|
    requires frames[..Complete(frames, m)] == frames[..Complete(frames, n)] + p.frames
    requires Complete(frames, m) == Complete(frames, n) + |p.frames| && p.rest == Parse(WireAll(frames)[..m]).rest
    ensures Shaped(p.frames) && Reached(frames, m, limit, events + Judged(p.frames, limit), p.rest)
  {
    JudgedNext(frames, Complete(frames, n), p.frames, limit);
  }

  /** What a receiver has delivered and kept after the first `n` bytes of the stream: every frame
      complete so far has had its callback, in order, and nothing else. */
  ghost predicate Reached(frames: seq<Frame>, n: nat, limit: nat, events: seq<Event>, pending: seq<byte>)
    requires FramesOk(frames)
  {
    && n <= |WireAll(frames)|
    && events == Judged(frames, limit)[..Complete(frames, n)]
    && pending == Parse(WireAll(frames)[..n]).rest
  }

  lemma ReachedStart(frames: seq<Frame>, limit: nat)
    requires FramesOk(frames)
    ensures Reached(frames, 0, limit, [], [])
  {
    ParsePrefix(frames, 0);
    assert WireAll(frames)[..0] == [];
  }

  lemma ReachedStep(frames: seq<Frame>, space: Space, limit: nat, n: nat, chunk: seq<byte>, events: seq<Event>,
                    pending: seq<byte>)
    requires Sendable(frames, space) && Reached(frames, n, limit, events, pending)
    requires n + |chunk| <= |WireAll(frames)| && chunk == WireAll(frames)[n..n + |chunk|]
    ensures var p := Parse(pending + chunk);
            && !space.Oversized(p.rest) && Shaped(p.frames)
            && Reached(frames, n + |chunk|, limit, events + Judged(p.frames, limit), p.rest)
  {
    var m, p := n + |chunk|, Parse(pending + chunk);
    ParseResumes(frames, n, m);
    RestFits(frames, m, space);
    ReachedNext(frames, limit, n, m, events, pending, p);
  }

  ghost predicate After(r: Receiver, frames: seq<Frame>, n: nat)
    reads r, r.head, r.buffers
    requires FramesOk(frames)
  {
    r.Valid() && r.connected && Reached(frames, n, r.limit, r.events, r.pending)
  }

  /** Between reads, what came of the next frame is at most 13 bytes in the head buffer, or one
      partly filled block and nothing else; so the next read is always offered some space. */
  lemma BetweenReads(r: Receiver, frames: seq<Frame>, n: nat)
    requires Sendable(frames, r.space) && After(r, frames, n)
    ensures r.Offered() > 0
    ensures var blocks := r.buffers.State().blocks;
            if blocks == [] then r.headLen == |r.pending| <= 13
            else |blocks| == 1 && r.headLen == 0 && 0 < blocks[0].Unread() < blocks[0].size
    ensures if Complete(frames, n) == |frames| then r.pending == [] else r.pending < Wire(frames[Complete(frames, n)])
  {
    RestFits(frames, n, r.space);
    ParsePrefix(frames, n);
    assert |r.head[..r.headLen]| == r.headLen;
  }

  /** One read keeps it, whatever its size. */
  method ReadOnce(r: Receiver, ghost frames: seq<Frame>, ghost n: nat, chunk: seq<byte>)
    requires Sendable(frames, r.space) && After(r, frames, n)
    requires 0 < |chunk| <= r.Offered() && n + |chunk| <= |WireAll(frames)|
    requires chunk == WireAll(frames)[n..n + |chunk|]
    modifies r, r.head, r.buffers
    ensures After(r, frames, n + |chunk|)
  {
    ReachedStep(frames, r.space, r.limit, n, chunk, r.events, r.pending);
    r.Read(chunk);
    assert r.connected;
  }

  /** A read takes as much as its cut, the space offered and the stream allow. */
  method ReadSome(r: Receiver, ghost frames: seq<Frame>, stream: seq<byte>, n: nat, cut: nat) returns (m: nat)
    requires Sendable(frames, r.space) && After(r, frames, n) && stream == WireAll(frames) && n < |stream| && cut > 0
    modifies r, r.head, r.buffers
    ensures n < m && After(r, frames, m)
  {
    BetweenReads(r, frames, n);
    var toHead, len := r.Alloc();
    var size := Least(Least(cut, len), |stream| - n);
    m := n + size;
    ReadOnce(r, frames, n, stream[n..m]);
  }

  /** A run over any cutting into nonempty reads. */
  method ReadAll(r: Receiver, ghost frames: seq<Frame>, stream: seq<byte>, cuts: seq<nat>) returns (n: nat)
    requires Sendable(frames, r.space) && r.Valid() && r.connected && r.pending == [] && r.events == []
    requires stream == WireAll(frames) && forall i :: 0 <= i < |cuts| ==> cuts[i] > 0
    modifies r, r.head, r.buffers
    ensures After(r, frames, n)
    ensures |cuts| <= n || n == |stream|
  {
    n := 0;
    ReachedStart(frames, r.limit);
    var i := 0;
    while i < |cuts| && n < |stream|
      invariant i <= |cuts| && (i <= n || n == |stream|)
      invariant After(r, frames, n) && n <= |stream|
    {
      n := ReadSome(r, frames, stream, n, cuts[i]);
      i := i + 1;
    }
  }

  /** The frames before the first that does not fit. */
  lemma {:induction false} FirstUnfit(frames: seq<Frame>, space: Space) returns (j: nat)
    requires FramesOk(frames) && !Sendable(frames, space)
    ensures j < |frames| && !FrameFits(frames[j], space) && Sendable(frames[..j], space)
    decreases frames
  {
    if !FrameFits(frames[0], space) {
      return 0;
    }
    j := FirstUnfit(frames[1..], space);
    j := j + 1;
    assert frames[..j] == [frames[0]] + frames[1..][..j - 1];
  }

  lemma {:induction false} AllComplete(frames: seq<Frame>)
    ensures Complete(frames, |WireAll(frames)|) == |frames|
    decreases frames
  {
    if frames != [] {
      AllComplete(frames[1..]);
    }
  }

  /** Frames that fit, read byte by byte. */
  method ReadBytes(r: Receiver, frames: seq<Frame>)
    requires Sendable(frames, r.space) && r.Valid() && r.connected && r.pending == [] && r.events == []
    modifies r, r.head, r.buffers
    ensures r.Valid() && r.connected && r.pending == [] && r.Offered() == HEAD_BUFFER
    ensures r.events == Judged(frames, r.limit)
  {
    var stream := WireAll(frames);
    var n := ReadAll(r, frames, stream, seq(|stream|, _ => 1));
    AllComplete(frames);
    BetweenReads(r, frames, n);
  }

  /** A header that arrives alone is no frame, if a body belongs to it. */
  lemma HeaderAlone(f: Frame, space: Space)
    requires FrameOk(f) && !FrameFits(f, space)
    ensures 0 < |Header(f)| <= HEAD_BUFFER && Parse([] + Header(f)) == Parsed([], Header(f))
    ensures space.Oversized(Header(f)) && Leftover(Header(f)) == []
  {
    FrameHeader(f, []);
    assert Header(f) + [] == Header(f) && [] + Header(f) == Header(f);
    WordFitsTenBytes(|f.body|);
  }

  /** A run that ends the connection: the frames before the first that does not fit are read, then its header
      alone. */
  method ReadToHeader(r: Receiver, frames: seq<Frame>, j: nat)
    requires FramesOk(frames) && j < |frames| && !FrameFits(frames[j], r.space) && Sendable(frames[..j], r.space)
    requires r.Valid() && r.connected && r.pending == [] && r.events == []
    modifies r, r.head, r.buffers
    ensures r.Valid() && !r.connected && r.pending == Header(frames[j])
    ensures r.events == Judged(frames[..j], r.limit)
  {
    ReadBytes(r, frames[..j]);
    HeaderAlone(frames[j], r.space);
    r.Read(Header(frames[j]));
  }

  function Least(a: nat, b: nat): nat { if a < b then a else b }

  /** The frames of the payloads a sender was given. */
  function FramesOf(bodies: seq<seq<byte>>): (frames: seq<Frame>)
    ensures |frames| == |bodies| && forall i :: 0 <= i < |frames| ==> frames[i] == FrameOf(bodies[i])
  {
    seq(|bodies|, i requires 0 <= i < |bodies| => FrameOf(bodies[i]))
  }

  /** The callbacks carry the payloads, in order; those over the limit are reported as too large, and all others
      as successes. */
  ghost predicate Arrived(events: seq<Event>, bodies: seq<seq<byte>>, limit: nat) {
    && |events| == |bodies|
    && forall i :: 0 <= i < |events| ==>
         && events[i].data == bodies[i]
         && events[i].code == if limit > 0 && |bodies[i]| > limit then InvalidSize else Success
  }

  /** The payloads of a sender arrive as they were, in order, each with its code. */
  lemma PayloadsArrive(bodies: seq<seq<byte>>, limit: nat)
    requires forall b :: b in bodies ==> |b| < WORD
    ensures FramesOk(FramesOf(bodies))
    ensures forall n, events, pending :: Reached(FramesOf(bodies), n, limit, events, pending) ==>
              Arrived(events, bodies[..Complete(FramesOf(bodies), n)], limit)
  {
    var frames := FramesOf(bodies);
    assert FramesOk(frames);
    forall i | 0 <= i < |bodies|
      ensures Judged(frames, limit)[i].data == bodies[i]
      ensures Judged(frames, limit)[i].code == if limit > 0 && |bodies[i]| > limit then InvalidSize else Success
    {
      SentIsDelivered(bodies[i], limit);
    }
    forall k: nat | k <= |bodies| ensures Arrived(Judged(frames, limit)[..k], bodies[..k], limit) {
    }
  }

  /** What a node's own default settings give: messages of up to 65536 bytes, one static region of that size. */
  const DEFAULT_SIZE: nat := 65536
  const DEFAULT_BLOCKS: nat := 2

  /** Of the bodies within the default limit just those of up to 65508 bytes fit the region: 4 bytes of
      checksum and 24 of block header are added. */
  lemma DefaultSpace(n: nat)
    ensures Space(DEFAULT_SIZE, Some(PaddingSize(DEFAULT_SIZE))).Fits(n) <==> n <= 65508
  {
    PaddingByRemainder(DEFAULT_SIZE);
    PaddingByRemainder(CRC_SIZE + n);
  }

  /** A run: under those settings a sender's message within the limit, but longer, ends the connection at
      its first bytes; the rest of them is reported with an invalid size. */
  method LimitIsNotEnough(body: seq<byte>) returns (r: Receiver)
    requires 65508 < |body| <= DEFAULT_SIZE
    ensures r.Valid() && r.limit == DEFAULT_SIZE && !r.connected
    ensures ParseHeader(Wire(FrameOf(body))[..HEAD_BUFFER]).Some?
    ensures r.events == Leftover(Wire(FrameOf(body))[..HEAD_BUFFER]) && |r.events| == 1
    ensures |Header(FrameOf(body))| <= HEAD_BUFFER
    ensures r.events[0] == Event(InvalidSize, Wire(FrameOf(body))[..HEAD_BUFFER][|Header(FrameOf(body))|..])
  {
    r := new Receiver(DEFAULT_SIZE, DEFAULT_BLOCKS, DEFAULT_SIZE);
    ghost var f, chunk := FrameOf(body), Wire(FrameOf(body))[..HEAD_BUFFER];
    HeaderBytes(f, HEAD_BUFFER);
    WordFitsTenBytes(|body|);
    DefaultSpace(|body|);
    assert Parse([] + chunk) == Parsed([], chunk) by {
      assert [] + chunk == chunk;
    }
    var frame := Wire(FrameOf(body));
    r.Read(frame[..HEAD_BUFFER]);
  }
}
