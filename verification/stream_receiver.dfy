/** The receiving side of a stream connection: small messages are cut out of a fixed head
    buffer, a large one is spilled into one block of the buffer manager. */
module StreamReceivers {
  import opened Base
  import opened Vint
  import opened Crc32
  import opened Splitting
  import opened Framing
  import opened BlockList
  import opened Buffers
  import opened BufferManagers

  const HEAD_BUFFER: nat := 512

  /** Block `b` holds what has arrived of the frame `pending`, without its length. */
  ghost predicate Filling(b: Block, pending: seq<byte>) {
    && b.Ok()
    && match ParseHeader(pending)
       case None => false
       case Some((head, body)) =>
         && |pending| < head + body
         && b.size == CRC_SIZE + body && b.used == CRC_SIZE + |pending| - head
         && b.bytes[..CRC_SIZE] == pending[..CRC_SIZE] && b.bytes[CRC_SIZE..b.used] == pending[head..]
  }

  /** The verdict of a callback on a stored checksum and a body. */
  method Check(crc: seq<byte>, body: seq<byte>, limit: nat) returns (e: Event)
    requires |crc| == CRC_SIZE
    ensures e == Judge(Frame(crc, body), limit)
  {
    var check := Crc32.Crc32(0, body);
    var code := Success;
    if check != LoadU32(crc) {
      code := BadData;
    } else if limit > 0 && |body| > limit {
      code := InvalidSize;
    }
    e := Event(code, body);
  }

  /** What an empty buffer manager can hold: its size limit and the size of its region. */
  datatype Space = Space(limitSize: nat, region: Option<nat>) {
    /** Whether a body of `n` bytes can be spilled. */
    predicate Fits(n: nat) {
      && (limitSize == 0 || CRC_SIZE + n <= limitSize)
      && (region.Some? ==> FullSize(CRC_SIZE + n) <= region.value)
    }

    /** Whether a header has arrived of a frame that cannot be spilled. */
    predicate Oversized(s: seq<byte>) {
      ParseHeader(s).Some? && !Fits(ParseHeader(s).value.1)
    }
  }

  /** The bytes since the last frame are all in the head buffer, without a whole header,
      or all in one block and the head buffer is empty. */
  ghost predicate Standing(space: Space, blocks: seq<Block>, held: seq<byte>, pending: seq<byte>) {
    if blocks == [] then held == pending && ParseHeader(pending).None?
    else |blocks| == 1 && held == [] && Filling(blocks[0], pending) && !space.Oversized(pending)
  }

  /** Bytes that arrive for a block complete its frame exactly when they fill it. */
  lemma FillStep(space: Space, b: Block, pending: seq<byte>, chunk: seq<byte>, limit: nat) returns (c: Block, p: Parsed)
    requires Standing(space, [b], [], pending) && 0 < |chunk| <= b.Unread()
    ensures c == b.Write(chunk).Pop(|chunk|) && p == Parse(pending + chunk)
    ensures Shaped(p.frames) && !space.Oversized(p.rest) && c.size >= CRC_SIZE
    ensures if c.Unread() > 0 then Standing(space, [c], [], p.rest) && Judged(p.frames, limit) == []
            else Standing(space, [], [], p.rest) &&
                 Judged(p.frames, limit) == [Judge(Frame(c.bytes[..CRC_SIZE], c.bytes[CRC_SIZE..]), limit)]
  {
    var (head, body) := ParseHeader(pending).value;
    var s := pending + chunk;
    c, p := b.Write(chunk).Pop(|chunk|), Parse(s);
    HeaderStable(pending, chunk);
    FillBytes(b, pending, chunk, head, body);
    if c.Unread() == 0 {
      assert s[head + body..] == [];
      assert Split(ParseHeader, []) == Parsed([], []);
      assert Then([FirstFrame(ParseHeader, s)], Parsed([], [])) == Parsed([FirstFrame(ParseHeader, s)], []);
    }
  }

  lemma FillBytes(b: Block, pending: seq<byte>, chunk: seq<byte>, head: nat, body: nat)
    requires b.Ok() && b.size == CRC_SIZE + body && b.used == CRC_SIZE + |pending| - head
    requires CRC_SIZE < head <= |pending|
    requires b.bytes[..CRC_SIZE] == pending[..CRC_SIZE] && b.bytes[CRC_SIZE..b.used] == pending[head..]
    requires |chunk| <= b.Unread()
    ensures var c, s := b.Write(chunk).Pop(|chunk|), pending + chunk;
            && c.size == b.size && c.used == b.used + |chunk|
            && c.bytes[..CRC_SIZE] == s[..CRC_SIZE] && c.bytes[CRC_SIZE..c.used] == s[head..]
            && (c.used == c.size ==> c.bytes[CRC_SIZE..] == s[head..head + body])
  {
    var c, s := b.Write(chunk).Pop(|chunk|), pending + chunk;
    assert c.bytes[..CRC_SIZE] == b.bytes[..CRC_SIZE] && s[..CRC_SIZE] == pending[..CRC_SIZE];
    assert c.bytes[CRC_SIZE..c.used] == b.bytes[CRC_SIZE..b.used] + chunk;
    assert s[head..] == pending[head..] + chunk;
    if c.used == c.size {
      assert c.bytes[CRC_SIZE..] == c.bytes[CRC_SIZE..c.used];
      assert s[head..head + body] == s[head..];
    }
  }

  ghost function SpaceOf(m: BufferManager): Space
    reads m
  {
    Space(m.limits.limitSize, if m.store.Region? then Some(|m.store.st.mem|) else None)
  }

  /** The event for the bytes behind the header of an oversized frame, if there are any. */
  function Leftover(s: seq<byte>): seq<Event>
    requires ParseHeader(s).Some?
  {
    var rest := s[ParseHeader(s).value.0..];
    if rest == [] then [] else [Event(InvalidSize, rest)]
  }

  lemma SliceAt<T>(s: seq<T>, start: nat, end: nat, i: nat, j: nat)
    requires i <= j && start + j <= end <= |s|
    ensures s[start..end][i..j] == s[start + i..start + j]
  {
    var a, b := s[start..end][i..j], s[start + i..start + j];
    forall k | 0 <= k < j - i ensures a[k] == b[k] {
      assert s[start..end][i + k] == s[start + (i + k)];
    }
  }

  /** Looks at the front of the bytes `t` that lie at `start`: the length of the length field, zero
      if it is not complete, and the body length; the stored checksum, the body and where the rest
      starts if they are whole. */
  method ReadFront(head: array<byte>, start: nat, left: nat, ghost end: nat, ghost t: seq<byte>)
      returns (vint: nat, n: nat, whole: bool, next: nat, crc: seq<byte>, data: seq<byte>)
    requires CRC_SIZE < left && end == start + left <= head.Length && t == head[start..end]
    ensures ParseHeader(t) == if vint == 0 then None else Some((CRC_SIZE + vint, n))
    ensures whole == (vint != 0 && CRC_SIZE + vint + n <= left)
    ensures whole ==> var h := CRC_SIZE + vint;
                      && crc == t[..CRC_SIZE] && data == t[h..h + n]
                      && next == start + h + n && head[next..end] == t[h + n..]
  {
    n, vint := ReadVint(head, start + CRC_SIZE, left - CRC_SIZE);
    assert t[CRC_SIZE..] == head[start + CRC_SIZE..start + CRC_SIZE + (left - CRC_SIZE)];
    whole, next, crc, data := vint != 0 && left >= CRC_SIZE + vint + n, start, [], [];
    if whole {
      var body := start + CRC_SIZE + vint;
      next, crc, data := body + n, head[start..start + CRC_SIZE], head[body..body + n];
      assert t[..CRC_SIZE] == crc;
      SliceAt(head[..], start, end, CRC_SIZE + vint, CRC_SIZE + vint + n);
      assert t[CRC_SIZE + vint + n..] == head[next..end];
    }
  }

  class Receiver {
    const head: array<byte>
    const buffers: BufferManager
    const limit: nat
    ghost const space: Space
    var headLen: nat
    var connected: bool
    var events: seq<Event>
    /** The bytes that arrived since the last complete frame. */
    ghost var pending: seq<byte>

    ghost predicate Valid()
      reads this, head, buffers
    {
      && head.Length == HEAD_BUFFER && headLen <= HEAD_BUFFER
      && buffers.Valid() && Accounted(buffers.State()) && SpaceOf(buffers) == space
      && (connected ==>
            Standing(space, buffers.State().blocks, head[..headLen], pending))
    }

    /** How many bytes the next read may deliver. */
    ghost function Offered(): nat
      requires Valid() && connected
      reads this, head, buffers
    {
      var blocks := buffers.State().blocks;
      if blocks == [] then HEAD_BUFFER - headLen else blocks[0].Unread()
    }

    constructor (maxSize: nat, staticNumber: nat, limit: nat)
      ensures Valid() && connected && pending == [] && events == [] && this.limit == limit
      ensures fresh(head) && fresh(buffers) && Offered() == HEAD_BUFFER
      ensures space == Space(maxSize, if maxSize > 0 && staticNumber > 0 then Some(PaddingSize(maxSize)) else None)
    {
      head := new byte[HEAD_BUFFER](_ => 0);
      var m := new BufferManager();
      var ok := m.SetLimit(maxSize, 0);
      if maxSize > 0 && staticNumber > 0 {
        m.SetMode(maxSize, staticNumber);
      }
      buffers, space := m, SpaceOf(m);
      this.limit := limit;
      headLen, connected, events, pending := 0, true, [], [];
    }

    /** Where the next read goes: the head buffer, or the block being filled. The end of the connection
        makes no difference here. */
    method Alloc() returns (toHead: bool, len: nat)
      requires Valid()
      ensures var blocks := buffers.State().blocks;
              && (toHead <==> blocks == [] || blocks[|blocks| - 1].Unread() == 0)
              && len == if toHead then HEAD_BUFFER - headLen else blocks[|blocks| - 1].Unread()
      ensures connected ==> len == Offered() && (toHead <==> buffers.State().blocks == [])
    {
      var status, pointer, nread, nwrite := buffers.Peek(Back);
      toHead := pointer.None? || nwrite == 0;
      len := if toHead then HEAD_BUFFER - headLen else nwrite;
    }

    /** Delivers the block if it is full, and gives it back. */
    method DeliverFull()
      requires buffers.Valid() && |buffers.State().blocks| <= 1
      requires buffers.State().blocks != [] ==> buffers.State().blocks[0].size >= CRC_SIZE
      modifies this`events, buffers
      ensures buffers.Valid() && (old(Accounted(buffers.State())) ==> Accounted(buffers.State()))
      ensures SpaceOf(buffers) == old(SpaceOf(buffers))
      ensures var old_ := old(buffers.State().blocks);
              if old_ != [] && old_[0].Unread() == 0 then
                buffers.State().blocks == [] &&
                events == old(events) + [Judge(Frame(old_[0].bytes[..CRC_SIZE], old_[0].bytes[CRC_SIZE..]), limit)]
              else buffers.State().blocks == old_ && events == old(events)
    {
      var status, pointer, nread, nwrite := buffers.Peek(Front);
      if pointer.Some? && nwrite == 0 {
        var data := buffers.Content(Front);
        var e := Check(data[..CRC_SIZE], data[CRC_SIZE..], limit);
        events := events + [e];
        ghost var q := buffers.State();
        if Accounted(q) {
          TakeKeepsAccount(q, Front, 0, true);
        }
        status := buffers.Pop(Front, 0, true);
      }
    }

    /** The bytes of a read go into the only block. */
    method Fill(chunk: seq<byte>)
      requires buffers.Valid() && |buffers.State().blocks| == 1 && |chunk| <= buffers.State().blocks[0].Unread()
      modifies buffers
      ensures buffers.Valid() && buffers.State().blocks == [old(buffers.State().blocks[0]).Write(chunk).Pop(|chunk|)]
      ensures old(Accounted(buffers.State())) ==> Accounted(buffers.State())
      ensures SpaceOf(buffers) == old(SpaceOf(buffers))
    {
      ghost var q := buffers.State();
      buffers.Write(Back, chunk);
      var status := buffers.Pop(Back, |chunk|, false);
      if Accounted(q) {
        FillKeepsAccount(q, chunk);
      }
    }

    /** A read into the block being filled. */
    method ReadBlock(chunk: seq<byte>)
      requires Valid() && connected && buffers.State().blocks != [] && 0 < |chunk| <= Offered()
      modifies this, buffers
      ensures Valid() && connected && pending == Parse(old(pending) + chunk).rest && !space.Oversized(pending)
      ensures Shaped(Parse(old(pending) + chunk).frames)
      ensures events == old(events) + Judged(Parse(old(pending) + chunk).frames, limit)
    {
      assert head[..headLen] == [];
      ghost var c, p := FillStep(space, buffers.State().blocks[0], pending, chunk, limit);
      Fill(chunk);
      DeliverFull();
      pending := p.rest;
    }

    /** Delivers every frame that lies whole in the head buffer. Returns where the rest starts, and
        the length of its length field and the body length, zero if that field is not complete. */
    method CutSmall() returns (start: nat, vint: nat, n: nat)
      requires headLen <= head.Length
      modifies this`events
      ensures start <= headLen && Parse(head[..headLen]).rest == head[start..headLen]
      ensures Shaped(Parse(head[..headLen]).frames)
      ensures events == old(events) + Judged(Parse(head[..headLen]).frames, limit)
      ensures vint != 0 ==> ParseHeader(head[start..headLen]) == Some((CRC_SIZE + vint, n))
      ensures vint != 0 ==> headLen - start < CRC_SIZE + vint + n
      ensures vint == 0 ==> ParseHeader(head[start..headLen]).None?
    {
      start, vint, n := 0, 0, 0;
      var left := headLen;
      ghost var s, t, done, e0 := head[..headLen], head[..headLen], [], events;
      assert head[0..headLen] == t;
      while left > CRC_SIZE
        invariant 0 <= start && 0 <= left && start + left == headLen && vint == 0
        invariant t == head[start..headLen] && CutAt(s, done, t) && events == e0 + Judged(done, limit)
      {
        var whole, next, crc, data;
        vint, n, whole, next, crc, data := ReadFront(head, start, left, headLen, t);
        if !whole {
          break;
        }
        done, t := CutStep(s, done, t, CRC_SIZE + vint, n, crc, data, limit);
        var e := Check(crc, data, limit);
        assert e0 + (Judged(done, limit)[..|done| - 1] + [e]) == events + [e];
        events := events + [e];
        start, left, vint := next, left - (CRC_SIZE + vint + n), 0;
      }
      assert done + [] == done;
    }

    /** A block of `s` bytes from an empty buffer manager. */
    method Reserve(s: nat) returns (status: Status, pointer: Option<nat>)
      requires s >= CRC_SIZE && buffers.Valid() && Accounted(buffers.State()) && buffers.State().blocks == []
      modifies buffers
      ensures buffers.Valid() && Accounted(buffers.State()) && SpaceOf(buffers) == old(SpaceOf(buffers))
      ensures (status == Success) == SpaceOf(buffers).Fits(s - CRC_SIZE)
      ensures var blocks := buffers.State().blocks;
              if status == Success then |blocks| == 1 && IsNew(blocks[0], s, pointer) else blocks == []
    {
      ghost var q := buffers.State();
      EmptyRoom(buffers.store, buffers.live, buffers.split, s);
      status, pointer := buffers.Push(Back, s);
      if status == Success {
        ghost var b: Block :| IsNew(b, s, pointer) && buffers.State() == q.Put(Back, b);
        PutKeepsAccount(q, Back, b);
      }
    }

    /** Moves the front part of a large frame into a block, if there is space. */
    method Spill(start: nat, vint: nat, n: nat) returns (ok: bool)
      requires start <= headLen <= head.Length && ParseHeader(head[start..headLen]) == Some((CRC_SIZE + vint, n))
      requires headLen - start < CRC_SIZE + vint + n
      requires buffers.Valid() && Accounted(buffers.State()) && buffers.State().blocks == []
      modifies buffers
      ensures buffers.Valid() && Accounted(buffers.State()) && SpaceOf(buffers) == old(SpaceOf(buffers))
      ensures ok == SpaceOf(buffers).Fits(n)
      ensures ok ==> |buffers.State().blocks| == 1 && Filling(buffers.State().blocks[0], head[start..headLen])
      ensures !ok ==> buffers.State().blocks == []
    {
      ghost var h := head[start..headLen];
      var data := head[start..start + CRC_SIZE] + head[start + CRC_SIZE + vint..headLen];
      assert data == h[..CRC_SIZE] + h[CRC_SIZE + vint..];
      var status, pointer := Reserve(CRC_SIZE + n);
      ok := status == Success;
      if ok {
        SpillBytes(buffers.State().blocks[0], h, CRC_SIZE + vint, n, data);
        Fill(data);
      }
    }

    /** The bytes of a read go behind those in the head buffer. */
    method Append(chunk: seq<byte>)
      requires headLen + |chunk| <= head.Length
      modifies this`headLen, head
      ensures headLen == old(headLen) + |chunk| && head[..headLen] == old(head[..headLen]) + chunk
    {
      forall i | 0 <= i < |chunk| {
        head[headLen + i] := chunk[i];
      }
      headLen := headLen + |chunk|;
    }

    /** Moves the bytes kept to the front of the head buffer. */
    method Keep(start: nat, left: nat)
      requires start + left <= head.Length
      modifies this`headLen, head
      ensures headLen == left && head[..headLen] == old(head[start..start + left])
    {
      forall i | 0 <= i < left {
        head[i] := head[start + i];
      }
      headLen := left;
    }

    /** Delivers what is whole in the head buffer and spills a large frame. `tooLarge` says that
        a frame could not be spilled; its header is then dropped. */
    method ParseHead() returns (tooLarge: bool)
      requires head.Length == HEAD_BUFFER && headLen <= HEAD_BUFFER
      requires buffers.Valid() && Accounted(buffers.State()) && SpaceOf(buffers) == space
      requires buffers.State().blocks == []
      modifies this`headLen, this`events, head, buffers
      ensures headLen <= HEAD_BUFFER
      ensures buffers.Valid() && Accounted(buffers.State()) && SpaceOf(buffers) == space
      ensures var p := Parse(old(head[..headLen]));
              && Shaped(p.frames) && events == old(events) + Judged(p.frames, limit)
              && tooLarge == space.Oversized(p.rest)
              && if tooLarge then
                   buffers.State().blocks == [] && head[..headLen] == p.rest[ParseHeader(p.rest).value.0..]
                 else Standing(space, buffers.State().blocks, head[..headLen], p.rest)
    {
      tooLarge := false;
      var start, vint, n := CutSmall();
      ghost var rest := head[start..headLen];
      var left := headLen - start;
      if vint != 0 {
        var ok := Spill(start, vint, n);
        if ok {
          start, left := headLen, 0;
        } else {
          tooLarge := true;
          start, left := start + CRC_SIZE + vint, left - CRC_SIZE - vint;
          assert head[start..start + left] == rest[CRC_SIZE + vint..];
        }
      }
      Keep(start, left);
    }

    /** A read into the head buffer. A frame that cannot be spilled ends the connection. */
    method ReadHead(chunk: seq<byte>)
      requires Valid() && connected && buffers.State().blocks == [] && 0 < |chunk| <= Offered()
      modifies this, head, buffers
      ensures Valid() && ReadOutcome(old(pending), old(events), chunk)
    {
      ghost var p := Parse(pending + chunk);
      Append(chunk);
      var tooLarge := ParseHead();
      pending := p.rest;
      NotFull(space, buffers.State().blocks, head[..headLen], p.rest, tooLarge);
      DeliverFull();
      if tooLarge {
        if headLen > 0 {
          events := events + [Event(InvalidSize, head[..headLen])];
        }
        connected := false;
      }
    }

    /** What a read does: the frames that became complete are delivered, and the connection
        ends if the next one can never be taken in. */
    ghost predicate ReadOutcome(before: seq<byte>, events0: seq<Event>, chunk: seq<byte>)
      reads this
    {
      var p := Parse(before + chunk);
      && Shaped(p.frames)
      && pending == p.rest
      && connected == !space.Oversized(p.rest)
      && events == events0 + Judged(p.frames, limit) + if connected then [] else Leftover(p.rest)
    }

    /** The platform reports a read. An empty one changes nothing, and bytes that come after the end
        of the connection are ignored. */
    method Read(chunk: seq<byte>)
      requires Valid() && (connected ==> |chunk| <= Offered())
      modifies this, head, buffers
      ensures Valid()
      ensures if old(connected) then ReadOutcome(old(pending), old(events), chunk)
              else !connected && pending == old(pending) && events == old(events)
    {
      if !connected {
        return;
      }
      if |chunk| == 0 {
        NothingNew(space, buffers.State().blocks, head[..headLen], pending);
        assert pending + chunk == pending;
        return;
      }
      var toHead, len := Alloc();
      if toHead {
        ReadHead(chunk);
      } else {
        ReadBlock(chunk);
      }
    }
  }

  /** Between reads no frame is complete. */
  lemma NothingNew(space: Space, blocks: seq<Block>, held: seq<byte>, pending: seq<byte>)
    requires Standing(space, blocks, held, pending)
    ensures Parse(pending) == Parsed([], pending) && !space.Oversized(pending)
  {
  }

  /** The frames `done` have been cut off the front of `s`; `t` is left. */
  ghost predicate CutAt(s: seq<byte>, done: seq<Frame>, t: seq<byte>) {
    Parse(s) == Then(done, Parse(t)) && Shaped(done)
  }

  lemma JudgedSnoc(done: seq<Frame>, f: Frame, limit: nat)
    requires Shaped(done) && |f.crc| == CRC_SIZE
    ensures Shaped(done + [f]) && Judged(done + [f], limit) == Judged(done, limit) + [Judge(f, limit)]
  {
  }

  /** The frame at the front, given where its parts lie. */
  lemma ParseFirst(t: seq<byte>, head: nat, n: nat)
    requires ParseHeader(t) == Some((head, n)) && head + n <= |t|
    ensures Parse(t) == Then([Frame(t[..CRC_SIZE], t[head..head + n])], Parse(t[head + n..]))
  {
  }

  lemma ThenThen(a: seq<Frame>, b: seq<Frame>, p: Parsed)
    ensures Then(a, Then(b, p)) == Then(a + b, p)
  {
    assert a + (b + p.frames) == a + b + p.frames;
  }

  /** One frame further. */
  lemma CutStep(s: seq<byte>, done: seq<Frame>, t: seq<byte>, head: nat, n: nat, crc: seq<byte>, data: seq<byte>,
                limit: nat)
      returns (done': seq<Frame>, t': seq<byte>)
    requires CutAt(s, done, t) && ParseHeader(t) == Some((head, n)) && head + n <= |t|
    requires crc == t[..CRC_SIZE] && data == t[head..head + n]
    ensures t' == t[head + n..] && CutAt(s, done', t')
    ensures Judged(done', limit) == Judged(done, limit) + [Judge(Frame(crc, data), limit)]
  {
    ParseFirst(t, head, n);
    done', t' := done + [Frame(crc, data)], t[head + n..];
    ThenThen(done, [Frame(crc, data)], Parse(t'));
    JudgedSnoc(done, Frame(crc, data), limit);
  }

  /** Right after a spill nothing can be delivered from the block. */
  lemma NotFull(space: Space, blocks: seq<Block>, held: seq<byte>, pending: seq<byte>, tooLarge: bool)
    requires if tooLarge then blocks == [] else Standing(space, blocks, held, pending)
    ensures blocks == [] || (|blocks| == 1 && blocks[0].Ok() && blocks[0].size >= CRC_SIZE && blocks[0].Unread() > 0)
  {
  }

  /** A new block with checksum and partial body stored holds the frame begun. */
  lemma SpillBytes(b: Block, h: seq<byte>, head: nat, n: nat, data: seq<byte>)
    requires b.Ok() && b.size == CRC_SIZE + n && b.used == 0
    requires ParseHeader(h) == Some((head, n)) && |h| < head + n && data == h[..CRC_SIZE] + h[head..]
    ensures |data| <= b.Unread() && Filling(b.Write(data).Pop(|data|), h)
  {
    var c := b.Write(data).Pop(|data|);
    assert c.bytes[..|data|] == data;
    assert c.bytes[..CRC_SIZE] == data[..CRC_SIZE] && c.bytes[CRC_SIZE..|data|] == data[CRC_SIZE..];
  }

  lemma FillKeepsAccount(q: Queue, chunk: seq<byte>)
    requires Accounted(q) && |q.blocks| == 1 && |chunk| <= q.blocks[0].Unread()
    ensures q.WriteAt(Back, chunk).Ok() && Accounted(q.WriteAt(Back, chunk).Take(Back, |chunk|, false).0)
  {
    var w := q.WriteAt(Back, chunk);
    TotalOfParts(q.blocks, Back, q.blocks[0].Write(chunk));
    TakeKeepsAccount(w, Back, |chunk|, false);
  }

}
