/** The shared-memory channel run one operation at a time: a bounded queue of nonempty messages. */
module MemChannels {
  import opened Base
  import opened Rings
  import opened MemBlocks
  import opened MemSteps
  import opened MemReaders
  import Crc64

  /** The payloads in the ring, oldest first. */
  function Messages(entries: seq<Entry>): (m: seq<seq<byte>>)
    ensures |m| == |entries| && forall i :: 0 <= i < |m| ==> m[i] == entries[i].msg
  {
    seq(|entries|, i requires 0 <= i < |entries| => entries[i].msg)
  }

  lemma MessagesMore(entries: seq<Entry>, e: Entry)
    ensures Messages(entries + [e]) == Messages(entries) + [e.msg]
  {
  }

  /** A fresh memory region of `len` bytes, cut into nodes. */
  method MemInit(len: nat) returns (status: Status, ring: Ring, protectNodes: nat)
    ensures status == if len < CHANNEL_HEAD_SIZE + NODE_SIZE + NODE_HEAD_SIZE then ChannelSizeTooSmall else Success
    ensures status == Success ==>
              && Laid(ring, [], FastCheck) && protectNodes == |ring.heads| / 128 && protectNodes < |ring.heads|
              && CHANNEL_HEAD_SIZE + |ring.heads| * NODE_HEAD_SIZE + |ring.data| <= len
              && len < CHANNEL_HEAD_SIZE + (|ring.heads| + 1) * (NODE_HEAD_SIZE + NODE_SIZE)
  {
    if len < CHANNEL_HEAD_SIZE + NODE_SIZE + NODE_HEAD_SIZE {
      return ChannelSizeTooSmall, Ring([], [], 0, 0), 0;
    }
    var n := (len - CHANNEL_HEAD_SIZE) / (NODE_SIZE + NODE_HEAD_SIZE);
    ring := Ring(Clear(n), seq<Cell>(NODE_SIZE * n, _ => Raw(0)), 0, 0);
    assert Rotated(ring.heads, 0) == Flat([]) + Clear(n);
    return Success, ring, n / 128;
  }

  /** The block of `k` nodes from the write cursor wraps exactly when its bytes pass the end. */
  lemma WrapsIff(node: nat, len: nat, n: nat)
    requires node < n && NodesFor(len) < n
    ensures var next := Ahead(node, NodesFor(len), n);
            (next != 0 && next < node) <==> NODE_SIZE * node + BLOCK_HEAD_SIZE + len > NODE_SIZE * n
  {
    var k := NodesFor(len);
    if node + k <= n {
      assert NODE_SIZE * node + NODE_SIZE * k <= NODE_SIZE * n;
    } else {
      assert NODE_SIZE * node + NODE_SIZE * (k - 1) >= NODE_SIZE * n;
    }
  }

  /** The payload copy, in one piece or in two. */
  method CopyBytes(data: seq<Cell>, at: nat, msg: seq<byte>, wraps: bool) returns (data': seq<Cell>)
    requires at < |data| && |msg| <= |data| && (wraps <==> at + |msg| > |data|)
    ensures data' == RingWrite(data, at, Bytes(msg))
  {
    var bufferLen := |data| - at;
    if wraps {
      var copyLen := if |msg| > bufferLen then bufferLen else |msg|;
      assert Bytes(msg)[..copyLen] == Bytes(msg[..copyLen]) && Bytes(msg)[copyLen..] == Bytes(msg[copyLen..]);
      data' := Overwrite(data, at, Bytes(msg[..copyLen]));
      data' := Overwrite(data', 0, Bytes(msg[copyLen..]));
    } else {
      data' := Overwrite(data, at, Bytes(msg));
    }
  }

  /** Size, payload and check value of a message go into its nodes. */
  method CopyIn(data: seq<Cell>, node: nat, next: nat, n: nat, msg: seq<byte>, check: bv64) returns (data': seq<Cell>)
    requires |data| == NODE_SIZE * n && node < n && NodesFor(|msg|) < n && next == Ahead(node, NodesFor(|msg|), n)
    ensures |msg| <= |data| && data' == FillCells(data, NODE_SIZE * node, msg, check)
  {
    WrapsIff(node, |msg|, n);
    var at := NODE_SIZE * node;
    data' := data[at := Size(|msg|)];
    data' := CopyBytes(data', at + BLOCK_HEAD_SIZE, msg, next != 0 && next < node);
    data' := data'[at + CHECK_OFFSET := Check(check)];
  }

  /** The blocks of `base`, except that block `i` has got to `phase`. */
  function InPhase(base: seq<Entry>, i: nat, phase: Phase): seq<Entry>
    requires i < |base|
  {
    base[i := base[i].(phase := phase)]
  }

  lemma InPhaseOffset(base: seq<Entry>, i: nat, phase: Phase)
    requires i < |base|
    ensures Offset(InPhase(base, i, phase), i) == Offset(base, i)
  {
    OffsetUpdated(base, i, base[i].(phase := phase));
  }

  /** A node of the newest block is marked. */
  method MarkOne(r: Ring, ghost crc: Checksum, ghost base: seq<Entry>, ghost i: nat, ghost j: nat, node: nat,
                 opSeq: nat)
      returns (r': Ring)
    requires i < |base| && Laid(r, InPhase(base, i, Marking(j)), crc)
    requires j < base[i].Nodes() && opSeq == SeqOf(base[i].ticket)
    requires Offset(base, i) + j <= |r.heads| && node == Ahead(r.readCur, Offset(base, i) + j, |r.heads|)
    ensures node < |r.heads| && r' == Mark(r, node, opSeq) && Laid(r', InPhase(base, i, Marking(j + 1)), crc)
  {
    ghost var after, entries' := r, base;
    InPhaseOffset(base, i, Marking(j));
    after, entries' := MarkedNext(r, InPhase(base, i, Marking(j)), crc, i, node);
    assert entries' == InPhase(base, i, Marking(j + 1));
    assert r.heads[node].opSeq == 0;
    r' := r.(heads := r.heads[node := r.heads[node].(written := true, opSeq := opSeq)]);
    assert r' == after;
  }

  /** In `r'` block `i` is marked up to node `j`, and `node` is the place of that. */
  ghost predicate MarkedTo(r: Ring, r': Ring, crc: Checksum, base: seq<Entry>, i: nat, j: nat, node: nat) {
    && |base| == i + 1 && Offset(base, i) + base[i].Nodes() < |r.heads| && j <= base[i].Nodes()
    && r' == r.(heads := r'.heads) && |r'.heads| == |r.heads|
    && Laid(r', InPhase(base, i, Marking(j)), crc) && node == Ahead(r.readCur, Offset(base, i) + j, |r.heads|)
  }

  /** Marks node `j` and goes to the next; that is `next` exactly at the end of the block. */
  method MarkFurther(r: Ring, cur: Ring, ghost crc: Checksum, ghost base: seq<Entry>, ghost i: nat, ghost j: nat,
                     node: nat, opSeq: nat, ghost next: nat) returns (r': Ring, node': nat)
    requires MarkedTo(r, cur, crc, base, i, j, node) && j < base[i].Nodes() && opSeq == SeqOf(base[i].ticket)
    requires next == Ahead(r.readCur, Offset(base, i) + base[i].Nodes(), |r.heads|)
    ensures MarkedTo(r, r', crc, base, i, j + 1, node') && (node' == next <==> j + 1 == base[i].Nodes())
  {
    r' := MarkOne(cur, crc, base, i, j, node, opSeq);
    node' := NextIndex(node, 1, |r.heads|);
    SamePlace(r.readCur, Offset(base, i) + j + 1, Offset(base, i) + base[i].Nodes(), |r.heads|);
  }

  /** Marks the nodes behind the first; no node carries another writer's number. */
  method MarkNodes(r: Ring, ghost crc: Checksum, ghost base: seq<Entry>, ghost i: nat, opSeq: nat, first: nat,
                   next: nat)
      returns (r': Ring)
    requires |base| == i + 1 && Laid(r, InPhase(base, i, Marking(1)), crc) && opSeq == SeqOf(base[i].ticket)
    requires Offset(base, i) < |r.heads| && first == Ahead(r.readCur, Offset(base, i), |r.heads|) && next == r.writeCur
    ensures r' == r.(heads := r'.heads) && |r'.heads| == |r.heads|
    ensures Laid(r', InPhase(base, i, Marking(base[i].Nodes())), crc)
  {
    ghost var j, k := 1, base[i].Nodes();
    LastEnds(r, crc, base, i, Marking(1));
    r' := r;
    var node := NextIndex(first, 1, |r.heads|);
    SamePlace(r.readCur, Offset(base, i) + 1, Offset(base, i) + k, |r.heads|);
    while node != next
      invariant 1 <= j <= k && MarkedTo(r, r', crc, base, i, j, node) && (node == next <==> j == k)
      decreases k - j
    {
      r', node := MarkFurther(r, r', crc, base, i, j, node, opSeq, next);
      j := j + 1;
    }
  }

  /** The newest block ends at the write cursor. */
  lemma {:induction false} LastEnds(r: Ring, crc: Checksum, base: seq<Entry>, i: nat, phase: Phase)
    requires |base| == i + 1 && Laid(r, InPhase(base, i, phase), crc)
    ensures Offset(base, i) + base[i].Nodes() < |r.heads|
    ensures r.writeCur == Ahead(r.readCur, Offset(base, i) + base[i].Nodes(), |r.heads|)
  {
    InPhaseOffset(base, i, phase);
    LastOffset(InPhase(base, i, phase));
  }

  /** Fetches the next operation number. */
  method FetchSeq(opSeq: nat, ghost fetched: nat) returns (next: nat)
    requires opSeq == SeqOf(fetched)
    ensures next == SeqOf(fetched + 1) && next != 0
  {
    FetchStep(fetched);
    next := if (opSeq + 1) % 0x1_0000_0000 != 0 then (opSeq + 1) % 0x1_0000_0000 else (opSeq + 2) % 0x1_0000_0000;
  }

  /** Moves the write cursor to `next`, blanks the block head and marks the first node. */
  method StartBlock(r: Ring, ghost crc: Checksum, ghost entries: seq<Entry>, ghost ticket: nat, opSeq: nat,
                    ghost msg: seq<byte>, next: nat)
      returns (r': Ring)
    requires Laid(r, entries, crc) && ticket > 0 && opSeq == SeqOf(ticket)
    requires Used(entries) + NodesFor(|msg|) < |r.heads|
    requires next == Ahead(r.writeCur, NodesFor(|msg|), |r.heads|)
    ensures r'.writeCur == next && r'.readCur == r.readCur && |r'.heads| == |r.heads|
    ensures Laid(r', entries + [Entry(msg, ticket, Marking(1))], crc)
  {
    ghost var after, entries' := Reserved(r, entries, crc, msg, ticket);
    var first := r.writeCur;
    r' := Ring(r.heads[first := r.heads[first].(start := true, opSeq := opSeq)],
               Overwrite(r.data, NODE_SIZE * first, BLANK), r.readCur, next);
    assert r' == after;
  }

  method FillBlock(r: Ring, ghost crc: Checksum, ghost base: seq<Entry>, ghost i: nat, first: nat, msg: seq<byte>,
                   check: bv64)
      returns (r': Ring)
    requires |base| == i + 1 && Laid(r, InPhase(base, i, Marking(base[i].Nodes())), crc) && msg == base[i].msg
    requires check == crc(msg)
    requires Offset(base, i) < |r.heads| && first == Ahead(r.readCur, Offset(base, i), |r.heads|)
    ensures r' == r.(data := r'.data) && Laid(r', InPhase(base, i, Copied), crc)
  {
    ghost var after, entries' := r, base;
    InPhaseOffset(base, i, Marking(base[i].Nodes()));
    LastOffset(InPhase(base, i, Marking(base[i].Nodes())));
    AheadAhead(r.readCur, Offset(base, i), base[i].Nodes(), |r.heads|);
    after, entries' := FilledBlock(r, InPhase(base, i, Marking(base[i].Nodes())), crc, i, first);
    assert entries' == InPhase(base, i, Copied);
    var data := CopyIn(r.data, first, r.writeCur, |r.heads|, msg, check);
    r' := r.(data := data);
    assert r' == after;
  }

  method PublishBlock(r: Ring, ghost crc: Checksum, ghost base: seq<Entry>, ghost i: nat, first: nat, opSeq: nat)
      returns (r': Ring)
    requires i < |base| && Laid(r, InPhase(base, i, Copied), crc) && opSeq == SeqOf(base[i].ticket)
    requires Offset(base, i) < |r.heads| && first == Ahead(r.readCur, Offset(base, i), |r.heads|)
    ensures r' == r.(heads := r'.heads) && |r'.heads| == |r.heads| && Laid(r', InPhase(base, i, Published), crc)
  {
    ghost var after, entries' := r, base;
    InPhaseOffset(base, i, Copied);
    after, entries' := PublishedBlock(r, InPhase(base, i, Copied), crc, i, first);
    assert entries' == InPhase(base, i, Published);
    r' := r.(heads := r.heads[first := r.heads[first].(written := true)]);
    assert opSeq == r'.heads[first].opSeq;
    assert r' == after;
  }

  /** Writes a message into a ring with room for it. */
  method WriteBlock(r: Ring, ghost crc: Checksum, ghost entries: seq<Entry>, ghost ticket: nat, opSeq: nat, next: nat,
                    msg: seq<byte>, check: bv64)
      returns (r': Ring)
    requires Laid(r, entries, crc) && ticket > 0 && opSeq == SeqOf(ticket) && check == crc(msg)
    requires Used(entries) + NodesFor(|msg|) < |r.heads| && next == Ahead(r.writeCur, NodesFor(|msg|), |r.heads|)
    ensures |r'.heads| == |r.heads| && Laid(r', entries + [Entry(msg, ticket, Published)], crc)
  {
    ghost var i, base := |entries|, entries + [Entry(msg, ticket, Marking(1))];
    var first := r.writeCur;
    StartOffset(entries, base[i]);
    r' := StartBlock(r, crc, entries, ticket, opSeq, msg, next);
    assert InPhase(base, i, Marking(1)) == base;
    r' := MarkNodes(r', crc, base, i, opSeq, first, next);
    r' := FillBlock(r', crc, base, i, first, msg, check);
    r' := PublishBlock(r', crc, base, i, first, opSeq);
    assert InPhase(base, i, Published) == entries + [Entry(msg, ticket, Published)];
  }

  lemma {:induction false} StartOffset(entries: seq<Entry>, e: Entry)
    ensures Offset(entries + [e], |entries|) == Used(entries)
    decreases entries
  {
    if entries != [] {
      assert (entries + [e])[1..] == entries[1..] + [e];
      StartOffset(entries[1..], e);
    }
  }

  /** The free nodes a sender may take. */
  method Available(ring: Ring, protectNodes: nat, ghost entries: seq<Entry>) returns (available: nat)
    requires Laid(ring, entries, FastCheck) && Used(entries) + protectNodes < |ring.heads|
    ensures available == |ring.heads| - 1 - Used(entries) - protectNodes
  {
    var n := |ring.heads|;
    FreeByRemainder(ring.readCur, Used(entries), n);
    available := (ring.readCur + n - ring.writeCur - 1) % n;
    assert available >= protectNodes;
    available := available - protectNodes;
  }

  method SendInto(ring: Ring, opSeq: nat, protectNodes: nat, ghost entries: seq<Entry>, ghost fetched: nat,
                  msg: seq<byte>)
      returns (status: Status, ring': Ring, opSeq': nat, ghost entries': seq<Entry>, ghost fetched': nat)
    requires Quiet(ring, opSeq, protectNodes, entries, fetched)
    ensures Quiet(ring', opSeq', protectNodes, entries', fetched') && |ring'.heads| == |ring.heads|
    ensures status == if msg == [] || Used(entries) + NodesFor(|msg|) + protectNodes < |ring.heads|
                      then Success else BuffLimit
    ensures fetched' == if msg == [] || NodesFor(|msg|) + protectNodes >= |ring.heads| then fetched else fetched + 1
    ensures entries' == if status == Success && msg != [] then entries + [Entry(msg, fetched', Published)] else entries
  {
    ring', opSeq', entries', fetched' := ring, opSeq, entries, fetched;
    var n, count := |ring.heads|, NodesFor(|msg|);
    if |msg| == 0 {
      return Success, ring', opSeq', entries', fetched';
    }
    if count >= n - protectNodes {
      return BuffLimit, ring', opSeq', entries', fetched';
    }
    opSeq' := FetchSeq(opSeq, fetched);
    fetched' := fetched + 1;
    SettledLater(entries, fetched, fetched');
    var available := Available(ring, protectNodes, entries);
    if count > available {
      return BuffLimit, ring', opSeq', entries', fetched';
    }
    var next := NextIndex(ring.writeCur, count, n);
    var check := Crc64.Crc64(0, msg);
    ring' := WriteBlock(ring, FastCheck, entries, fetched', opSeq', next, msg, check);
    entries' := entries + [Entry(msg, fetched', Published)];
    FlatSnocUsed(entries, Entry(msg, fetched', Published));
    SettledMore(entries, fetched, Entry(msg, fetched', Published));
    status := Success;
  }

  lemma SettledMore(entries: seq<Entry>, fetched: nat, e: Entry)
    requires Settled(entries, fetched) && e.phase.Published? && e.msg != [] && e.ticket == fetched + 1
    ensures Settled(entries + [e], fetched + 1)
  {
    assert (entries + [e])[..|entries|] == entries;
  }

  /** The channel object: the shared memory and the operation counter. */
  class MemChannel {
    const protectNodes: nat
    var ring: Ring
    var opSeq: nat
    ghost var entries: seq<Entry>
    ghost var fetched: nat

    ghost predicate Valid()
      reads this
    {
      Quiet(ring, opSeq, protectNodes, entries, fetched)
    }

    /** The messages sent and not yet received, oldest first. */
    ghost function Queue(): seq<seq<byte>>
      reads this
    {
      Messages(entries)
    }

    /** Whether a message of `len` bytes fits behind those in the ring. */
    ghost predicate HasRoom(len: nat)
      reads this
    {
      Used(entries) + NodesFor(len) + protectNodes < |ring.heads|
    }

    constructor (ring: Ring, protectNodes: nat)
      requires Laid(ring, [], FastCheck) && protectNodes < |ring.heads|
      ensures Valid() && Queue() == [] && fetched == 0 && this.ring == ring && this.protectNodes == protectNodes
    {
      this.ring, this.protectNodes, opSeq := ring, protectNodes, 0;
      entries, fetched := [], 0;
    }

    /** Puts a message behind the others, or refuses it and changes no message. */
    method Send(msg: seq<byte>) returns (status: Status)
      requires Valid()
      modifies this
      ensures Valid() && |ring.heads| == |old(ring).heads|
      ensures status == if msg == [] || old(HasRoom(|msg|)) then Success else BuffLimit
      ensures Queue() == if status == Success && msg != [] then old(Queue()) + [msg] else old(Queue())
      ensures fetched == old(fetched) + if msg == [] || NodesFor(|msg|) + protectNodes >= |ring.heads| then 0 else 1
      ensures entries ==
              if status == Success && msg != [] then old(entries) + [Entry(msg, fetched, Published)] else old(entries)
    {
      var ring', opSeq';
      ghost var entries', fetched';
      status, ring', opSeq', entries', fetched' := SendInto(ring, opSeq, protectNodes, entries, fetched, msg);
      if status == Success && msg != [] {
        MessagesMore(entries, Entry(msg, fetched', Published));
      }
      ring, opSeq, entries, fetched := ring', opSeq', entries', fetched';
    }

    /** Takes the oldest message, byte for byte, if there is one, it fits the caller's buffer and its number is
        not that of the next; if only that fails, both are lost, and what recovery takes with them. */
    method Receive(len: nat) returns (status: Status, out: seq<byte>, size: Option<nat>)
      requires Valid()
      modifies this
      ensures Valid() && |ring.heads| == |old(ring).heads| && fetched == old(fetched)
      ensures Got(status, entries, size) == Received(old(entries), len)
      ensures status == Success ==> old(Queue()) != [] && out == old(Queue())[0]
      ensures old(NextDiffers(entries)) ==>
                && status == (if old(Queue()) == [] then NoData
                              else if |old(Queue())[0]| > len then BuffLimit else Success)
                && size == (if old(Queue()) == [] then None else Some(|old(Queue())[0]|))
                && Queue() == if status == Success then old(Queue())[1..] else old(Queue())
    {
      ReceivedIff(entries, len);
      status, ring, out, size := ReceiveFrom(ring, opSeq, protectNodes, entries, fetched, len);
      entries := Received(entries, len).left;
    }
  }

  /** A message of one byte takes a node; one of 300 bytes takes three. */
  lemma SmallAndLong(a: seq<byte>, t: nat)
    requires |a| == 1
    ensures Used([Entry(a, t, Published)]) == NodesFor(1) == 1 && NodesFor(300) == 3 && Used([]) == 0
  {
    assert [Entry(a, t, Published)][1..] == [];
  }

  /** Blocks a whole period apart bear the same number, and a reader loses both. */
  lemma SameNumber(a: seq<byte>, b: seq<byte>)
    requires |a| == |b| == 1
    ensures SeqOf(1) == SeqOf(1 + SEQ_PERIOD)
    ensures Received([Entry(a, 1, Published), Entry(b, 1 + SEQ_PERIOD, Published)], 1) == Got(BadNodeNum, [], None)
  {
    var es := [Entry(a, 1, Published), Entry(b, 1 + SEQ_PERIOD, Published)];
    assert es[1..] == [Entry(b, 1 + SEQ_PERIOD, Published)] && es[1..][1..] == [];
    assert SameRun(es[1..], SeqOf(1)) == 1 + SameRun([], SeqOf(1));
    assert Alike(es) == 2 && es[2..] == [];
  }

  /** A channel of four nodes that holds one message of one byte. */
  method OneMessage(a: seq<byte>) returns (c: MemChannel)
    requires |a| == 1
    ensures fresh(c) && c.Valid() && c.protectNodes == 0 && |c.ring.heads| == 4
    ensures c.fetched == 1 && c.entries == [Entry(a, 1, Published)]
  {
    var ring := Ring(Clear(4), seq<Cell>(NODE_SIZE * 4, _ => Raw(0)), 0, 0);
    assert Rotated(ring.heads, 0) == Flat([]) + Clear(4);
    c := new MemChannel(ring, 0);
    SmallAndLong(a, 1);
    var status := c.Send(a);
  }

  /** A message that needs three nodes there is refused, and uses a number up. */
  method RefuseLong(c: MemChannel, ghost a: seq<byte>, long: seq<byte>)
    requires c.Valid() && c.protectNodes == 0 && |c.ring.heads| == 4
    requires |a| == 1 && |long| == 300 && c.entries == [Entry(a, 1, Published)]
    modifies c
    ensures c.Valid() && |c.ring.heads| == 4 && c.entries == old(c.entries) && c.fetched == old(c.fetched) + 1
  {
    SmallAndLong(a, 1);
    var status := c.Send(long);
  }

  /** Refused sends use a period of numbers up. */
  method UseNumbersUp(c: MemChannel, ghost a: seq<byte>, long: seq<byte>)
    requires c.Valid() && c.protectNodes == 0 && |c.ring.heads| == 4 && c.fetched == 1
    requires |a| == 1 && |long| == 300 && c.entries == [Entry(a, 1, Published)]
    modifies c
    ensures c.Valid() && |c.ring.heads| == 4 && c.entries == [Entry(a, 1, Published)] && c.fetched == SEQ_PERIOD
  {
    for i := 0 to SEQ_PERIOD - 1
      invariant c.Valid() && |c.ring.heads| == 4 && c.entries == [Entry(a, 1, Published)] && c.fetched == 1 + i
    {
      RefuseLong(c, a, long);
    }
  }

  /** The next number is that of the first message again. */
  method SendSecond(c: MemChannel, ghost a: seq<byte>, b: seq<byte>)
    requires c.Valid() && c.protectNodes == 0 && |c.ring.heads| == 4 && c.fetched == SEQ_PERIOD
    requires |a| == |b| == 1 && c.entries == [Entry(a, 1, Published)]
    modifies c
    ensures c.Valid() && c.entries == [Entry(a, 1, Published), Entry(b, 1 + SEQ_PERIOD, Published)]
    ensures c.Queue() == [a, b]
  {
    SmallAndLong(a, 1);
    var status := c.Send(b);
  }

  /** A run that loses two messages in a channel of four nodes: the second message is sent after as many refused
      sends as use the operation numbers up, so that it bears the number of the first. Neither is received, and
      the queue is empty. */
  method NumbersComeRound(a: seq<byte>, b: seq<byte>, long: seq<byte>) returns (c: MemChannel, status: Status)
    requires |a| == |b| == 1 && |long| == 300
    ensures c.Valid() && status == BadNodeNum && c.Queue() == []
  {
    c := OneMessage(a);
    UseNumbersUp(c, a, long);
    SendSecond(c, a, b);
    SameNumber(a, b);
    var out, size;
    status, out, size := c.Receive(1);
  }

  lemma {:induction false} FlatSnocUsed(entries: seq<Entry>, e: Entry)
    ensures Used(entries + [e]) == Used(entries) + e.Nodes()
    decreases entries
  {
    if entries != [] {
      assert (entries + [e])[1..] == entries[1..] + [e];
      FlatSnocUsed(entries[1..], e);
    }
  }
}
