/** What each step of a writer or of the reader does to the ring, told on the list of blocks. */
module MemSteps {
  import opened Base
  import opened Rings
  import opened MemBlocks

  /** The shared memory: node heads, data area and the two cursors. */
  datatype Ring = Ring(heads: seq<NodeHead>, data: seq<Cell>, readCur: nat, writeCur: nat) {
    predicate Shaped() {
      |data| == NODE_SIZE * |heads| && readCur < |heads| && writeCur < |heads|
    }
  }

  /** From the read cursor on, the ring holds the blocks, oldest first, and then empty nodes. */
  ghost predicate Laid(r: Ring, entries: seq<Entry>, crc: Checksum) {
    && r.Shaped() && EntriesOk(entries) && Used(entries) < |r.heads|
    && r.writeCur == Ahead(r.readCur, Used(entries), |r.heads|)
    && Rotated(r.heads, r.readCur) == Flat(entries) + Clear(|r.heads| - Used(entries))
    && Stored(Rotated(r.data, NODE_SIZE * r.readCur), entries, crc)
  }

  /** The node where block `i` starts. */
  function Node(r: Ring, entries: seq<Entry>, i: nat): (n: nat)
    requires r.Shaped() && i <= |entries| && Offset(entries, i) <= |r.heads|
    ensures n < |r.heads|
  {
    Ahead(r.readCur, Offset(entries, i), |r.heads|)
  }

  lemma CellAhead(i: nat, k: nat, n: nat, c: nat)
    requires i < n && k < n && c < NODE_SIZE
    ensures NODE_SIZE * Ahead(i, k, n) + c == Ahead(NODE_SIZE * i, NODE_SIZE * k + c, NODE_SIZE * n)
  {
  }

  /** An empty block head. */
  const BLANK: seq<Cell> :=
    [Size(0), Raw(0), Raw(0), Raw(0), Raw(0), Raw(0), Raw(0), Raw(0),
     Check(0), Raw(0), Raw(0), Raw(0), Raw(0), Raw(0), Raw(0), Raw(0)]

  /** A writer moves the write cursor over `k` nodes, blanks the block head and marks the first node. */
  function Reserve(r: Ring, k: nat, opSeq: nat): Ring
    requires r.Shaped() && k <= |r.heads|
  {
    Ring(r.heads[r.writeCur := r.heads[r.writeCur].(start := true, opSeq := opSeq)],
         Overwrite(r.data, NODE_SIZE * r.writeCur, BLANK),
         r.readCur, Ahead(r.writeCur, k, |r.heads|))
  }

  function Mark(r: Ring, node: nat, opSeq: nat): Ring
    requires node < |r.heads|
  {
    r.(heads := r.heads[node := r.heads[node].(written := true, opSeq := opSeq)])
  }

  /** The writer's payload with its size and check value, from node `node` on. */
  function Fill(r: Ring, node: nat, msg: seq<byte>, crc: Checksum): Ring
    requires r.Shaped() && node < |r.heads| && |msg| <= |r.data|
  {
    r.(data := FillCells(r.data, NODE_SIZE * node, msg, crc(msg)))
  }

  function FillCells(data: seq<Cell>, at: nat, msg: seq<byte>, check: bv64): seq<Cell>
    requires at + BLOCK_HEAD_SIZE < |data| && |msg| <= |data|
  {
    RingWrite(data[at := Size(|msg|)], at + BLOCK_HEAD_SIZE, Bytes(msg))[at + CHECK_OFFSET := Check(check)]
  }

  function Publish(r: Ring, node: nat): Ring
    requires node < |r.heads|
  {
    r.(heads := r.heads[node := r.heads[node].(written := true)])
  }

  lemma LaidHead(r: Ring, entries: seq<Entry>, crc: Checksum, i: nat, j: nat)
    requires Laid(r, entries, crc) && i < |entries| && j < entries[i].Nodes()
    ensures Offset(entries, i) + j < |r.heads|
    ensures r.heads[Ahead(r.readCur, Offset(entries, i) + j, |r.heads|)] == entries[i].Heads()[j]
  {
    OffsetWithin(entries, i);
    FlatUpdate(entries, i, j, entries[i].Heads()[j], entries[i], entries[i].Heads());
    RotatedAt(r.heads, r.readCur, Offset(entries, i) + j);
  }

  /** One node head of block `i` changes, so that the block is now `e`. */
  lemma HeadChanges(r: Ring, entries: seq<Entry>, crc: Checksum, i: nat, j: nat, x: NodeHead, e: Entry)
      returns (r': Ring, entries': seq<Entry>)
    requires Laid(r, entries, crc) && i < |entries| && j < entries[i].Nodes()
    requires e.Ok() && e.msg == entries[i].msg && (e.Full() ==> entries[i].Full())
    requires e.Heads() == entries[i].Heads()[j := x]
    ensures Offset(entries, i) + j < |r.heads|
    ensures r' == r.(heads := r.heads[Ahead(r.readCur, Offset(entries, i) + j, |r.heads|) := x])
    ensures entries' == entries[i := e] && Laid(r', entries', crc)
  {
    var o, n := Offset(entries, i) + j, |r.heads|;
    OffsetWithin(entries, i);
    FlatUpdate(entries, i, j, x, e, entries[i].Heads());
    RingUpdateRotated(r.heads, r.readCur, o, x);
    UpdateLeft(Flat(entries), Clear(n - Used(entries)), o, x);
    r', entries' := r.(heads := r.heads[Ahead(r.readCur, o, n) := x]), entries[i := e];
    SameStored(Rotated(r.data, NODE_SIZE * r.readCur), entries, i, e, crc);
  }

  lemma SameStored(d: seq<Cell>, entries: seq<Entry>, i: nat, e: Entry, crc: Checksum)
    requires Stored(d, entries, crc) && NODE_SIZE * Used(entries) <= |d| && i < |entries|
    requires e.msg == entries[i].msg && (e.Full() ==> entries[i].Full())
    ensures Stored(d, entries[i := e], crc)
  {
    OffsetWithin(entries, i);
    if entries[i].Full() {
      StoredAt(d, entries, i, crc);
    }
    StoredUpdate(d, d, entries, i, e, crc);
  }

  /** The new block stands behind the others; the node at the write cursor was empty. */
  lemma Reserved(r: Ring, entries: seq<Entry>, crc: Checksum, msg: seq<byte>, ticket: nat)
      returns (r': Ring, entries': seq<Entry>)
    requires Laid(r, entries, crc) && ticket > 0 && Used(entries) + NodesFor(|msg|) < |r.heads|
    ensures r.Shaped() && r.heads[r.writeCur] == CLEAR
    ensures r' == Reserve(r, NodesFor(|msg|), SeqOf(ticket)) && entries' == entries + [Entry(msg, ticket, Marking(1))]
    ensures Laid(r', entries', crc)
  {
    var n, u, k, e := |r.heads|, Used(entries), NodesFor(|msg|), Entry(msg, ticket, Marking(1));
    r', entries' := Reserve(r, k, SeqOf(ticket)), entries + [e];
    RotatedAt(r.heads, r.readCur, u);
    FlatSnoc(entries, e);
    RingUpdateRotated(r.heads, r.readCur, u, e.First());
    ReservedHeads(Flat(entries), e, n - u);
    AheadAhead(r.readCur, u, k, n);
    ReservedData(r, entries, crc, e);
  }

  lemma ReservedHeads(flat: seq<NodeHead>, e: Entry, m: nat)
    requires e.Ok() && e.phase == Marking(1) && e.Nodes() <= m
    ensures m > 0 && (flat + Clear(m))[|flat| := e.First()] == flat + e.Heads() + Clear(m - e.Nodes())
  {
    UpdateRight(flat, Clear(m), 0, e.First());
    NewHeads(e, m);
    assert flat + (e.Heads() + Clear(m - e.Nodes())) == flat + e.Heads() + Clear(m - e.Nodes());
  }

  lemma ReservedData(r: Ring, entries: seq<Entry>, crc: Checksum, e: Entry)
    requires Laid(r, entries, crc) && !e.Full() && Used(entries) + e.Nodes() < |r.heads|
    ensures Stored(Rotated(Overwrite(r.data, NODE_SIZE * r.writeCur, BLANK), NODE_SIZE * r.readCur), entries + [e], crc)
  {
    var u, at := Used(entries), NODE_SIZE * r.readCur;
    var w := Overwrite(r.data, NODE_SIZE * r.writeCur, BLANK);
    CellAhead(r.readCur, u, |r.heads|, 0);
    BlankBehind(r.data, at, NODE_SIZE * u, NODE_SIZE * r.writeCur);
    StoredFrame(Rotated(r.data, at), Rotated(w, at), entries, crc);
    StoredSnoc(Rotated(w, at), entries, e, crc);
  }

  /** Blanking a block head behind the used cells leaves those alone. */
  lemma BlankBehind(data: seq<Cell>, at: nat, off: nat, c: nat)
    requires at < |data| && off + BLOCK_HEAD_SIZE <= |data| && c + BLOCK_HEAD_SIZE <= |data| && off < |data|
    requires c == Ahead(at, off, |data|)
    ensures Rotated(Overwrite(data, c, BLANK), at)[..off] == Rotated(data, at)[..off]
  {
    assert Overwrite(data, c, BLANK) == RingWrite(data, c, BLANK);
    RingWriteRotated(data, at, off, BLANK);
  }

  /** A later node of a block is marked; no other writer had marked it. */
  lemma MarkedNext(r: Ring, entries: seq<Entry>, crc: Checksum, i: nat, node: nat)
      returns (r': Ring, entries': seq<Entry>)
    requires Laid(r, entries, crc) && i < |entries| && entries[i].phase.Marking?
    requires entries[i].phase.marked < entries[i].Nodes()
    requires Offset(entries, i) + entries[i].phase.marked <= |r.heads|
    requires node == Ahead(r.readCur, Offset(entries, i) + entries[i].phase.marked, |r.heads|)
    ensures node < |r.heads| && r.heads[node].opSeq == 0
    ensures r' == Mark(r, node, SeqOf(entries[i].ticket))
    ensures entries' == entries[i := entries[i].(phase := Marking(entries[i].phase.marked + 1))]
    ensures Laid(r', entries', crc)
  {
    var j := entries[i].phase.marked;
    var e := MarkHeads(entries[i]);
    LaidHead(r, entries, crc, i, j);
    r', entries' := HeadChanges(r, entries, crc, i, j, e.Later(), e);
  }

  /** The first node is marked written; it still carries the writer's own number. */
  lemma PublishedBlock(r: Ring, entries: seq<Entry>, crc: Checksum, i: nat, node: nat)
      returns (r': Ring, entries': seq<Entry>)
    requires Laid(r, entries, crc) && i < |entries| && entries[i].phase.Copied?
    requires Offset(entries, i) <= |r.heads| && node == Node(r, entries, i)
    ensures node < |r.heads| && r.heads[node].opSeq == SeqOf(entries[i].ticket)
    ensures r' == Publish(r, node) && entries' == entries[i := entries[i].(phase := Published)]
    ensures Laid(r', entries', crc)
  {
    var e := PublishHeads(entries[i]);
    LaidHead(r, entries, crc, i, 0);
    r', entries' := HeadChanges(r, entries, crc, i, 0, e.First(), e);
  }

  function PlainFill(d: seq<Cell>, o: nat, msg: seq<byte>, check: bv64): seq<Cell>
    requires o + BLOCK_HEAD_SIZE + |msg| <= |d|
  {
    Overwrite(d[o := Size(|msg|)], o + BLOCK_HEAD_SIZE, Bytes(msg))[o + CHECK_OFFSET := Check(check)]
  }

  /** The three writes of a payload, seen from the oldest block. */
  lemma FillRotated(data: seq<Cell>, at: nat, o: nat, c: nat, msg: seq<byte>, check: bv64)
    requires at < |data| && o + BLOCK_HEAD_SIZE + |msg| <= |data| && o + BLOCK_HEAD_SIZE < |data|
    requires c + BLOCK_HEAD_SIZE < |data|
    requires c == Ahead(at, o, |data|) && c + CHECK_OFFSET == Ahead(at, o + CHECK_OFFSET, |data|)
    requires c + BLOCK_HEAD_SIZE == Ahead(at, o + BLOCK_HEAD_SIZE, |data|)
    ensures Rotated(FillCells(data, c, msg, check), at)
            == PlainFill(Rotated(data, at), o, msg, check)
  {
    var d2, p2 := SizedRotated(data, at, o, c, msg);
    RingUpdateRotated(d2, at, o + CHECK_OFFSET, Check(check));
    assert PlainFill(Rotated(data, at), o, msg, check) == p2[o + CHECK_OFFSET := Check(check)];
  }

  lemma SizedRotated(data: seq<Cell>, at: nat, o: nat, c: nat, msg: seq<byte>) returns (d2: seq<Cell>, p2: seq<Cell>)
    requires at < |data| && o + BLOCK_HEAD_SIZE + |msg| <= |data| && o + BLOCK_HEAD_SIZE < |data|
    requires c + BLOCK_HEAD_SIZE < |data|
    requires c == Ahead(at, o, |data|) && c + BLOCK_HEAD_SIZE == Ahead(at, o + BLOCK_HEAD_SIZE, |data|)
    ensures d2 == RingWrite(data[c := Size(|msg|)], c + BLOCK_HEAD_SIZE, Bytes(msg))
    ensures p2 == Overwrite(Rotated(data, at)[o := Size(|msg|)], o + BLOCK_HEAD_SIZE, Bytes(msg))
    ensures p2 == Rotated(d2, at)
  {
    d2 := RingWrite(data[c := Size(|msg|)], c + BLOCK_HEAD_SIZE, Bytes(msg));
    p2 := Overwrite(Rotated(data, at)[o := Size(|msg|)], o + BLOCK_HEAD_SIZE, Bytes(msg));
    RingUpdateRotated(data, at, o, Size(|msg|));
    RingWriteRotated(data[c := Size(|msg|)], at, o + BLOCK_HEAD_SIZE, Bytes(msg));
  }

  lemma InnerCells<T>(d: seq<T>, o: nat, k: nat, i: nat, j: nat)
    requires o + k <= |d| && i <= j <= k
    ensures d[o..][..k][i..j] == d[o + i..o + j]
  {
    var a, b := d[o..][..k][i..j], d[o + i..o + j];
    forall x | 0 <= x < j - i ensures a[x] == b[x] {
      assert d[o..][..k][i + x] == d[o + (i + x)];
    }
  }

  /** They hold the message and stay inside its nodes. */
  lemma FillHolds(d: seq<Cell>, o: nat, k: nat, msg: seq<byte>, crc: Checksum)
    requires o + k <= |d| && BLOCK_HEAD_SIZE + |msg| <= k
    ensures var e := PlainFill(d, o, msg, crc(msg));
            SameOutside(d, e, o, k) && Holds(e[o..][..k], msg, crc)
  {
    var e := PlainFill(d, o, msg, crc(msg));
    assert e[..o] == d[..o];
    assert e[o + k..] == d[o + k..];
    InnerCells(e, o, k, BLOCK_HEAD_SIZE, BLOCK_HEAD_SIZE + |msg|);
    assert e[o + BLOCK_HEAD_SIZE..o + (BLOCK_HEAD_SIZE + |msg|)] == Bytes(msg);
  }

  lemma FillSeen(r: Ring, off: nat, node: nat, msg: seq<byte>, check: bv64)
    requires r.Shaped() && off < |r.heads| && node == Ahead(r.readCur, off, |r.heads|)
    requires NODE_SIZE * off + BLOCK_HEAD_SIZE + |msg| <= |r.data|
    ensures node < |r.heads| && Rotated(FillCells(r.data, NODE_SIZE * node, msg, check), NODE_SIZE * r.readCur)
            == PlainFill(Rotated(r.data, NODE_SIZE * r.readCur), NODE_SIZE * off, msg, check)
  {
    CellAhead(r.readCur, off, |r.heads|, 0);
    CellAhead(r.readCur, off, |r.heads|, CHECK_OFFSET);
    CellAhead(r.readCur, off, |r.heads|, BLOCK_HEAD_SIZE);
    FillRotated(r.data, NODE_SIZE * r.readCur, NODE_SIZE * off, NODE_SIZE * node, msg, check);
  }

  lemma FilledData(r: Ring, entries: seq<Entry>, crc: Checksum, i: nat, node: nat, e: Entry)
    requires Laid(r, entries, crc) && i < |entries| && e == entries[i].(phase := Copied)
    requires Offset(entries, i) <= |r.heads| && node == Node(r, entries, i)
    ensures |e.msg| <= |r.data|
    ensures Stored(Rotated(Fill(r, node, e.msg, crc).data, NODE_SIZE * r.readCur), entries[i := e], crc)
  {
    var d, off := Rotated(r.data, NODE_SIZE * r.readCur), Offset(entries, i);
    OffsetWithin(entries, i);
    FillSeen(r, off, node, e.msg, crc(e.msg));
    FillHolds(d, NODE_SIZE * off, NODE_SIZE * e.Nodes(), e.msg, crc);
    StoredUpdate(d, PlainFill(d, NODE_SIZE * off, e.msg, crc(e.msg)), entries, i, e, crc);
  }

  /** The payload is in place, across the end of the area if need be, and no other block is touched. */
  lemma FilledBlock(r: Ring, entries: seq<Entry>, crc: Checksum, i: nat, node: nat)
      returns (r': Ring, entries': seq<Entry>)
    requires Laid(r, entries, crc) && i < |entries| && entries[i].phase == Marking(entries[i].Nodes())
    requires Offset(entries, i) <= |r.heads| && node == Node(r, entries, i)
    ensures node < |r.heads| && |entries[i].msg| <= |r.data|
    ensures r' == Fill(r, node, entries[i].msg, crc)
    ensures entries' == entries[i := entries[i].(phase := Copied)] && Laid(r', entries', crc)
  {
    assert entries[i] in entries;
    var e := FillHeads(entries[i]);
    FlatSame(entries, i, e);
    FilledData(r, entries, crc, i, node, e);
    r', entries' := Fill(r, node, e.msg, crc), entries[i := e];
  }

  lemma FrontCells<T>(d: seq<T>, k: nat, i: nat, j: nat)
    requires i <= j <= k <= |d|
    ensures d[..k][i..j] == d[i..j]
  {
  }

  lemma FrontHead(r: Ring, entries: seq<Entry>, crc: Checksum)
    requires Laid(r, entries, crc) && entries != []
    ensures r.Shaped() && r.heads[r.readCur] == entries[0].HeadAt(0)
  {
    LaidHead(r, entries, crc, 0, 0);
    HeadsEach(entries[0], entries[0].Nodes());
  }

  lemma FrontData(data: seq<Cell>, at: nat, k: nat, msg: seq<byte>, crc: Checksum)
    requires at + BLOCK_HEAD_SIZE < |data| && k <= |data| && Holds(Rotated(data, at)[..k], msg, crc)
    ensures BLOCK_HEAD_SIZE + |msg| <= |data|
    ensures data[at] == Size(|msg|) && data[at + CHECK_OFFSET] == Check(crc(msg))
    ensures RingRead(data, at + BLOCK_HEAD_SIZE, |msg|) == Bytes(msg)
  {
    var d := Rotated(data, at);
    RotatedAt(data, at, 0);
    RotatedAt(data, at, CHECK_OFFSET);
    RingReadRotated(data, at, BLOCK_HEAD_SIZE, |msg|);
    FrontCells(d, k, BLOCK_HEAD_SIZE, BLOCK_HEAD_SIZE + |msg|);
  }

  /** The payload of the oldest block can be read at the read cursor once it is in place. */
  lemma FrontPayload(r: Ring, entries: seq<Entry>, crc: Checksum)
    requires Laid(r, entries, crc) && entries != [] && entries[0].Full()
    ensures var at, msg := NODE_SIZE * r.readCur, entries[0].msg;
            && r.Shaped() && BLOCK_HEAD_SIZE + |msg| <= |r.data| && at + BLOCK_HEAD_SIZE < |r.data|
            && r.data[at] == Size(|msg|) && r.data[at + CHECK_OFFSET] == Check(crc(msg))
            && RingRead(r.data, at + BLOCK_HEAD_SIZE, |msg|) == Bytes(msg)
  {
    var at, k := NODE_SIZE * r.readCur, NODE_SIZE * entries[0].Nodes();
    StoredAt(Rotated(r.data, at), entries, 0, crc);
    FrontData(r.data, at, k, entries[0].msg, crc);
  }

  /** What the reader finds at the read cursor is the oldest block, if it is published. */
  lemma FrontBlock(r: Ring, entries: seq<Entry>, crc: Checksum)
    requires Laid(r, entries, crc) && entries != [] && entries[0].phase.Published?
    ensures r.Shaped() && r.heads[r.readCur] == NodeHead(true, true, SeqOf(entries[0].ticket))
    ensures var at, msg := NODE_SIZE * r.readCur, entries[0].msg;
            && BLOCK_HEAD_SIZE + |msg| <= |r.data| && at + BLOCK_HEAD_SIZE < |r.data|
            && r.data[at] == Size(|msg|) && r.data[at + CHECK_OFFSET] == Check(crc(msg))
            && RingRead(r.data, at + BLOCK_HEAD_SIZE, |msg|) == Bytes(msg)
  {
    FrontHead(r, entries, crc);
    FrontPayload(r, entries, crc);
  }

  /** How many nodes from the front carry the number `s`, of the first `limit`. */
  function RunLength(h: seq<NodeHead>, limit: nat, s: nat): (k: nat)
    requires limit <= |h|
    ensures k <= limit
    decreases limit
  {
    if limit == 0 || h[0].opSeq != s then 0 else 1 + RunLength(h[1..], limit - 1, s)
  }

  lemma {:induction false} RunLengthIs(h: seq<NodeHead>, limit: nat, s: nat, k: nat)
    requires k <= limit <= |h| && (forall j :: 0 <= j < k ==> h[j].opSeq == s) && (k < limit ==> h[k].opSeq != s)
    ensures RunLength(h, limit, s) == k
    decreases limit
  {
    if k > 0 {
      RunLengthIs(h[1..], limit - 1, s, k - 1);
    }
  }

  lemma {:induction false} RunLengthAtLeast(h: seq<NodeHead>, limit: nat, s: nat, k: nat)
    requires k <= limit <= |h| && forall j :: 0 <= j < k ==> h[j].opSeq == s
    ensures RunLength(h, limit, s) >= k
    decreases limit
  {
    if k > 0 {
      RunLengthAtLeast(h[1..], limit - 1, s, k - 1);
    }
  }

  /** The numbers of the two oldest blocks differ. */
  predicate NextDiffers(entries: seq<Entry>) {
    |entries| > 1 ==> SeqOf(entries[1].ticket) != SeqOf(entries[0].ticket)
  }

  /** The number on every node of the oldest block. */
  lemma OldestNumber(r: Ring, entries: seq<Entry>, crc: Checksum, j: nat)
    requires Laid(r, entries, crc) && entries != [] && entries[0].phase.Published? && j < entries[0].Nodes()
    ensures j < |r.heads| && Rotated(r.heads, r.readCur)[j].opSeq == SeqOf(entries[0].ticket)
  {
    LaidHead(r, entries, crc, 0, j);
    HeadsEach(entries[0], entries[0].Nodes());
    RotatedAt(r.heads, r.readCur, j);
  }

  lemma SecondOffset(entries: seq<Entry>)
    requires |entries| > 1
    ensures Offset(entries, 1) == entries[0].Nodes() < Used(entries)
  {
    assert Offset(entries, 1) == entries[0].Nodes() + Offset(entries[1..], 0);
    OffsetWithin(entries, 1);
  }

  /** The number on the node behind it, if there is another block. */
  lemma NextNumber(r: Ring, entries: seq<Entry>, crc: Checksum)
    requires Laid(r, entries, crc) && |entries| > 1 && !entries[1].phase.Drained?
    ensures entries[0].Nodes() < Used(entries) < |r.heads|
    ensures Rotated(r.heads, r.readCur)[entries[0].Nodes()].opSeq == SeqOf(entries[1].ticket)
  {
    SecondOffset(entries);
    LaidHead(r, entries, crc, 1, 0);
    assert entries[1] in entries;
    FirstHead(entries[1]);
    RotatedAt(r.heads, r.readCur, entries[0].Nodes());
  }

  /** The run of nodes with the oldest block's number is that block exactly when no other block comes
      before the cursor `limit`, or the next one bears another number. */
  lemma RunIsBlock(r: Ring, entries: seq<Entry>, crc: Checksum, limit: nat)
    requires Laid(r, entries, crc) && entries != [] && entries[0].phase.Published?
    requires |entries| > 1 ==> !entries[1].phase.Drained?
    requires entries[0].Nodes() <= limit <= Used(entries)
    ensures RunLength(Rotated(r.heads, r.readCur), limit, SeqOf(entries[0].ticket)) == entries[0].Nodes()
            <==> limit == entries[0].Nodes() || NextDiffers(entries)
  {
    var h, k, s := Rotated(r.heads, r.readCur), entries[0].Nodes(), SeqOf(entries[0].ticket);
    forall j | 0 <= j < k ensures h[j].opSeq == s {
      OldestNumber(r, entries, crc, j);
    }
    assert Used(entries) == k + Used(entries[1..]);
    if |entries| > 1 {
      NextNumber(r, entries, crc);
    } else {
      assert entries[1..] == [];
    }
    if limit == k || NextDiffers(entries) {
      RunLengthIs(h, limit, s, k);
    } else {
      RunLengthAtLeast(h, limit, s, k + 1);
    }
  }

  /** The reader clears the heads of the oldest block. */
  function Reset(r: Ring, k: nat): Ring
    requires r.Shaped() && k <= |r.heads|
  {
    r.(heads := RingWrite(r.heads, r.readCur, Clear(k)))
  }

  lemma DrainedBlock(r: Ring, entries: seq<Entry>, crc: Checksum) returns (r': Ring, entries': seq<Entry>)
    requires Laid(r, entries, crc) && entries != [] && entries[0].phase.Published?
    ensures entries[0].Nodes() <= |r.heads| && r' == Reset(r, entries[0].Nodes())
    ensures entries' == entries[0 := entries[0].(phase := Drained)] && Laid(r', entries', crc)
  {
    var e, k := entries[0].(phase := Drained), entries[0].Nodes();
    r', entries' := Reset(r, k), entries[0 := e];
    DrainedFlat(entries, e);
    RingWriteRotated(r.heads, r.readCur, 0, Clear(k));
    ReplaceFront(entries[0].Heads(), Clear(k), Flat(entries[1..]), Clear(|r.heads| - Used(entries)));
    SameStored(Rotated(r.data, NODE_SIZE * r.readCur), entries, 0, e, crc);
  }

  lemma ReplaceFront<T>(a: seq<T>, b: seq<T>, s: seq<T>, t: seq<T>)
    requires |a| == |b|
    ensures Overwrite(a + s + t, 0, b) == b + s + t
  {
  }

  lemma DrainedFlat(entries: seq<Entry>, e: Entry)
    requires EntriesOk(entries) && entries != [] && e == entries[0].(phase := Drained)
    ensures EntriesOk(entries[0 := e]) && Used(entries[0 := e]) == Used(entries)
    ensures Flat(entries) == entries[0].Heads() + Flat(entries[1..])
    ensures Flat(entries[0 := e]) == Clear(e.Nodes()) + Flat(entries[1..])
  {
    assert entries[0] in entries;
    var d := DrainHeads(entries[0]);
    FlatCons(d, entries[1..]);
    assert entries[0 := e] == [d] + entries[1..];
  }

  /** The reader moves its cursor over the block it has cleared. */
  lemma ReleasedBlock(r: Ring, entries: seq<Entry>, crc: Checksum) returns (r': Ring, entries': seq<Entry>)
    requires Laid(r, entries, crc) && entries != [] && entries[0].phase.Drained?
    ensures entries[0].Nodes() <= |r.heads| && r' == r.(readCur := Ahead(r.readCur, entries[0].Nodes(), |r.heads|))
    ensures entries' == entries[1..] && Laid(r', entries', crc)
  {
    var n, k := |r.heads|, entries[0].Nodes();
    r', entries' := r.(readCur := Ahead(r.readCur, k, n)), entries[1..];
    AheadAhead(r.readCur, k, Used(entries'), n);
    ReleasedHeads(r, entries, crc);
    ReleasedData(r, entries, crc);
  }

  lemma ReleasedData(r: Ring, entries: seq<Entry>, crc: Checksum)
    requires Laid(r, entries, crc) && entries != []
    ensures Stored(Rotated(r.data, NODE_SIZE * Ahead(r.readCur, entries[0].Nodes(), |r.heads|)), entries[1..], crc)
  {
    var d, at, k := Rotated(r.data, NODE_SIZE * r.readCur), NODE_SIZE * r.readCur, entries[0].Nodes();
    CellAhead(r.readCur, k, |r.heads|, 0);
    RotatedTwice(r.data, at, NODE_SIZE * k);
    StoredFrame(d[NODE_SIZE * k..], d[NODE_SIZE * k..] + d[..NODE_SIZE * k], entries[1..], crc);
  }

  lemma ReleasedHeads(r: Ring, entries: seq<Entry>, crc: Checksum)
    requires Laid(r, entries, crc) && entries != [] && entries[0].phase.Drained?
    ensures EntriesOk(entries[1..])
    ensures Rotated(r.heads, Ahead(r.readCur, entries[0].Nodes(), |r.heads|)) ==
            Flat(entries[1..]) + Clear(|r.heads| - Used(entries[1..]))
  {
    var n, u, k := |r.heads|, Used(entries), entries[0].Nodes();
    RotatedTwice(r.heads, r.readCur, k);
    assert entries[0] in entries && entries[0] == entries[0].(phase := Drained);
    var e := DrainHeads(entries[0]);
    FrontBehind(Clear(k), Flat(entries[1..]), Clear(n - u));
    assert Clear(n - u) + Clear(k) == Clear(n - u + k);
  }

  lemma FrontBehind<T>(a: seq<T>, s: seq<T>, t: seq<T>)
    ensures (a + s + t)[|a|..] + (a + s + t)[..|a|] == s + (t + a)
  {
  }
}
