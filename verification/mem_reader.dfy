/** The reader of the shared-memory channel, run alone: the oldest message, or recovery. */
module MemReaders {
  import opened Base
  import opened Rings
  import opened MemBlocks
  import opened MemSteps
  import Crc64

  function FastCheck(s: seq<byte>): bv64 { Crc64.Remainder(0, s) }

  /** Every block is complete, and each ticket is later than those before it. */
  ghost predicate Settled(entries: seq<Entry>, fetched: nat)
    decreases entries
  {
    entries != [] ==>
      var n := |entries| - 1;
      var e := entries[n];
      e.phase.Published? && e.msg != [] && 0 < e.ticket <= fetched && Settled(entries[..n], e.ticket - 1)
  }

  lemma {:induction false} SettledEach(entries: seq<Entry>, fetched: nat, i: nat)
    requires Settled(entries, fetched) && i < |entries|
    ensures entries[i].phase.Published? && entries[i].msg != [] && 0 < entries[i].ticket <= fetched
    ensures i + 1 < |entries| ==> entries[i].ticket < entries[i + 1].ticket
    decreases entries
  {
    var n := |entries| - 1;
    if i < n {
      SettledEach(entries[..n], entries[n].ticket - 1, i);
    }
  }

  lemma {:induction false} SettledTail(entries: seq<Entry>, fetched: nat)
    requires Settled(entries, fetched) && entries != []
    ensures Settled(entries[1..], fetched)
    decreases entries
  {
    var n := |entries| - 1;
    if n > 0 {
      SettledTail(entries[..n], entries[n].ticket - 1);
      assert entries[1..][..n - 1] == entries[..n][1..];
    }
  }

  lemma SettledLater(entries: seq<Entry>, fetched: nat, later: nat)
    requires Settled(entries, fetched) && fetched <= later
    ensures Settled(entries, later)
  {
  }

  /** The state between operations: `entries` are the complete blocks, `fetched` counts the numbers
      fetched; the protected nodes and one more are always free. */
  ghost predicate Quiet(ring: Ring, opSeq: nat, protectNodes: nat, entries: seq<Entry>, fetched: nat) {
    && Laid(ring, entries, FastCheck) && Settled(entries, fetched) && opSeq == SeqOf(fetched)
    && Used(entries) + protectNodes < |ring.heads|
  }

  /** Fewer fetches than one period since the oldest block was begun leave its neighbour another number. */
  lemma RecentDiffers(entries: seq<Entry>, fetched: nat)
    requires Settled(entries, fetched) && (entries != [] ==> fetched < entries[0].ticket + SEQ_PERIOD)
    ensures NextDiffers(entries)
  {
    if |entries| > 1 {
      SettledEach(entries, fetched, 0);
      SettledEach(entries, fetched, 1);
      SeqsDiffer(entries[0].ticket, entries[1].ticket);
    }
  }

  /** The reader's count of nodes agrees with the size of the oldest block exactly when the next block bears
      another number. */
  lemma ReadableIff(ring: Ring, protectNodes: nat, entries: seq<Entry>, fetched: nat, opSeq: nat)
    requires Quiet(ring, opSeq, protectNodes, entries, fetched) && entries != []
    ensures entries[0].phase.Published? && entries[0].msg != [] && entries[0].Nodes() <= Used(entries) < |ring.heads|
    ensures RunLength(Rotated(ring.heads, ring.readCur), Used(entries), SeqOf(entries[0].ticket)) == entries[0].Nodes()
            <==> NextDiffers(entries)
  {
    SettledEach(entries, fetched, 0);
    assert Used(entries) == entries[0].Nodes() + Used(entries[1..]);
    if |entries| > 1 {
      SettledEach(entries, fetched, 1);
    }
    RunIsBlock(ring, entries, FastCheck, Used(entries));
  }

  /** The index of the node `k` places on. */
  method NextIndex(i: nat, k: nat, n: nat) returns (j: nat)
    requires i < n && k <= n
    ensures j == Ahead(i, k, n)
  {
    AheadByRemainder(i, k, n);
    j := (i + k) % n;
  }

  /** Places less than a round apart are the same only at the same distance. */
  lemma SamePlace(at: nat, a: nat, b: nat, n: nat)
    requires at < n && a < n && b < n
    ensures Ahead(at, a, n) == Ahead(at, b, n) <==> a == b
  {
  }

  /** How many nodes lie between two cursors. */
  method NodesBetween(begin: nat, end: nat, n: nat, ghost k: nat) returns (nodes: nat)
    requires begin < n && k < n && end == Ahead(begin, k, n)
    ensures nodes == k
  {
    DistanceByRemainder(begin, k, n);
    nodes := (end + n - begin) % n;
  }

  lemma ClearMore(s: seq<NodeHead>, at: nat, c: nat)
    requires at < |s| && c < |s|
    ensures RingWrite(s, at, Clear(c))[Ahead(at, c, |s|)] == s[Ahead(at, c, |s|)]
    ensures RingWrite(s, at, Clear(c + 1)) == RingWrite(s, at, Clear(c))[Ahead(at, c, |s|) := CLEAR]
  {
    var n, a, b := |s|, RingWrite(s, at, Clear(c)), RingWrite(s, at, Clear(c + 1));
    RingWriteAt(s, at, Clear(c), c);
    forall i | 0 <= i < n ensures b[i] == a[Ahead(at, c, n) := CLEAR][i] {
      var d := if i >= at then i - at else i + n - at;
      assert i == Ahead(at, d, n);
      RingWriteAt(s, at, Clear(c), d);
      RingWriteAt(s, at, Clear(c + 1), d);
    }
  }

  /** The first `c` of the nodes with the number `s` are cleared. */
  ghost predicate Cleared(heads: seq<NodeHead>, begin: nat, limit: nat, s: nat, c: nat, heads': seq<NodeHead>)
    requires begin < |heads| && limit < |heads|
  {
    && c <= limit && heads' == RingWrite(heads, begin, Clear(c))
    && RunLength(Rotated(heads, begin), limit, s) == c + RunLength(Rotated(heads, begin)[c..], limit - c, s)
  }

  lemma ClearedStep(heads: seq<NodeHead>, begin: nat, limit: nat, s: nat, c: nat, heads': seq<NodeHead>)
      returns (more: seq<NodeHead>)
    requires begin < |heads| && limit < |heads| && Cleared(heads, begin, limit, s, c, heads')
    ensures c == limit ==> RunLength(Rotated(heads, begin), limit, s) == c
    ensures var end := Ahead(begin, c, |heads|);
            && more == heads'[end := CLEAR]
            && (c < limit && heads'[end].opSeq != s ==> RunLength(Rotated(heads, begin), limit, s) == c)
            && (c < limit && heads'[end].opSeq == s ==> Cleared(heads, begin, limit, s, c + 1, more))
  {
    var h := Rotated(heads, begin);
    ClearMore(heads, begin, c);
    RotatedAt(heads, begin, c);
    more := heads'[Ahead(begin, c, |heads|) := CLEAR];
    if c < limit {
      assert h[c..][1..] == h[c + 1..] && h[c..][0] == h[c];
    }
  }

  /** Clears the nodes that carry the number `opSeq`, from `begin` on and short of `stop`. */
  method ResetNodes(heads: seq<NodeHead>, begin: nat, stop: nat, opSeq: nat, ghost limit: nat)
      returns (heads': seq<NodeHead>, end: nat)
    requires begin < |heads| && limit < |heads| && stop == Ahead(begin, limit, |heads|)
    ensures var k := RunLength(Rotated(heads, begin), limit, opSeq);
            end == Ahead(begin, k, |heads|) && heads' == RingWrite(heads, begin, Clear(k))
  {
    ghost var c := 0;
    heads', end := heads, begin;
    assert Rotated(heads, begin)[0..] == Rotated(heads, begin) && RingWrite(heads, begin, Clear(0)) == heads;
    while end != stop
      invariant c <= limit && end == Ahead(begin, c, |heads|) && Cleared(heads, begin, limit, opSeq, c, heads')
      decreases limit - c
    {
      ghost var more := ClearedStep(heads, begin, limit, opSeq, c, heads');
      if heads'[end].opSeq != opSeq {
        break;
      }
      heads' := heads'[end := CLEAR];
      assert heads' == more;
      end := NextIndex(end, 1, |heads|);
      c := c + 1;
    }
    if c == limit {
      ghost var more := ClearedStep(heads, begin, limit, opSeq, c, heads');
    }
  }

  function SizeOf(c: Cell): nat { if c.Size? then c.n else 0 }

  /** The block at `at` carries a payload and its check value. */
  ghost predicate Contains(data: seq<Cell>, at: nat, msg: seq<byte>) {
    && at + BLOCK_HEAD_SIZE < |data| && |msg| <= |data|
    && RingRead(data, at + BLOCK_HEAD_SIZE, |msg|) == Bytes(msg) && data[at + CHECK_OFFSET] == Check(FastCheck(msg))
  }

  /** Copies a payload out, in one piece or in two. */
  method CopyOut(data: seq<Cell>, at: nat, size: nat, ghost msg: seq<byte>) returns (out: seq<byte>)
    requires at < |data| && size <= |data| && RingRead(data, at, size) == Bytes(msg)
    ensures out == msg
  {
    var bufferLen := |data| - at;
    if size <= bufferLen {
      out := ToBytes(data[at..at + size]);
    } else {
      out := ToBytes(data[at..]) + ToBytes(data[..size - bufferLen]);
      assert out == ToBytes(RingRead(data, at, size));
    }
  }

  /** Copies a payload out; its check value agrees with the stored one. */
  method CopyChecked(data: seq<Cell>, at: nat, size: nat, ghost msg: seq<byte>) returns (out: seq<byte>)
    requires Contains(data, at, msg) && size == |msg|
    ensures out == msg
  {
    out := CopyOut(data, at + BLOCK_HEAD_SIZE, size, msg);
    var check := Crc64.Crc64(0, out);
    assert data[at + CHECK_OFFSET] == Check(check);
  }

  /** The blocks after the oldest has been received. */
  lemma OldestGone(ring: Ring, protectNodes: nat, entries: seq<Entry>, fetched: nat, opSeq: nat) returns (r': Ring)
    requires Quiet(ring, opSeq, protectNodes, entries, fetched) && entries != [] && entries[0].phase.Published?
    requires entries[0].Nodes() <= |ring.heads|
    ensures r' == Reset(ring, entries[0].Nodes()).(readCur := Ahead(ring.readCur, entries[0].Nodes(), |ring.heads|))
    ensures Quiet(r', opSeq, protectNodes, entries[1..], fetched)
  {
    var drained, es := DrainedBlock(ring, entries, FastCheck);
    r', es := ReleasedBlock(drained, es, FastCheck);
    assert es == entries[1..];
    SettledTail(entries, fetched);
  }

  /** How many blocks at the front bear the number `s`. */
  function SameRun(es: seq<Entry>, s: nat): (g: nat)
    ensures g <= |es|
    decreases es
  {
    if es == [] || SeqOf(es[0].ticket) != s then 0 else 1 + SameRun(es[1..], s)
  }

  /** How many blocks at the front bear the number of the oldest. */
  function Alike(es: seq<Entry>): (g: nat)
    requires es != []
    ensures 1 <= g <= |es|
  {
    SameRun(es, SeqOf(es[0].ticket))
  }

  lemma AlikeIff(es: seq<Entry>)
    requires es != []
    ensures Alike(es) == 1 <==> NextDiffers(es)
  {
    assert |es| > 1 ==> es[1..][0] == es[1];
    assert Alike(es) == 1 + SameRun(es[1..], SeqOf(es[0].ticket));
  }

  /** What a receive tells and leaves: its code, the blocks still there and the size reported. */
  datatype Got = Got(status: Status, left: seq<Entry>, size: Option<nat>)

  /** Recovery from blocks taken for one: they are gone, and so is the next one, unless it is too long for the
      caller's buffer, or is itself taken for one with others. */
  function Recovery(es: seq<Entry>, len: nat): Got
    decreases |es|
  {
    if es == [] then Got(BadNodeNum, [], None)
    else if |es[0].msg| > len then Got(BadNodeNum, es, Some(|es[0].msg|))
    else if Alike(es) == 1 then Got(BadNodeNum, es[1..], None)
    else Recovery(es[Alike(es)..], len)
  }

  /** The oldest block, if it fits the caller's buffer and the next bears another number. */
  function Received(es: seq<Entry>, len: nat): Got {
    if es == [] then Got(NoData, [], None)
    else if |es[0].msg| > len then Got(BuffLimit, es, Some(|es[0].msg|))
    else if Alike(es) == 1 then Got(Success, es[1..], Some(|es[0].msg|))
    else Recovery(es[Alike(es)..], len)
  }

  /** A message is received exactly when there is one that fits and the next block bears another number. */
  lemma ReceivedIff(es: seq<Entry>, len: nat)
    ensures Received(es, len).status == Success <==> es != [] && |es[0].msg| <= len && NextDiffers(es)
    ensures NextDiffers(es) ==>
              Received(es, len) == if es == [] then Got(NoData, [], None)
                                   else if |es[0].msg| > len then Got(BuffLimit, es, Some(|es[0].msg|))
                                   else Got(Success, es[1..], Some(|es[0].msg|))
  {
    if es != [] {
      AlikeIff(es);
      RecoveryLoses(es[Alike(es)..], len);
    }
  }

  lemma {:induction false} RecoveryLoses(es: seq<Entry>, len: nat)
    ensures Recovery(es, len).status == BadNodeNum
    ensures var left := Recovery(es, len).left; |left| <= |es| && left == es[|es| - |left|..]
    decreases |es|
  {
    if es != [] && |es[0].msg| <= len && Alike(es) != 1 {
      var rest := es[Alike(es)..];
      RecoveryLoses(rest, len);
    }
  }

  /** Blocks taken for one are lost, two at least, and only the oldest are. */
  lemma MergedAreLost(es: seq<Entry>, len: nat)
    requires es != [] && |es[0].msg| <= len && !NextDiffers(es)
    ensures Received(es, len).status == BadNodeNum
    ensures var left := Received(es, len).left; |left| <= |es| - 2 && left == es[|es| - |left|..]
  {
    AlikeIff(es);
    RecoveryLoses(es[Alike(es)..], len);
  }

  lemma {:induction false} RunLengthSkip(h: seq<NodeHead>, limit: nat, s: nat, k: nat)
    requires k <= limit <= |h| && forall j :: 0 <= j < k ==> h[j].opSeq == s
    ensures RunLength(h, limit, s) == k + RunLength(h[k..], limit - k, s)
    decreases k
  {
    if k > 0 {
      RunLengthSkip(h[1..], limit - 1, s, k - 1);
      assert h[1..][k - 1..] == h[k..];
    } else {
      assert h[0..] == h;
    }
  }

  /** The run of nodes with one number covers the blocks with that number. */
  lemma {:induction false} RunOfSame(es: seq<Entry>, h: seq<NodeHead>, c: seq<NodeHead>, s: nat)
    requires EntriesOk(es) && (forall e :: e in es ==> e.phase.Published?) && h == Flat(es) + c
    ensures RunLength(h, Used(es), s) == Used(es[..SameRun(es, s)])
    decreases es
  {
    if es != [] {
      var e, k, g := es[0], es[0].Nodes(), SameRun(es, s);
      assert e in es;
      FirstHead(e);
      HeadsEach(e, k);
      assert h == e.Heads() + (Flat(es[1..]) + c);
      assert h[0] == e.First();
      if SeqOf(e.ticket) == s {
        RunLengthSkip(h, Used(es), s, k);
        assert h[k..] == Flat(es[1..]) + c;
        RunOfSame(es[1..], h[k..], c, s);
        assert es[..g][1..] == es[1..][..g - 1];
      }
    }
  }

  lemma ClearTwice(s: seq<NodeHead>, at: nat, k: nat, m: nat, sum: nat)
    requires at < |s| && sum == k + m < |s|
    ensures RingWrite(RingWrite(s, at, Clear(k)), Ahead(at, k, |s|), Clear(m)) == RingWrite(s, at, Clear(sum))
    ensures Ahead(Ahead(at, k, |s|), m, |s|) == Ahead(at, sum, |s|)
  {
    var n, b := |s|, Ahead(at, k, |s|);
    var t := RingWrite(s, at, Clear(k));
    var a, c := RingWrite(t, b, Clear(m)), RingWrite(s, at, Clear(sum));
    forall i | 0 <= i < n ensures a[i] == c[i] {
      var d := if i >= at then i - at else i + n - at;
      var f := if i >= b then i - b else i + n - b;
      assert i == Ahead(at, d, n) && i == Ahead(b, f, n);
      RingWriteAt(s, at, Clear(k), d);
      RingWriteAt(t, b, Clear(m), f);
      RingWriteAt(s, at, Clear(sum), d);
    }
  }

  /** The ring `r` is `ring` without its first `k` nodes. */
  ghost predicate GoneBy(ring: Ring, r: Ring, k: nat) {
    ring.Shaped() && k < |ring.heads| && r == Reset(ring, k).(readCur := Ahead(ring.readCur, k, |ring.heads|))
  }

  lemma GoneTwice(ring: Ring, r1: Ring, r2: Ring, k: nat, m: nat, sum: nat)
    requires GoneBy(ring, r1, k) && GoneBy(r1, r2, m) && sum == k + m < |ring.heads|
    ensures GoneBy(ring, r2, sum)
  {
    ClearTwice(ring.heads, ring.readCur, k, m, sum);
  }

  lemma NoneGone(ring: Ring)
    requires ring.Shaped()
    ensures GoneBy(ring, ring, 0)
  {
    assert RingWrite(ring.heads, ring.readCur, Clear(0)) == ring.heads;
  }

  /** The ring without its oldest block. */
  lemma FirstGone(ring: Ring, protectNodes: nat, es: seq<Entry>, fetched: nat, opSeq: nat) returns (r1: Ring)
    requires Quiet(ring, opSeq, protectNodes, es, fetched) && es != []
    ensures GoneBy(ring, r1, es[0].Nodes()) && Quiet(r1, opSeq, protectNodes, es[1..], fetched)
    ensures |r1.heads| == |ring.heads| && Used(es) == es[0].Nodes() + Used(es[1..]) < |ring.heads|
  {
    SettledEach(es, fetched, 0);
    assert Used(es) == es[0].Nodes() + Used(es[1..]);
    r1 := OldestGone(ring, protectNodes, es, fetched, opSeq);
  }

  lemma TailOf<T>(s: seq<T>, t: seq<T>)
    requires s != []
    ensures (s + t)[0] == s[0] && (s + t)[1..] == s[1..] + t
  {
  }

  /** The ring without its oldest blocks `front`. */
  lemma {:induction false} BlocksGone(ring: Ring, protectNodes: nat, front: seq<Entry>, rest: seq<Entry>, fetched: nat,
                                      opSeq: nat) returns (r': Ring)
    requires Quiet(ring, opSeq, protectNodes, front + rest, fetched)
    ensures GoneBy(ring, r', Used(front)) && Quiet(r', opSeq, protectNodes, rest, fetched)
    ensures Used(front) + Used(rest) == Used(front + rest)
    decreases front
  {
    if front == [] {
      r' := ring;
      NoneGone(ring);
      assert front + rest == rest;
    } else {
      TailOf(front, rest);
      var r1 := FirstGone(ring, protectNodes, front + rest, fetched, opSeq);
      r' := BlocksGone(r1, protectNodes, front[1..], rest, fetched, opSeq);
      GoneTwice(ring, r1, r', front[0].Nodes(), Used(front[1..]), Used(front));
    }
  }

  /** The nodes just behind the oldest block are clear, as many as no block takes. */
  lemma BehindClear(r: Ring, es: seq<Entry>, crc: Checksum, from: nat, k: nat, j: nat)
    requires Laid(r, es, crc) && from < |r.heads| && k + Used(es) <= |r.heads| && j < k
    requires r.readCur == Ahead(from, k, |r.heads|)
    ensures r.heads[Ahead(from, j, |r.heads|)] == CLEAR
  {
    var n := |r.heads|;
    assert Ahead(from, j, n) == Ahead(r.readCur, n - k + j, n);
    RotatedAt(r.heads, r.readCur, n - k + j);
  }

  /** Where the reader stands: the blocks it has not come to, behind `skip` nodes that it has cleared already, and
      how many nodes it has passed. */
  datatype View = View(es: seq<Entry>, skip: nat, passed: nat)

  ghost predicate Scanning(ring: Ring, opSeq: nat, protectNodes: nat, fetched: nat, heads: seq<NodeHead>, begin: nat,
                           v: View) {
    && |heads| == |ring.heads| && ring.readCur < |heads| && begin < |heads|
    && v.passed + v.skip + Used(v.es) < |heads| && begin == Ahead(ring.readCur, v.passed, |heads|)
    && Quiet(Ring(heads, ring.data, Ahead(begin, v.skip, |heads|), ring.writeCur), opSeq, protectNodes, v.es, fetched)
  }

  /** Before the first fault nothing has been passed; after it, recovery goes on with what is left. */
  ghost predicate Owed(ret: Status, entries: seq<Entry>, v: View, len: nat) {
    if ret == Success then v == View(entries, 0, 0)
    else ret == BadNodeNum && Received(entries, len) == Recovery(v.es, len)
  }

  /** What comes of that at the end of the ring, at a block too long, at a single one, and at one taken for one
      with others. */
  lemma OwedNext(ret: Status, entries: seq<Entry>, v: View, len: nat)
    requires Owed(ret, entries, v, len)
    ensures v.es == [] ==> Received(entries, len) == Got(if ret == Success then NoData else ret, [], None)
    ensures v.es != [] && |v.es[0].msg| > len ==>
              Received(entries, len) == Got(if ret == Success then BuffLimit else ret, v.es, Some(|v.es[0].msg|))
    ensures v.es != [] && |v.es[0].msg| <= len && Alike(v.es) == 1 ==>
              Received(entries, len) == Got(ret, v.es[1..], if ret == Success then Some(|v.es[0].msg|) else None)
    ensures v.es != [] && |v.es[0].msg| <= len && Alike(v.es) != 1 ==>
              Received(entries, len) == Recovery(v.es[Alike(v.es)..], len)
  {
  }

  /** The front block of a ring between operations. */
  lemma FrontSeen(r: Ring, opSeq: nat, protectNodes: nat, es: seq<Entry>, fetched: nat)
    requires Quiet(r, opSeq, protectNodes, es, fetched) && es != []
    ensures var at, e := NODE_SIZE * r.readCur, es[0];
            && r.readCur < |r.heads| && r.heads[r.readCur] == NodeHead(true, true, SeqOf(e.ticket))
            && Contains(r.data, at, e.msg)
            && SizeOf(r.data[at]) == |e.msg| && 0 < |e.msg| < |r.data| - NODE_SIZE * protectNodes
  {
    SettledEach(es, fetched, 0);
    assert Used(es) == es[0].Nodes() + Used(es[1..]);
    FrontBlock(r, es, FastCheck);
  }

  /** What the reader sees at its cursor. */
  lemma SeenAt(ring: Ring, opSeq: nat, protectNodes: nat, fetched: nat, heads: seq<NodeHead>, begin: nat, v: View)
    requires Scanning(ring, opSeq, protectNodes, fetched, heads, begin, v)
    ensures begin == ring.writeCur <==> v.skip == 0 && v.es == []
    ensures v.skip > 0 ==> heads[begin] == CLEAR
    ensures v.skip == 0 && v.es != [] ==>
              var at, e := NODE_SIZE * begin, v.es[0];
              && heads[begin] == NodeHead(true, true, SeqOf(e.ticket)) && Contains(ring.data, at, e.msg)
              && SizeOf(ring.data[at]) == |e.msg| && 0 < |e.msg| < |ring.data| - NODE_SIZE * protectNodes
  {
    EndSeen(ring, opSeq, protectNodes, fetched, heads, begin, v);
    if v.skip == 0 && v.es != [] {
      FrontSeen(Ring(heads, ring.data, begin, ring.writeCur), opSeq, protectNodes, v.es, fetched);
    }
  }

  lemma EndSeen(ring: Ring, opSeq: nat, protectNodes: nat, fetched: nat, heads: seq<NodeHead>, begin: nat, v: View)
    requires Scanning(ring, opSeq, protectNodes, fetched, heads, begin, v)
    ensures begin == ring.writeCur <==> v.skip == 0 && v.es == []
    ensures v.skip > 0 ==> heads[begin] == CLEAR
  {
    var n := |heads|;
    AheadAhead(begin, v.skip, Used(v.es), n);
    SamePlace(begin, 0, v.skip + Used(v.es), n);
    if v.skip > 0 {
      BehindClear(Ring(heads, ring.data, Ahead(begin, v.skip, n), ring.writeCur), v.es, FastCheck, begin, v.skip, 0);
    }
    assert v.es != [] ==> Used(v.es) >= v.es[0].Nodes();
  }

  /** Passes a node. */
  method StepOver(ring: Ring, ghost opSeq: nat, ghost protectNodes: nat, ghost fetched: nat, heads: seq<NodeHead>,
                  begin: nat, ghost v: View) returns (begin': nat, ghost v': View)
    requires Scanning(ring, opSeq, protectNodes, fetched, heads, begin, v) && v.skip > 0
    ensures v' == View(v.es, v.skip - 1, v.passed + 1)
    ensures Scanning(ring, opSeq, protectNodes, fetched, heads, begin', v')
  {
    begin' := NextIndex(begin, 1, |heads|);
    v' := View(v.es, v.skip - 1, v.passed + 1);
    AheadAhead(begin, 1, v.skip - 1, |heads|);
    AheadAhead(ring.readCur, v.passed, 1, |heads|);
  }

  lemma UsedAlike(es: seq<Entry>, g: nat)
    requires 1 <= g <= |es|
    ensures Used(es[..g]) >= es[0].Nodes() && (Used(es[..g]) == es[0].Nodes() <==> g == 1)
  {
    assert Used(es[..g]) == es[0].Nodes() + Used(es[..g][1..]);
    if g > 1 {
      assert Used(es[..g][1..]) >= es[..g][1..][0].Nodes();
    }
  }

  /** Clears the nodes with the number at the cursor; they are those of all blocks at the front that bear it. */
  method ClearFront(ring: Ring, ghost opSeq: nat, ghost protectNodes: nat, ghost fetched: nat, heads: seq<NodeHead>,
                    begin: nat, ghost v: View) returns (heads': seq<NodeHead>, end: nat, nodes: nat, ghost v': View)
    requires Scanning(ring, opSeq, protectNodes, fetched, heads, begin, v) && v.skip == 0 && v.es != []
    ensures v' == View(v.es[Alike(v.es)..], nodes, v.passed) && 0 < nodes && nodes + Used(v'.es) == Used(v.es)
    ensures Scanning(ring, opSeq, protectNodes, fetched, heads', begin, v') && end == Ahead(begin, nodes, |heads'|)
    ensures nodes == v.es[0].Nodes() <==> Alike(v.es) == 1
  {
    ghost var es, g, n := v.es, Alike(v.es), |heads|;
    ghost var k := Used(es[..g]);
    SeenAt(ring, opSeq, protectNodes, fetched, heads, begin, v);
    ghost var r' := FrontCleared(ring, opSeq, protectNodes, fetched, heads, begin, es, k);
    UsedAlike(es, g);
    heads', end := ResetNodes(heads, begin, ring.writeCur, heads[begin].opSeq, Used(es));
    nodes := NodesBetween(begin, end, |heads|, k);
    v' := View(es[g..], nodes, v.passed);
    assert r' == Ring(heads', ring.data, end, ring.writeCur);
  }

  lemma FrontCleared(ring: Ring, opSeq: nat, protectNodes: nat, fetched: nat, heads: seq<NodeHead>, begin: nat,
                     es: seq<Entry>, k: nat) returns (r': Ring)
    requires begin < |heads| && Quiet(Ring(heads, ring.data, begin, ring.writeCur), opSeq, protectNodes, es, fetched)
    requires es != [] && k == Used(es[..Alike(es)])
    ensures Used(es) < |heads| && ring.writeCur == Ahead(begin, Used(es), |heads|)
    ensures RunLength(Rotated(heads, begin), Used(es), SeqOf(es[0].ticket)) == k < |heads|
    ensures r' == Ring(RingWrite(heads, begin, Clear(k)), ring.data, Ahead(begin, k, |heads|), ring.writeCur)
    ensures Quiet(r', opSeq, protectNodes, es[Alike(es)..], fetched) && k + Used(es[Alike(es)..]) == Used(es)
  {
    var r, g := Ring(heads, ring.data, begin, ring.writeCur), Alike(es);
    forall e | e in es ensures e.phase.Published? {
      var i :| 0 <= i < |es| && es[i] == e;
      SettledEach(es, fetched, i);
    }
    RunOfSame(es, Rotated(heads, begin), Clear(|heads| - Used(es)), SeqOf(es[0].ticket));
    assert es[..g] + es[g..] == es;
    r' := BlocksGone(r, protectNodes, es[..g], es[g..], fetched, opSeq);
  }

  /** Goes over the ring from the read cursor: to the oldest block, and after a fault on to where it ends. */
  method Scan(ring: Ring, ghost opSeq: nat, protectNodes: nat, ghost entries: seq<Entry>, ghost fetched: nat, len: nat)
      returns (ret: Status, heads: seq<NodeHead>, begin: nat, end: nat, size: Option<nat>, ghost v: View)
    requires Quiet(ring, opSeq, protectNodes, entries, fetched)
    ensures Scanning(ring, opSeq, protectNodes, fetched, heads, begin, v) && end == Ahead(begin, v.skip, |heads|)
    ensures ret == Received(entries, len).status && v.es == Received(entries, len).left
    ensures if ret == Success then begin == ring.readCur && entries != [] else size == Received(entries, len).size
  {
    ret, heads, begin, size, v := Success, ring.heads, ring.readCur, None, View(entries, 0, 0);
    while true
      invariant Scanning(ring, opSeq, protectNodes, fetched, heads, begin, v) && Owed(ret, entries, v, len)
      invariant size == None
      decreases v.skip + Used(v.es)
    {
      SeenAt(ring, opSeq, protectNodes, fetched, heads, begin, v);
      OwedNext(ret, entries, v, len);
      end := begin;
      if begin == ring.writeCur {
        ret := if ret == Success then NoData else ret;
        break;
      }
      if !heads[begin].start {
        begin, v := StepOver(ring, opSeq, protectNodes, fetched, heads, begin, v);
        continue;
      }
      assert heads[begin].written;
      var bytes := SizeOf(ring.data[NODE_SIZE * begin]);
      assert 0 < bytes < |ring.data| - NODE_SIZE * protectNodes;
      if bytes > len {
        ret, size := if ret == Success then BuffLimit else ret, Some(bytes);
        break;
      }
      var nodes;
      heads, end, nodes, v := ClearFront(ring, opSeq, protectNodes, fetched, heads, begin, v);
      if NodesFor(bytes) == nodes {
        break;
      }
      ret := if ret == Success then BadNodeNum else ret;
      begin, v := StepOver(ring, opSeq, protectNodes, fetched, heads, begin, v);
    }
  }

  /** Clears the nodes from `from` to `to`; they are clear already. */
  method ResetPassed(heads: seq<NodeHead>, from: nat, to: nat, ghost k: nat) returns (heads': seq<NodeHead>)
    requires from < |heads| && k < |heads| && to == Ahead(from, k, |heads|)
    requires forall j :: 0 <= j < k ==> heads[Ahead(from, j, |heads|)] == CLEAR
    ensures heads' == heads
  {
    heads' := heads;
    var i := from;
    ghost var c := 0;
    while i != to
      invariant c <= k && i == Ahead(from, c, |heads|) && heads' == heads
      decreases k - c
    {
      heads' := heads'[i := CLEAR];
      i := NextIndex(i, 1, |heads|);
      c := c + 1;
    }
  }

  /** What was passed is clear. */
  lemma PassedClear(ring: Ring, opSeq: nat, protectNodes: nat, fetched: nat, heads: seq<NodeHead>, begin: nat, v: View)
    requires Scanning(ring, opSeq, protectNodes, fetched, heads, begin, v)
    ensures forall j :: 0 <= j < v.passed ==> heads[Ahead(ring.readCur, j, |heads|)] == CLEAR
  {
    var n := |heads|;
    var r := Ring(heads, ring.data, Ahead(begin, v.skip, n), ring.writeCur);
    AheadAhead(ring.readCur, v.passed, v.skip, n);
    forall j | 0 <= j < v.passed ensures heads[Ahead(ring.readCur, j, n)] == CLEAR {
      BehindClear(r, v.es, FastCheck, ring.readCur, v.passed + v.skip, j);
    }
  }

  /** Receives the oldest message into a buffer of `len` bytes, or recovers. */
  method ReceiveFrom(ring: Ring, ghost opSeq: nat, protectNodes: nat, ghost entries: seq<Entry>, ghost fetched: nat,
                     len: nat)
      returns (status: Status, ring': Ring, out: seq<byte>, size: Option<nat>)
    requires Quiet(ring, opSeq, protectNodes, entries, fetched)
    ensures |ring'.heads| == |ring.heads|
    ensures Quiet(ring', opSeq, protectNodes, Received(entries, len).left, fetched)
    ensures status == Received(entries, len).status && size == Received(entries, len).size
    ensures status == Success ==> entries != [] && out == entries[0].msg
  {
    var heads, begin, end;
    ghost var v;
    status, heads, begin, end, size, v := Scan(ring, opSeq, protectNodes, entries, fetched, len);
    out := [];
    if status == Success {
      ReceivedIff(entries, len);
      SeenAt(ring, opSeq, protectNodes, fetched, ring.heads, begin, View(entries, 0, 0));
      var bytes := SizeOf(ring.data[NODE_SIZE * begin]);
      out := CopyChecked(ring.data, NODE_SIZE * begin, bytes, entries[0].msg);
      size := Some(bytes);
    }
    PassedClear(ring, opSeq, protectNodes, fetched, heads, begin, v);
    heads := ResetPassed(heads, ring.readCur, begin, v.passed);
    ring' := Ring(heads, ring.data, end, ring.writeCur);
  }
}
