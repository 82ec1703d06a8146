/** The content of the shared-memory ring: blocks of consecutive nodes, oldest first, then empty nodes. */
module MemBlocks {
  import opened Base

  const NODE_SIZE: nat := 128
  const NODE_HEAD_SIZE: nat := 8
  const BLOCK_HEAD_SIZE: nat := 16
  /** Where the check value lies in a block head, behind the size. */
  const CHECK_OFFSET: nat := 8
  const CHANNEL_HEAD_SIZE: nat := 4096

  /** How many nodes a message of `len` bytes takes with its block head. */
  function NodesFor(len: nat): (k: nat)
    ensures k >= 1 && NODE_SIZE * (k - 1) < len + BLOCK_HEAD_SIZE <= NODE_SIZE * k
  {
    (len + BLOCK_HEAD_SIZE + NODE_SIZE - 1) / NODE_SIZE
  }

  datatype NodeHead = NodeHead(start: bool, written: bool, opSeq: nat)

  const CLEAR := NodeHead(false, false, 0)

  /** A cell of the data area; a word of a block head stands in its first cell. */
  datatype Cell = Raw(b: byte) | Size(n: nat) | Check(c: bv64)

  type Checksum = seq<byte> -> bv64

  const SEQ_PERIOD: nat := 0xFFFF_FFFF

  /** The operation sequence number of the `count`-th fetch; zero is never given out. */
  function SeqOf(count: nat): (s: nat)
    ensures s <= SEQ_PERIOD && (s == 0 <==> count == 0)
  {
    if count == 0 then 0 else (count - 1) % SEQ_PERIOD + 1
  }

  /** The 32-bit step of the counter. */
  function NextSeq(s: nat): nat {
    if (s + 1) % 0x1_0000_0000 != 0 then (s + 1) % 0x1_0000_0000 else (s + 2) % 0x1_0000_0000
  }

  lemma FetchStep(count: nat)
    ensures NextSeq(SeqOf(count)) == SeqOf(count + 1)
  {
    if count > 0 {
      var r := (count - 1) % SEQ_PERIOD;
      assert count % SEQ_PERIOD == if r + 1 == SEQ_PERIOD then 0 else r + 1;
    }
  }

  /** Numbers fetched less than one period apart differ. */
  lemma SeqsDiffer(a: nat, b: nat)
    requires 0 < a < b < a + SEQ_PERIOD
    ensures SeqOf(a) != SeqOf(b)
  {
    var r := (a - 1) % SEQ_PERIOD;
    assert (b - 1) % SEQ_PERIOD == if r + b - a < SEQ_PERIOD then r + b - a else r + b - a - SEQ_PERIOD;
  }

  /** How far a writer, and then the reader, has got with a block. */
  datatype Phase = Marking(marked: nat) | Copied | Published | Drained

  datatype Entry = Entry(msg: seq<byte>, ticket: nat, phase: Phase) {
    function Nodes(): nat { NodesFor(|msg|) }

    predicate Ok() {
      ticket > 0 && (phase.Marking? ==> 1 <= phase.marked <= Nodes())
    }

    /** The payload is in place. */
    predicate Full() { !phase.Marking? }

    function Marked(): nat { if phase.Marking? then phase.marked else Nodes() }

    function First(): NodeHead { NodeHead(true, phase.Published?, SeqOf(ticket)) }

    function Later(): NodeHead { NodeHead(false, true, SeqOf(ticket)) }

    /** The head of node `j` of the block. */
    function HeadAt(j: nat): NodeHead {
      if phase.Drained? || j >= Marked() then CLEAR else if j == 0 then First() else Later()
    }

    /** The heads of the nodes of the block. */
    function Heads(): (h: seq<NodeHead>)
      ensures |h| == Nodes()
    {
      HeadsUpTo(Nodes())
    }

    function HeadsUpTo(k: nat): (h: seq<NodeHead>)
      ensures |h| == k
    {
      if k == 0 then [] else HeadsUpTo(k - 1) + [HeadAt(k - 1)]
    }
  }

  lemma {:induction false} HeadsEach(e: Entry, k: nat)
    ensures forall j :: 0 <= j < k ==> e.HeadsUpTo(k)[j] == e.HeadAt(j)
  {
    if k > 0 {
      HeadsEach(e, k - 1);
    }
  }

  lemma FirstHead(e: Entry)
    requires e.Ok() && !e.phase.Drained?
    ensures e.Heads()[0] == e.First()
  {
    HeadsEach(e, e.Nodes());
  }

  lemma MarkHeads(e: Entry) returns (e': Entry)
    requires e.Ok() && e.phase.Marking? && e.phase.marked < e.Nodes()
    ensures e' == e.(phase := Marking(e.phase.marked + 1)) && e'.Ok()
    ensures e.Heads()[e.phase.marked] == CLEAR && e'.Heads() == e.Heads()[e.phase.marked := e'.Later()]
  {
    e' := e.(phase := Marking(e.phase.marked + 1));
    HeadsEach(e, e.Nodes());
    HeadsEach(e', e.Nodes());
  }

  lemma FillHeads(e: Entry) returns (e': Entry)
    requires e.Ok() && e.phase == Marking(e.Nodes())
    ensures e' == e.(phase := Copied) && e'.Ok() && e'.Heads() == e.Heads()
  {
    e' := e.(phase := Copied);
    HeadsEach(e, e.Nodes());
    HeadsEach(e', e.Nodes());
  }

  lemma PublishHeads(e: Entry) returns (e': Entry)
    requires e.Ok() && e.phase.Copied?
    ensures e' == e.(phase := Published) && e'.Ok()
    ensures e.Heads()[0] == e.First() && e'.Heads() == e.Heads()[0 := e'.First()]
  {
    e' := e.(phase := Published);
    HeadsEach(e, e.Nodes());
    HeadsEach(e', e.Nodes());
  }

  lemma DrainHeads(e: Entry) returns (e': Entry)
    requires e.Ok()
    ensures e' == e.(phase := Drained) && e'.Ok() && e'.Heads() == Clear(e.Nodes())
  {
    e' := e.(phase := Drained);
    HeadsEach(e', e.Nodes());
  }

  lemma NewHeads(e: Entry, k: nat)
    requires e.Ok() && e.phase == Marking(1) && e.Nodes() <= k
    ensures Clear(k)[0 := e.First()] == e.Heads() + Clear(k - e.Nodes())
  {
    HeadsEach(e, e.Nodes());
  }

  function Clear(k: nat): (h: seq<NodeHead>)
    ensures |h| == k && forall i :: 0 <= i < k ==> h[i] == CLEAR
  {
    seq(k, _ => CLEAR)
  }

  ghost predicate EntriesOk(entries: seq<Entry>) { forall e :: e in entries ==> e.Ok() }

  function Used(entries: seq<Entry>): nat
    decreases entries
  {
    if entries == [] then 0 else entries[0].Nodes() + Used(entries[1..])
  }

  ghost function Flat(entries: seq<Entry>): (h: seq<NodeHead>)
    requires EntriesOk(entries)
    ensures |h| == Used(entries)
    decreases entries
  {
    if entries == [] then [] else entries[0].Heads() + Flat(entries[1..])
  }

  /** Where block `i` starts, in nodes from the oldest block. */
  function Offset(entries: seq<Entry>, i: nat): nat
    requires i <= |entries|
    decreases entries
  {
    if i == 0 then 0 else entries[0].Nodes() + Offset(entries[1..], i - 1)
  }

  lemma {:induction false} OffsetWithin(entries: seq<Entry>, i: nat)
    requires i < |entries|
    ensures Offset(entries, i) + entries[i].Nodes() <= Used(entries)
    decreases entries
  {
    if i > 0 {
      OffsetWithin(entries[1..], i - 1);
    }
  }

  lemma {:induction false} LastOffset(entries: seq<Entry>)
    requires entries != []
    ensures Used(entries) == Offset(entries, |entries| - 1) + entries[|entries| - 1].Nodes()
    decreases entries
  {
    if |entries| > 1 {
      LastOffset(entries[1..]);
    } else {
      assert entries[1..] == [];
    }
  }

  lemma {:induction false} OffsetUpdated(entries: seq<Entry>, i: nat, e: Entry)
    requires i < |entries|
    ensures Offset(entries[i := e], i) == Offset(entries, i)
    decreases entries
  {
    if i > 0 {
      assert entries[i := e][1..] == entries[1..][i - 1 := e];
      OffsetUpdated(entries[1..], i - 1, e);
    }
  }

  lemma {:induction false} FlatSnoc(entries: seq<Entry>, e: Entry)
    requires EntriesOk(entries) && e.Ok()
    ensures EntriesOk(entries + [e]) && Flat(entries + [e]) == Flat(entries) + e.Heads()
    ensures Used(entries + [e]) == Used(entries) + e.Nodes() && Offset(entries + [e], |entries|) == Used(entries)
    decreases entries
  {
    if entries != [] {
      assert (entries + [e])[1..] == entries[1..] + [e];
      FlatSnoc(entries[1..], e);
    } else {
      assert [e][1..] == [];
    }
  }

  lemma UpdateLeft<T>(s: seq<T>, t: seq<T>, j: nat, x: T)
    requires j < |s|
    ensures (s + t)[j := x] == s[j := x] + t && (s + t)[j] == s[j]
  {
  }

  lemma UpdateRight<T>(s: seq<T>, t: seq<T>, j: nat, x: T)
    requires j < |t|
    ensures (s + t)[|s| + j := x] == s + t[j := x] && (s + t)[|s| + j] == t[j]
  {
  }

  lemma UpdateMiddle<T>(r: seq<T>, s: seq<T>, t: seq<T>, j: nat, x: T)
    requires j < |s|
    ensures (r + s + t)[|r| + j := x] == r + s[j := x] + t && (r + s + t)[|r| + j] == s[j]
  {
  }

  lemma {:induction false} FlatConcat(a: seq<Entry>, b: seq<Entry>)
    requires EntriesOk(a) && EntriesOk(b)
    ensures Flat(a + b) == Flat(a) + Flat(b)
    decreases a
  {
    if a == [] {
      assert a + b == b;
    } else {
      assert (a + b)[1..] == a[1..] + b;
      FlatConcat(a[1..], b);
    }
  }

  lemma {:induction false} OffsetIsUsed(entries: seq<Entry>, i: nat)
    requires EntriesOk(entries) && i < |entries|
    ensures Offset(entries, i) == Used(entries[..i])
    decreases entries
  {
    if i > 0 {
      assert entries[..i][1..] == entries[1..][..i - 1];
      OffsetIsUsed(entries[1..], i - 1);
    }
  }

  /** The heads before block `i`, of block `i`, and behind it. */
  lemma {:induction false} FlatSplit(entries: seq<Entry>, i: nat)
    requires EntriesOk(entries) && i < |entries|
    ensures EntriesOk(entries[..i]) && EntriesOk(entries[i + 1..])
    ensures Flat(entries) == Flat(entries[..i]) + entries[i].Heads() + Flat(entries[i + 1..])
    ensures Offset(entries, i) == Used(entries[..i])
  {
    var a, e, b := entries[..i], entries[i], entries[i + 1..];
    assert e in entries;
    assert entries == a + ([e] + b);
    OffsetIsUsed(entries, i);
    FlatCons(e, b);
    FlatConcat(a, [e] + b);
    AddMiddle(Flat(a), e.Heads(), Flat(b));
  }

  lemma AddMiddle<T>(a: seq<T>, b: seq<T>, c: seq<T>)
    ensures a + (b + c) == a + b + c
  {
  }

  lemma FlatCons(e: Entry, rest: seq<Entry>)
    requires e.Ok() && EntriesOk(rest)
    ensures EntriesOk([e] + rest) && Used([e] + rest) == e.Nodes() + Used(rest)
    ensures Flat([e] + rest) == e.Heads() + Flat(rest)
  {
    assert ([e] + rest)[1..] == rest;
  }

  /** Changing one node head of one block. */
  lemma FlatUpdate(entries: seq<Entry>, i: nat, j: nat, x: NodeHead, e: Entry, h: seq<NodeHead>)
    requires EntriesOk(entries) && i < |entries| && e.Ok() && h == entries[i].Heads() && j < |h|
    requires e.Heads() == h[j := x]
    ensures Offset(entries, i) + j < Used(entries) == Used(entries[i := e])
    ensures Flat(entries)[Offset(entries, i) + j] == h[j]
    ensures EntriesOk(entries[i := e]) && Flat(entries[i := e]) == Flat(entries)[Offset(entries, i) + j := x]
  {
    var to := entries[i := e];
    assert EntriesOk(to);
    FlatSplit(entries, i);
    FlatSplit(to, i);
    assert to[..i] == entries[..i] && to[i + 1..] == entries[i + 1..];
    UpdateMiddle(Flat(entries[..i]), h, Flat(entries[i + 1..]), j, x);
  }

  lemma FlatSame(entries: seq<Entry>, i: nat, e: Entry)
    requires EntriesOk(entries) && i < |entries| && e.Ok() && entries[i].Ok() && e.Heads() == entries[i].Heads()
    ensures EntriesOk(entries[i := e]) && Used(entries[i := e]) == Used(entries)
    ensures Flat(entries[i := e]) == Flat(entries)
  {
    var h := entries[i].Heads();
    assert h[0 := h[0]] == h;
    FlatUpdate(entries, i, 0, h[0], e, h);
  }

  function Bytes(s: seq<byte>): (c: seq<Cell>)
    ensures |c| == |s|
  {
    seq(|s|, i requires 0 <= i < |s| => Raw(s[i]))
  }

  /** Block head and payload of `msg` lie at the front of `d`. */
  ghost predicate Holds(d: seq<Cell>, msg: seq<byte>, crc: Checksum) {
    && BLOCK_HEAD_SIZE + |msg| <= |d|
    && d[0] == Size(|msg|) && d[CHECK_OFFSET] == Check(crc(msg))
    && d[BLOCK_HEAD_SIZE..BLOCK_HEAD_SIZE + |msg|] == Bytes(msg)
  }

  /** Every block whose payload is in place holds it. */
  ghost predicate Stored(d: seq<Cell>, entries: seq<Entry>, crc: Checksum)
    decreases entries
  {
    entries != [] ==>
      var k := NODE_SIZE * entries[0].Nodes();
      && k <= |d|
      && (entries[0].Full() ==> Holds(d[..k], entries[0].msg, crc))
      && Stored(d[k..], entries[1..], crc)
  }

  /** Only the cells of the blocks matter. */
  lemma {:induction false} StoredFrame(d: seq<Cell>, e: seq<Cell>, entries: seq<Entry>, crc: Checksum)
    requires Stored(d, entries, crc) && NODE_SIZE * Used(entries) <= |d| && NODE_SIZE * Used(entries) <= |e|
    requires d[..NODE_SIZE * Used(entries)] == e[..NODE_SIZE * Used(entries)]
    ensures Stored(e, entries, crc)
    decreases entries
  {
    if entries != [] {
      var k, u := NODE_SIZE * entries[0].Nodes(), NODE_SIZE * Used(entries);
      assert e[..k] == e[..u][..k] && d[..k] == d[..u][..k];
      assert d[k..][..u - k] == d[..u][k..] && e[k..][..u - k] == e[..u][k..];
      StoredFrame(d[k..], e[k..], entries[1..], crc);
    }
  }

  lemma {:induction false} StoredSnoc(d: seq<Cell>, entries: seq<Entry>, e: Entry, crc: Checksum)
    requires Stored(d, entries, crc) && NODE_SIZE * (Used(entries) + e.Nodes()) <= |d| && !e.Full()
    ensures Stored(d, entries + [e], crc)
    decreases entries
  {
    if entries != [] {
      assert (entries + [e])[1..] == entries[1..] + [e];
      StoredSnoc(d[NODE_SIZE * entries[0].Nodes()..], entries[1..], e, crc);
    } else {
      assert [e][1..] == [];
    }
  }

  /** Cells `d` and `e` agree outside the `k` cells at `o`. */
  ghost predicate SameOutside(d: seq<Cell>, e: seq<Cell>, o: nat, k: nat) {
    |d| == |e| && o + k <= |d| && d[..o] == e[..o] && d[o + k..] == e[o + k..]
  }

  lemma SameOutsideTail(d: seq<Cell>, e: seq<Cell>, o: nat, k: nat, c: nat)
    requires SameOutside(d, e, o, k) && c <= o
    ensures d[..c] == e[..c] && SameOutside(d[c..], e[c..], o - c, k) && e[c..][o - c..] == e[o..]
  {
    assert d[..c] == d[..o][..c] && e[..c] == e[..o][..c];
    assert d[c..][..o - c] == d[..o][c..] && e[c..][..o - c] == e[..o][c..];
    assert d[c..][o - c + k..] == d[o + k..] && e[c..][o - c + k..] == e[o + k..];
  }

  /** One block's cells are rewritten. */
  lemma {:induction false} StoredUpdate(d: seq<Cell>, d': seq<Cell>, entries: seq<Entry>, i: nat, e: Entry,
                                        crc: Checksum)
    requires Stored(d, entries, crc) && i < |entries| && e.Nodes() == entries[i].Nodes()
    requires NODE_SIZE * Used(entries) <= |d|
    requires SameOutside(d, d', NODE_SIZE * Offset(entries, i), NODE_SIZE * e.Nodes())
    requires e.Full() ==> Holds(d'[NODE_SIZE * Offset(entries, i)..][..NODE_SIZE * e.Nodes()], e.msg, crc)
    ensures Stored(d', entries[i := e], crc)
    decreases entries
  {
    var k, o := NODE_SIZE * entries[0].Nodes(), NODE_SIZE * Offset(entries, i);
    if i == 0 {
      assert d'[0..] == d' && entries[i := e][1..] == entries[1..];
    } else {
      assert entries[i := e][1..] == entries[1..][i - 1 := e];
      SameOutsideTail(d, d', o, NODE_SIZE * e.Nodes(), k);
      StoredUpdate(d[k..], d'[k..], entries[1..], i - 1, e, crc);
    }
  }

  /** The cells of block `i`. */
  lemma {:induction false} StoredAt(d: seq<Cell>, entries: seq<Entry>, i: nat, crc: Checksum)
    requires Stored(d, entries, crc) && i < |entries| && entries[i].Full() && NODE_SIZE * Used(entries) <= |d|
    ensures NODE_SIZE * (Offset(entries, i) + entries[i].Nodes()) <= |d|
    ensures Holds(d[NODE_SIZE * Offset(entries, i)..][..NODE_SIZE * entries[i].Nodes()], entries[i].msg, crc)
    decreases entries
  {
    OffsetWithin(entries, i);
    if i == 0 {
      assert d[0..] == d;
    } else {
      var k := NODE_SIZE * entries[0].Nodes();
      StoredAt(d[k..], entries[1..], i - 1, crc);
      assert d[k..][NODE_SIZE * Offset(entries[1..], i - 1)..] == d[NODE_SIZE * Offset(entries, i)..];
    }
  }

  function ByteOf(c: Cell): byte { if c.Raw? then c.b else 0 }

  function ToBytes(d: seq<Cell>): (s: seq<byte>)
    ensures |s| == |d|
  {
    seq(|d|, i requires 0 <= i < |d| => ByteOf(d[i]))
  }
}
