/** The shared-memory channel as a state machine: any number of writers and one reader, each step of
    each interleaved at will. */
module MemConcurrent {
  import opened Base
  import opened Rings
  import opened MemBlocks
  import opened MemSteps

  /** A writer between two of its steps. The ticket counts fetches; `at` and `seen` count the nodes
      ever reserved and released when a cursor was loaded, and only serve to state what is proved. */
  datatype Writer =
    | Idle
    | Fetched(msg: seq<byte>, ticket: nat)
    | Loaded(msg: seq<byte>, ticket: nat, writeCur: nat, at: nat)
    | Ready(msg: seq<byte>, ticket: nat, writeCur: nat, at: nat, readCur: nat, seen: nat)
    | Marks(msg: seq<byte>, ticket: nat, first: nat, next: nat, node: nat)
    | Publishes(msg: seq<byte>, ticket: nat, first: nat)
    | Conflict

  /** The reader between two of its steps; `count` is the number of blocks before its snapshot. */
  datatype Reader =
    | Waiting
    | Snapped(writeCur: nat, count: nat)
    | Found(writeCur: nat, count: nat, size: nat)
    | Cleared(end: nat, size: nat)
    | Taken(end: nat)
    | Fault

  /** The shared memory, and with it the history that the proof speaks of. */
  datatype Core = Core(ring: Ring, opSeq: nat, protectNodes: nat, entries: seq<Entry>, fetched: nat, released: nat,
                       reserved: nat)

  datatype State = State(core: Core, writers: seq<Writer>, reader: Reader, sent: seq<seq<byte>>,
                         received: seq<seq<byte>>)

  /** The position of the block with a ticket, or the number of blocks. */
  function Find(entries: seq<Entry>, ticket: nat): (i: nat)
    ensures i <= |entries| && (i < |entries| ==> entries[i].ticket == ticket)
    decreases entries
  {
    if entries == [] || entries[0].ticket == ticket then 0 else 1 + Find(entries[1..], ticket)
  }

  ghost predicate Unique(entries: seq<Entry>)
    decreases entries
  {
    entries != [] ==> Find(entries[1..], entries[0].ticket) == |entries| - 1 && Unique(entries[1..])
  }

  /** Every block behind the oldest may still be written, but none is drained; none is empty. */
  ghost predicate Living(entries: seq<Entry>)
    decreases entries
  {
    entries != [] ==> entries[0].msg != [] && !entries[0].phase.Drained? && Living(entries[1..])
  }

  /** The number `ticket` was given out less than one period ago. */
  predicate Recent(c: Core, ticket: nat) { 0 < ticket <= c.fetched < ticket + SEQ_PERIOD }

  ghost predicate AllRecent(c: Core, entries: seq<Entry>)
    decreases entries
  {
    entries != [] ==> Recent(c, entries[0].ticket) && AllRecent(c, entries[1..])
  }

  ghost predicate CoreOk(c: Core, crc: Checksum) {
    && Laid(c.ring, c.entries, crc) && Used(c.entries) + c.protectNodes < |c.ring.heads|
    && c.opSeq == SeqOf(c.fetched) && c.reserved == c.released + Used(c.entries)
    && Unique(c.entries) && AllRecent(c, c.entries)
    && (c.entries != [] ==> c.entries[0].msg != [] && Living(c.entries[1..]))
  }

  ghost predicate WriterOk(c: Core, w: Writer) {
    var n := |c.ring.heads|;
    c.ring.Shaped() &&
    match w
    case Idle => true
    case Fetched(msg, ticket) => msg != [] && Recent(c, ticket) && Find(c.entries, ticket) == |c.entries|
    case Loaded(msg, ticket, writeCur, at) =>
      && msg != [] && Recent(c, ticket) && Find(c.entries, ticket) == |c.entries|
      && at <= c.reserved && writeCur < n && (at == c.reserved ==> writeCur == c.ring.writeCur)
    case Ready(msg, ticket, writeCur, at, readCur, seen) =>
      && msg != [] && Recent(c, ticket) && Find(c.entries, ticket) == |c.entries|
      && at <= c.reserved && writeCur < n && readCur < n && seen <= c.released
      && (at == c.reserved ==>
            writeCur == c.ring.writeCur && seen <= at < seen + n - c.protectNodes &&
            writeCur == Ahead(readCur, at - seen, n))
    case Marks(msg, ticket, first, next, node) =>
      var i := Find(c.entries, ticket);
      && i < |c.entries| && c.entries[i].msg == msg && c.entries[i].phase.Marking?
      && Recent(c, ticket) && At(c, i, 0, first) && At(c, i, NodesFor(|msg|), next)
      && At(c, i, c.entries[i].phase.marked, node)
    case Publishes(msg, ticket, first) =>
      var i := Find(c.entries, ticket);
      && i < |c.entries| && c.entries[i].msg == msg && c.entries[i].phase.Copied?
      && Recent(c, ticket) && At(c, i, 0, first)
    case Conflict => false
  }

  /** Index `node` is node `j` of block `i`. */
  predicate At(c: Core, i: nat, j: nat, node: nat)
    requires c.ring.Shaped() && i <= |c.entries|
  {
    Offset(c.entries, i) + j < |c.ring.heads| && node == Ahead(c.ring.readCur, Offset(c.entries, i) + j, |c.ring.heads|)
  }

  ghost predicate ReaderOk(c: Core, r: Reader) {
    c.ring.Shaped() &&
    match r
    case Waiting => Living(c.entries)
    case Snapped(writeCur, count) => Living(c.entries) && count <= |c.entries| && At(c, count, 0, writeCur)
    case Found(writeCur, count, size) =>
      && Living(c.entries) && 0 < count <= |c.entries| && At(c, count, 0, writeCur)
      && c.entries[0].phase.Published? && size == |c.entries[0].msg|
    case Cleared(end, size) =>
      c.entries != [] && c.entries[0].phase.Drained? && At(c, 1, 0, end) && size == |c.entries[0].msg|
    case Taken(end) => c.entries != [] && c.entries[0].phase.Drained? && At(c, 1, 0, end)
    case Fault => false
  }

  function Pending(entries: seq<Entry>): (m: seq<seq<byte>>)
    ensures |m| == |entries|
    decreases entries
  {
    if entries == [] then [] else [entries[0].msg] + Pending(entries[1..])
  }

  /** Distinct active writers hold distinct tickets. */
  ghost predicate Apart(v: Writer, w: Writer) {
    !v.Idle? && !w.Idle? && !v.Conflict? && !w.Conflict? ==> v.ticket != w.ticket
  }

  ghost predicate Inv(s: State, crc: Checksum) {
    && CoreOk(s.core, crc) && ReaderOk(s.core, s.reader)
    && (forall a :: 0 <= a < |s.writers| ==> WriterOk(s.core, s.writers[a]))
    && (forall a, b :: 0 <= a < b < |s.writers| ==> Apart(s.writers[a], s.writers[b]))
    && (s.reader.Taken? ==> s.core.entries != [])
    && s.sent == s.received + Pending(if s.reader.Taken? then s.core.entries[1..] else s.core.entries)
  }

  datatype Action =
    | Fetch(w: nat, msg: seq<byte>)
    | LoadWrite(w: nat)
    | LoadRead(w: nat)
    | Decide(w: nat, spurious: bool)
    | MarkNode(w: nat)
    | CopyPayload(w: nat)
    | SetWritten(w: nat)
    | Snapshot
    | Scan(len: nat)
    | ResetHeads
    | CopyOut
    | StoreCursor

  /** Whose turn an action is. Two assumptions stand here: no number comes round again while a ticket
      is in use, and no cursor comes full circle between its load and the exchange. */
  ghost predicate Enabled(s: State, a: Action) {
    match a
    case Fetch(w, msg) => w < |s.writers| && s.writers[w].Idle? && msg != [] && Window(s)
    case LoadWrite(w) => w < |s.writers| && s.writers[w].Fetched?
    case LoadRead(w) => w < |s.writers| && s.writers[w].Loaded?
    case Decide(w, spurious) =>
      w < |s.writers| && s.writers[w].Ready? &&
      (s.writers[w].writeCur == s.core.ring.writeCur ==> s.writers[w].at == s.core.reserved)
    case MarkNode(w) => w < |s.writers| && s.writers[w].Marks? && s.writers[w].node != s.writers[w].next
    case CopyPayload(w) => w < |s.writers| && s.writers[w].Marks? && s.writers[w].node == s.writers[w].next
    case SetWritten(w) => w < |s.writers| && s.writers[w].Publishes?
    case Snapshot => s.reader.Waiting?
    case Scan(len) => s.reader.Snapped?
    case ResetHeads => s.reader.Found?
    case CopyOut => s.reader.Cleared?
    case StoreCursor => s.reader.Taken?
  }

  /** One more fetch keeps every ticket in use recent. */
  ghost predicate Window(s: State) {
    var c := Counted(s.core);
    && AllRecent(c, c.entries)
    && forall a :: 0 <= a < |s.writers| && !s.writers[a].Idle? && !s.writers[a].Conflict? ==>
         Recent(c, s.writers[a].ticket)
  }

  function Counted(c: Core): Core { c.(opSeq := NextSeq(c.opSeq), fetched := c.fetched + 1) }

  /** The nodes a writer may take, as it sees the cursors. */
  function Free(c: Core, readCur: nat, writeCur: nat): int
    requires c.ring.heads != []
  {
    var n := |c.ring.heads|;
    var f := (readCur + n - writeCur - 1) % n;
    if f >= c.protectNodes then f - c.protectNodes else 0
  }

  function Reserving(c: Core, msg: seq<byte>, ticket: nat): Core
    requires c.ring.Shaped() && NodesFor(|msg|) <= |c.ring.heads|
  {
    c.(ring := Reserve(c.ring, NodesFor(|msg|), SeqOf(ticket)), entries := c.entries + [Entry(msg, ticket, Marking(1))],
       reserved := c.reserved + NodesFor(|msg|))
  }

  /** Block `i` has got to `phase`, and the shared memory is now `ring`. */
  function Advanced(c: Core, ring: Ring, i: nat, phase: Phase): Core {
    c.(ring := ring, entries := if i < |c.entries| then c.entries[i := c.entries[i].(phase := phase)] else c.entries)
  }

  function Releasing(c: Core, end: nat): Core {
    if c.entries == [] then c
    else c.(ring := c.ring.(readCur := end), entries := c.entries[1..], released := c.released + c.entries[0].Nodes())
  }

  function With(s: State, c: Core, a: nat, w: Writer): State
    requires a < |s.writers|
  {
    s.(core := c, writers := s.writers[a := w])
  }

  /** What marking the next node gives, or a conflict if it bears a number. */
  function MarkOutcome(c: Core, w: Writer): (Core, Writer)
    requires c.ring.Shaped() && w.Marks?
  {
    var n := |c.ring.heads|;
    if w.node >= n || c.ring.heads[w.node].opSeq != 0 then (c, Conflict)
    else
      var i := Find(c.entries, w.ticket);
      var j := if i < |c.entries| && c.entries[i].phase.Marking? then c.entries[i].phase.marked + 1 else 1;
      (Advanced(c, Mark(c.ring, w.node, SeqOf(w.ticket)), i, Marking(j)), w.(node := Ahead(w.node, 1, n)))
  }

  /** A step of writer `a`. */
  function WriterStep(s: State, act: Action, crc: Checksum): State
    requires Enabled(s, act) && s.core.ring.Shaped()
    requires act.Fetch? || act.LoadWrite? || act.LoadRead? || act.Decide? || act.MarkNode? || act.CopyPayload? ||
             act.SetWritten?
  {
    var c, a := s.core, act.w;
    var w, r, n := s.writers[a], c.ring, |c.ring.heads|;
    match act
    case Fetch(_, msg) =>
      if NodesFor(|msg|) >= n - c.protectNodes then s else With(s, Counted(c), a, Fetched(msg, c.fetched + 1))
    case LoadWrite(_) => With(s, c, a, Loaded(w.msg, w.ticket, r.writeCur, c.reserved))
    case LoadRead(_) => With(s, c, a, Ready(w.msg, w.ticket, w.writeCur, w.at, r.readCur, c.released))
    case Decide(_, spurious) =>
      if NodesFor(|w.msg|) > Free(c, w.readCur, w.writeCur) then With(s, c, a, Idle)
      else if r.writeCur != w.writeCur || spurious then With(s, c, a, Loaded(w.msg, w.ticket, r.writeCur, c.reserved))
      else if NodesFor(|w.msg|) >= n then With(s, c, a, Conflict)
      else
        var next := Ahead(w.writeCur, NodesFor(|w.msg|), n);
        With(s, Reserving(c, w.msg, w.ticket), a,
             Marks(w.msg, w.ticket, w.writeCur, next, Ahead(w.writeCur, 1, n))).(sent := s.sent + [w.msg])
    case MarkNode(_) =>
      var (d, v) := MarkOutcome(c, w);
      With(s, d, a, v)
    case CopyPayload(_) =>
      if w.first >= n || |w.msg| > |r.data| then With(s, c, a, Conflict)
      else With(s, Advanced(c, Fill(r, w.first, w.msg, crc), Find(c.entries, w.ticket), Copied), a,
                Publishes(w.msg, w.ticket, w.first))
    case SetWritten(_) =>
      if w.first >= n || r.heads[w.first].opSeq != SeqOf(w.ticket) then With(s, c, a, Conflict)
      else With(s, Advanced(c, Publish(r, w.first), Find(c.entries, w.ticket), Published), a, Idle)
  }

  /** How far a cursor lies in front of another. */
  function Distance(from: nat, to: nat, n: nat): nat
    requires from < n && to < n
  {
    if to >= from then to - from else to + n - from
  }

  function SizeAt(r: Ring): nat
    requires r.Shaped()
  {
    var cell := r.data[NODE_SIZE * r.readCur];
    if cell.Size? then cell.n else 0
  }

  /** A step of the reader. */
  function ReaderStep(s: State, act: Action, crc: Checksum): State
    requires Enabled(s, act) && s.core.ring.Shaped()
    requires act.Snapshot? || act.Scan? || act.ResetHeads? || act.CopyOut? || act.StoreCursor?
  {
    var c := s.core;
    var r, n := c.ring, |c.ring.heads|;
    match act
    case Snapshot => s.(reader := Snapped(r.writeCur, |c.entries|))
    case Scan(len) =>
      if r.readCur == s.reader.writeCur then s.(reader := Waiting)
      else if !r.heads[r.readCur].start then s.(reader := Fault)
      else if !r.heads[r.readCur].written then s.(reader := Waiting)
      else if !(0 < SizeAt(r) < NODE_SIZE * (n - c.protectNodes)) then s.(reader := Fault)
      else if SizeAt(r) > len then s.(reader := Waiting)
      else s.(reader := Found(s.reader.writeCur, s.reader.count, SizeAt(r)))
    case ResetHeads =>
      if s.reader.writeCur >= n then s.(reader := Fault)
      else
        var k := RunLength(Rotated(r.heads, r.readCur), Distance(r.readCur, s.reader.writeCur, n),
                           r.heads[r.readCur].opSeq);
        if NodesFor(s.reader.size) != k then s.(reader := Fault)
        else s.(core := Advanced(c, Reset(r, k), 0, Drained), reader := Cleared(Ahead(r.readCur, k, n), s.reader.size))
    case CopyOut =>
      var at := NODE_SIZE * r.readCur;
      if s.reader.size > |r.data| then s.(reader := Fault)
      else
        var out := ToBytes(RingRead(r.data, at + BLOCK_HEAD_SIZE, s.reader.size));
        if r.data[at + CHECK_OFFSET] != Check(crc(out)) then s.(reader := Fault)
        else s.(reader := Taken(s.reader.end), received := s.received + [out])
    case StoreCursor => s.(core := Releasing(c, s.reader.end), reader := Waiting)
  }

  function Step(s: State, act: Action, crc: Checksum): State
    requires Enabled(s, act) && s.core.ring.Shaped()
  {
    if act.Snapshot? || act.Scan? || act.ResetHeads? || act.CopyOut? || act.StoreCursor? then ReaderStep(s, act, crc)
    else WriterStep(s, act, crc)
  }

  /** A block changes only its phase. */
  lemma {:induction false} ListAdvanced(entries: seq<Entry>, i: nat, phase: Phase, m: nat, t: nat)
    requires i < |entries| && m <= |entries|
    ensures var to := entries[i := entries[i].(phase := phase)];
            && Find(to, t) == Find(entries, t) && Offset(to, m) == Offset(entries, m)
            && Used(to) == Used(entries) && Pending(to) == Pending(entries)
    decreases entries
  {
    var e := entries[i].(phase := phase);
    var to, rest := entries[i := e], entries[1..];
    if i == 0 {
      assert to[1..] == rest;
    } else {
      assert to[1..] == rest[i - 1 := e];
      ListAdvanced(rest, i - 1, phase, if m > 0 then m - 1 else 0, t);
    }
  }

  /** A block joins behind the others. */
  lemma {:induction false} ListGrown(entries: seq<Entry>, e: Entry, m: nat, t: nat)
    requires m <= |entries|
    ensures var to := entries + [e];
            && Find(to, t) == (if Find(entries, t) == |entries| && e.ticket != t then |to| else Find(entries, t))
            && Offset(to, m) == Offset(entries, m)
            && Used(to) == Used(entries) + e.Nodes() && Pending(to) == Pending(entries) + [e.msg]
    decreases entries
  {
    var to := entries + [e];
    if entries == [] {
      assert to[1..] == [];
    } else {
      assert to[1..] == entries[1..] + [e];
      ListGrown(entries[1..], e, if m > 0 then m - 1 else 0, t);
    }
  }

  lemma {:induction false} UniqueAdvanced(entries: seq<Entry>, i: nat, phase: Phase)
    requires i < |entries| && Unique(entries)
    ensures Unique(entries[i := entries[i].(phase := phase)])
    decreases entries
  {
    var to, rest := entries[i := entries[i].(phase := phase)], entries[1..];
    if i == 0 {
      assert to[1..] == rest;
    } else {
      assert to[1..] == rest[i - 1 := entries[i].(phase := phase)];
      ListAdvanced(rest, i - 1, phase, 0, entries[0].ticket);
      UniqueAdvanced(rest, i - 1, phase);
    }
  }

  lemma {:induction false} UniqueGrown(entries: seq<Entry>, e: Entry)
    requires Unique(entries) && Find(entries, e.ticket) == |entries|
    ensures Unique(entries + [e])
    decreases entries
  {
    if entries != [] {
      assert (entries + [e])[1..] == entries[1..] + [e];
      ListGrown(entries[1..], e, 0, entries[0].ticket);
      UniqueGrown(entries[1..], e);
    } else {
      assert (entries + [e])[1..] == [];
    }
  }

  lemma {:induction false} LivingAdvanced(entries: seq<Entry>, i: nat, phase: Phase)
    requires i < |entries| && Living(entries) && !phase.Drained?
    ensures Living(entries[i := entries[i].(phase := phase)])
    decreases entries
  {
    var to, rest := entries[i := entries[i].(phase := phase)], entries[1..];
    if i == 0 {
      assert to[1..] == rest;
    } else {
      assert to[1..] == rest[i - 1 := entries[i].(phase := phase)];
      LivingAdvanced(rest, i - 1, phase);
    }
  }

  lemma {:induction false} LivingGrown(entries: seq<Entry>, e: Entry)
    requires Living(entries) && e.msg != [] && !e.phase.Drained?
    ensures Living(entries + [e])
    decreases entries
  {
    if entries != [] {
      assert (entries + [e])[1..] == entries[1..] + [e];
      LivingGrown(entries[1..], e);
    } else {
      assert (entries + [e])[1..] == [];
    }
  }

  lemma {:induction false} RecentAdvanced(c: Core, entries: seq<Entry>, i: nat, phase: Phase)
    requires i < |entries| && AllRecent(c, entries)
    ensures AllRecent(c, entries[i := entries[i].(phase := phase)])
    decreases entries
  {
    var to, rest := entries[i := entries[i].(phase := phase)], entries[1..];
    if i == 0 {
      assert to[1..] == rest;
    } else {
      assert to[1..] == rest[i - 1 := entries[i].(phase := phase)];
      RecentAdvanced(c, rest, i - 1, phase);
    }
  }

  lemma {:induction false} RecentGrown(c: Core, entries: seq<Entry>, e: Entry)
    requires AllRecent(c, entries) && Recent(c, e.ticket)
    ensures AllRecent(c, entries + [e])
    decreases entries
  {
    if entries != [] {
      assert (entries + [e])[1..] == entries[1..] + [e];
      RecentGrown(c, entries[1..], e);
    } else {
      assert (entries + [e])[1..] == [];
    }
  }

  lemma {:induction false} RecentSame(c: Core, d: Core, entries: seq<Entry>)
    requires AllRecent(c, entries) && c.fetched == d.fetched
    ensures AllRecent(d, entries)
    decreases entries
  {
    if entries != [] {
      RecentSame(c, d, entries[1..]);
    }
  }

  /** The new shared memory has the cursors of the old one. */
  predicate SameCursors(r: Ring, q: Ring) {
    q.Shaped() && q.readCur == r.readCur && q.writeCur == r.writeCur && |q.heads| == |r.heads|
  }

  /** A block's progress leaves the other writers as they were. */
  lemma OthersAdvance(c: Core, ring: Ring, i: nat, phase: Phase, w: Writer)
    requires i < |c.entries| && SameCursors(c.ring, ring) && WriterOk(c, w)
    requires w.Idle? || w.ticket != c.entries[i].ticket
    ensures WriterOk(Advanced(c, ring, i, phase), w)
  {
    if !w.Idle? {
      var j := Find(c.entries, w.ticket);
      ListAdvanced(c.entries, i, phase, j, w.ticket);
    }
  }

  lemma OthersReserve(c: Core, msg: seq<byte>, ticket: nat, w: Writer)
    requires c.ring.Shaped() && NodesFor(|msg|) <= |c.ring.heads| && WriterOk(c, w)
    requires Reserving(c, msg, ticket).ring.Shaped()
    requires w.Idle? || w.ticket != ticket
    ensures WriterOk(Reserving(c, msg, ticket), w)
  {
    if !w.Idle? {
      var j := Find(c.entries, w.ticket);
      ListGrown(c.entries, Entry(msg, ticket, Marking(1)), j, w.ticket);
    }
  }

  lemma OthersRelease(c: Core, end: nat, w: Writer)
    requires c.entries != [] && c.entries[0].phase.Drained? && WriterOk(c, w)
    requires c.ring.Shaped() && At(c, 1, 0, end)
    ensures WriterOk(Releasing(c, end), w)
  {
    var n, k := |c.ring.heads|, c.entries[0].Nodes();
    assert Offset(c.entries, 1) == k + Offset(c.entries[1..], 0) == k;
    if w.Marks? || w.Publishes? {
      var i := Find(c.entries, w.ticket);
      assert i > 0 && Find(c.entries[1..], w.ticket) == i - 1;
      assert Offset(c.entries, i) == k + Offset(c.entries[1..], i - 1);
    }
  }

  /** The reader does not notice a writer's progress. */
  lemma ReaderAdvance(c: Core, ring: Ring, i: nat, phase: Phase, r: Reader)
    requires i < |c.entries| && SameCursors(c.ring, ring) && ReaderOk(c, r) && !phase.Drained?
    requires c.entries[i].phase.Marking? || c.entries[i].phase.Copied?
    ensures ReaderOk(Advanced(c, ring, i, phase), r)
  {
    var m := if r.Snapped? || r.Found? then r.count else if r.Cleared? || r.Taken? then 1 else 0;
    ListAdvanced(c.entries, i, phase, m, 0);
    if !r.Cleared? && !r.Taken? {
      LivingAdvanced(c.entries, i, phase);
    }
  }

  lemma ReaderReserve(c: Core, msg: seq<byte>, ticket: nat, r: Reader)
    requires c.ring.Shaped() && NodesFor(|msg|) <= |c.ring.heads| && ReaderOk(c, r)
    requires Reserving(c, msg, ticket).ring.Shaped()
    requires msg != []
    ensures ReaderOk(Reserving(c, msg, ticket), r)
  {
    var m := if r.Snapped? || r.Found? then r.count else if r.Cleared? || r.Taken? then 1 else 0;
    var e := Entry(msg, ticket, Marking(1));
    ListGrown(c.entries, e, m, 0);
    if !r.Cleared? && !r.Taken? {
      LivingGrown(c.entries, e);
    }
  }

  /** What a writer's step changes of the shared memory keeps its invariant. */
  lemma CoreAdvance(c: Core, ring: Ring, i: nat, phase: Phase, es: seq<Entry>, crc: Checksum) returns (d: Core)
    requires CoreOk(c, crc) && i < |c.entries| && !phase.Drained? && |ring.heads| == |c.ring.heads|
    requires es == c.entries[i := c.entries[i].(phase := phase)] && Laid(ring, es, crc)
    ensures d == Advanced(c, ring, i, phase) && CoreOk(d, crc)
  {
    d := Advanced(c, ring, i, phase);
    assert d.entries == es;
    ListAdvanced(c.entries, i, phase, 0, 0);
    UniqueAdvanced(c.entries, i, phase);
    RecentAdvanced(c, c.entries, i, phase);
    RecentSame(c, d, d.entries);
    if i == 0 {
      assert d.entries[1..] == c.entries[1..];
    } else {
      assert d.entries[1..] == c.entries[1..][i - 1 := c.entries[i].(phase := phase)];
      LivingAdvanced(c.entries[1..], i - 1, phase);
    }
  }

  lemma CoreReserve(c: Core, msg: seq<byte>, ticket: nat, crc: Checksum)
    requires CoreOk(c, crc) && msg != [] && Recent(c, ticket) && Find(c.entries, ticket) == |c.entries|
    requires Used(c.entries) + NodesFor(|msg|) + c.protectNodes < |c.ring.heads|
    ensures CoreOk(Reserving(c, msg, ticket), crc)
  {
    var d, e := Reserving(c, msg, ticket), Entry(msg, ticket, Marking(1));
    var r', es := Reserved(c.ring, c.entries, crc, msg, ticket);
    ListGrown(c.entries, e, 0, 0);
    UniqueGrown(c.entries, e);
    RecentGrown(c, c.entries, e);
    RecentSame(c, d, d.entries);
    if c.entries != [] {
      assert d.entries[1..] == c.entries[1..] + [e];
      LivingGrown(c.entries[1..], e);
    } else {
      assert d.entries[1..] == [];
    }
  }

  lemma CoreRelease(c: Core, end: nat, crc: Checksum)
    requires CoreOk(c, crc) && c.entries != [] && c.entries[0].phase.Drained? && At(c, 1, 0, end)
    ensures CoreOk(Releasing(c, end), crc) && Living(Releasing(c, end).entries)
  {
    var r', es := ReleasedBlock(c.ring, c.entries, crc);
    assert Offset(c.entries, 1) == c.entries[0].Nodes() + Offset(c.entries[1..], 0);
    var d := Releasing(c, end);
    RecentSame(c, d, d.entries);
  }

  /** The invariant after a step of one writer, from what the step did to the shared memory. */
  lemma Assembled(s: State, c: Core, a: nat, w: Writer, sent: seq<seq<byte>>, crc: Checksum) returns (t: State)
    requires Inv(s, crc) && a < |s.writers| && CoreOk(c, crc) && ReaderOk(c, s.reader) && WriterOk(c, w)
    requires forall b :: 0 <= b < |s.writers| && b != a ==> WriterOk(c, s.writers[b])
    requires forall b :: 0 <= b < |s.writers| && b != a ==> Apart(w, s.writers[b])
    requires sent == s.received + Pending(if s.reader.Taken? && c.entries != [] then c.entries[1..] else c.entries)
    ensures t == With(s, c, a, w).(sent := sent) && Inv(t, crc)
  {
    t := With(s, c, a, w).(sent := sent);
    forall b | 0 <= b < |t.writers| ensures WriterOk(c, t.writers[b]) {
      if b != a {
        assert t.writers[b] == s.writers[b];
      }
    }
    forall b, d | 0 <= b < d < |t.writers| ensures Apart(t.writers[b], t.writers[d]) {
      if b != a {
        assert t.writers[b] == s.writers[b];
      }
      if d != a {
        assert t.writers[d] == s.writers[d];
      }
    }
  }

  lemma {:induction false} FindNew(c: Core, entries: seq<Entry>)
    requires AllRecent(c, entries)
    ensures Find(entries, c.fetched + 1) == |entries|
    decreases entries
  {
    if entries != [] {
      FindNew(c, entries[1..]);
    }
  }

  lemma FetchCore(c: Core, crc: Checksum) returns (d: Core)
    requires CoreOk(c, crc) && AllRecent(Counted(c), c.entries)
    ensures d == Counted(c) && CoreOk(d, crc) && Find(d.entries, d.fetched) == |d.entries|
  {
    d := Counted(c);
    FetchStep(c.fetched);
    FindNew(c, c.entries);
  }

  lemma OthersFetch(c: Core, w: Writer)
    requires WriterOk(c, w) && (w.Idle? || Recent(Counted(c), w.ticket))
    ensures WriterOk(Counted(c), w) && (w.Idle? || w.ticket <= c.fetched)
  {
  }

  lemma KeepFetch(s: State, a: nat, msg: seq<byte>, crc: Checksum) returns (t: State)
    requires Inv(s, crc) && Enabled(s, Fetch(a, msg))
    ensures t == WriterStep(s, Fetch(a, msg), crc) && Inv(t, crc)
  {
    if NodesFor(|msg|) >= |s.core.ring.heads| - s.core.protectNodes {
      t := s;
    } else {
      t := FetchedState(s, a, msg, crc);
    }
  }

  lemma FetchedState(s: State, a: nat, msg: seq<byte>, crc: Checksum) returns (t: State)
    requires Inv(s, crc) && Enabled(s, Fetch(a, msg))
    ensures t == With(s, Counted(s.core), a, Fetched(msg, s.core.fetched + 1)) && Inv(t, crc)
  {
    var d := FetchCore(s.core, crc);
    var w := Fetched(msg, s.core.fetched + 1);
    forall b | 0 <= b < |s.writers| && b != a ensures WriterOk(d, s.writers[b]) && Apart(w, s.writers[b]) {
      OthersFetch(s.core, s.writers[b]);
    }
    t := Assembled(s, d, a, w, s.sent, crc);
  }

  lemma KeepLoads(s: State, act: Action, crc: Checksum) returns (t: State)
    requires Inv(s, crc) && Enabled(s, act) && (act.LoadWrite? || act.LoadRead?)
    ensures t == WriterStep(s, act, crc) && Inv(t, crc)
  {
    var c, w := s.core, s.writers[act.w];
    var v := if act.LoadWrite? then Loaded(w.msg, w.ticket, c.ring.writeCur, c.reserved)
             else Ready(w.msg, w.ticket, w.writeCur, w.at, c.ring.readCur, c.released);
    t := Assembled(s, c, act.w, v, s.sent, crc);
  }

  /** A writer that wins the exchange has room for its message, however old its view of the reader. */
  lemma RoomAtExchange(c: Core, w: Writer, crc: Checksum)
    requires CoreOk(c, crc) && WriterOk(c, w) && w.Ready? && w.at == c.reserved
    requires NodesFor(|w.msg|) <= Free(c, w.readCur, w.writeCur)
    ensures Used(c.entries) + NodesFor(|w.msg|) + c.protectNodes < |c.ring.heads| && w.writeCur == c.ring.writeCur
  {
    FreeByRemainder(w.readCur, w.at - w.seen, |c.ring.heads|);
  }

  lemma NewMarks(c: Core, msg: seq<byte>, ticket: nat, crc: Checksum) returns (w: Writer)
    requires CoreOk(c, crc) && msg != [] && Recent(c, ticket) && Find(c.entries, ticket) == |c.entries|
    requires Used(c.entries) + NodesFor(|msg|) + c.protectNodes < |c.ring.heads|
    ensures var r, n := c.ring, |c.ring.heads|;
            w == Marks(msg, ticket, r.writeCur, Ahead(r.writeCur, NodesFor(|msg|), n), Ahead(r.writeCur, 1, n))
    ensures WriterOk(Reserving(c, msg, ticket), w)
  {
    var r, n, k, u := c.ring, |c.ring.heads|, NodesFor(|msg|), Used(c.entries);
    var e := Entry(msg, ticket, Marking(1));
    w := Marks(msg, ticket, r.writeCur, Ahead(r.writeCur, k, n), Ahead(r.writeCur, 1, n));
    ListGrown(c.entries, e, |c.entries|, ticket);
    WholeOffset(c.entries);
    AheadAhead(r.readCur, u, k, n);
    AheadAhead(r.readCur, u, 1, n);
  }

  lemma {:induction false} WholeOffset(entries: seq<Entry>)
    ensures Offset(entries, |entries|) == Used(entries)
    decreases entries
  {
    if entries != [] {
      WholeOffset(entries[1..]);
    }
  }

  lemma KeepReserve(s: State, a: nat, crc: Checksum) returns (t: State)
    requires Inv(s, crc) && a < |s.writers| && s.writers[a].Ready? && s.writers[a].at == s.core.reserved
    requires NodesFor(|s.writers[a].msg|) <= Free(s.core, s.writers[a].readCur, s.writers[a].writeCur)
    ensures var c, w := s.core, s.writers[a];
            var k, n := NodesFor(|w.msg|), |c.ring.heads|;
            && k < n && w.writeCur == c.ring.writeCur
            && t == With(s, Reserving(c, w.msg, w.ticket), a,
                         Marks(w.msg, w.ticket, w.writeCur, Ahead(w.writeCur, k, n), Ahead(w.writeCur, 1, n)))
                    .(sent := s.sent + [w.msg])
    ensures Inv(t, crc)
  {
    var c, w := s.core, s.writers[a];
    RoomAtExchange(c, w, crc);
    var d := Reserving(c, w.msg, w.ticket);
    var v := NewMarks(c, w.msg, w.ticket, crc);
    CoreReserve(c, w.msg, w.ticket, crc);
    ReaderReserve(c, w.msg, w.ticket, s.reader);
    OthersAllReserve(s, a, v, crc);
    ListGrown(c.entries, Entry(w.msg, w.ticket, Marking(1)), 0, 0);
    PendingTail(s, c, d, w.msg);
    t := Assembled(s, d, a, v, s.sent + [w.msg], crc);
  }

  lemma OthersAllReserve(s: State, a: nat, v: Writer, crc: Checksum)
    requires Inv(s, crc) && a < |s.writers| && s.writers[a].Ready? && v.Marks? && v.ticket == s.writers[a].ticket
    requires NodesFor(|s.writers[a].msg|) <= |s.core.ring.heads|
    requires Reserving(s.core, s.writers[a].msg, s.writers[a].ticket).ring.Shaped()
    ensures forall b :: 0 <= b < |s.writers| && b != a ==>
              WriterOk(Reserving(s.core, s.writers[a].msg, s.writers[a].ticket), s.writers[b])
    ensures forall b :: 0 <= b < |s.writers| && b != a ==> Apart(v, s.writers[b])
  {
    forall b | 0 <= b < |s.writers| && b != a
      ensures WriterOk(Reserving(s.core, s.writers[a].msg, s.writers[a].ticket), s.writers[b]) && Apart(v, s.writers[b])
    {
      assert Apart(s.writers[a], s.writers[b]) || Apart(s.writers[b], s.writers[a]);
      OthersReserve(s.core, s.writers[a].msg, s.writers[a].ticket, s.writers[b]);
    }
  }

  lemma PendingTail(s: State, c: Core, d: Core, msg: seq<byte>)
    requires s.core == c && Pending(d.entries) == Pending(c.entries) + [msg]
    requires (s.reader.Taken? ==> c.entries != []) && (c.entries != [] ==> d.entries != [])
    requires s.sent == s.received + Pending(if s.reader.Taken? then c.entries[1..] else c.entries)
    ensures s.sent + [msg] ==
            s.received + Pending(if s.reader.Taken? && d.entries != [] then d.entries[1..] else d.entries)
  {
    if s.reader.Taken? {
      assert Pending(c.entries) == [c.entries[0].msg] + Pending(c.entries[1..]);
      assert Pending(d.entries) == [d.entries[0].msg] + Pending(d.entries[1..]);
      assert Pending(d.entries)[1..] == Pending(c.entries)[1..] + [msg];
    }
  }

  lemma KeepDecide(s: State, a: nat, spurious: bool, crc: Checksum) returns (t: State)
    requires Inv(s, crc) && Enabled(s, Decide(a, spurious))
    ensures t == WriterStep(s, Decide(a, spurious), crc) && Inv(t, crc)
  {
    var c, w := s.core, s.writers[a];
    if NodesFor(|w.msg|) > Free(c, w.readCur, w.writeCur) {
      t := Assembled(s, c, a, Idle, s.sent, crc);
    } else if c.ring.writeCur != w.writeCur || spurious {
      t := Assembled(s, c, a, Loaded(w.msg, w.ticket, c.ring.writeCur, c.reserved), s.sent, crc);
    } else {
      t := KeepReserve(s, a, crc);
    }
  }

  /** Writer `w` has brought its block to `phase` and is now `v`. */
  ghost predicate Advances(c: Core, w: Writer, d: Core, v: Writer, i: nat, phase: Phase, crc: Checksum) {
    && i < |c.entries| && !w.Idle? && !w.Conflict? && c.entries[i].ticket == w.ticket
    && (c.entries[i].phase.Marking? || c.entries[i].phase.Copied?) && !phase.Drained?
    && SameCursors(c.ring, d.ring) && d == Advanced(c, d.ring, i, phase)
    && CoreOk(d, crc) && WriterOk(d, v) && (v.Idle? || v.ticket == w.ticket)
  }

  lemma KeepAdvance(s: State, a: nat, d: Core, v: Writer, i: nat, phase: Phase, crc: Checksum) returns (t: State)
    requires Inv(s, crc) && a < |s.writers| && Advances(s.core, s.writers[a], d, v, i, phase, crc)
    ensures t == With(s, d, a, v) && Inv(t, crc)
  {
    var c := s.core;
    ReaderAdvance(c, d.ring, i, phase, s.reader);
    forall b | 0 <= b < |s.writers| && b != a ensures WriterOk(d, s.writers[b]) && Apart(v, s.writers[b]) {
      assert Apart(s.writers[a], s.writers[b]) || Apart(s.writers[b], s.writers[a]);
      OthersAdvance(c, d.ring, i, phase, s.writers[b]);
    }
    PendingAdvanced(s, i, phase);
    t := Assembled(s, d, a, v, s.sent, crc);
  }

  lemma PendingAdvanced(s: State, i: nat, phase: Phase)
    requires i < |s.core.entries|
    requires s.sent == s.received + Pending(if s.reader.Taken? then s.core.entries[1..] else s.core.entries)
    ensures var to := s.core.entries[i := s.core.entries[i].(phase := phase)];
            s.sent == s.received + Pending(if s.reader.Taken? then to[1..] else to)
  {
    var entries := s.core.entries;
    var to := entries[i := entries[i].(phase := phase)];
    ListAdvanced(entries, i, phase, 0, 0);
    assert Pending(entries) == [entries[0].msg] + Pending(entries[1..]);
    assert Pending(to) == [to[0].msg] + Pending(to[1..]);
    assert Pending(to)[1..] == Pending(entries)[1..];
  }

  /** No writer ever meets another's number where it marks. */
  lemma MarkCore(c: Core, w: Writer, crc: Checksum) returns (d: Core, v: Writer, i: nat, phase: Phase)
    requires CoreOk(c, crc) && WriterOk(c, w) && w.Marks? && w.node != w.next
    ensures w.node < |c.ring.heads| && c.ring.heads[w.node].opSeq == 0
    ensures MarkOutcome(c, w) == (d, v) && Advances(c, w, d, v, i, phase, crc)
  {
    i := Find(c.entries, w.ticket);
    phase := Marking(c.entries[i].phase.marked + 1);
    v := MarksOn(c, i, w);
    var ring, es := MarkedRing(c, i, w, crc);
    MarksCarryOver(c, ring, i, v);
    d := CoreAdvance(c, ring, i, phase, es, crc);
    MarkOutcomeIs(c, w, i);
  }

  lemma MarkOutcomeIs(c: Core, w: Writer, i: nat)
    requires c.ring.Shaped() && w.Marks? && w.node < |c.ring.heads| && c.ring.heads[w.node].opSeq == 0
    requires i == Find(c.entries, w.ticket) < |c.entries| && c.entries[i].phase.Marking?
    ensures MarkOutcome(c, w) == (Advanced(c, Mark(c.ring, w.node, SeqOf(w.ticket)), i,
                                           Marking(c.entries[i].phase.marked + 1)),
                                  w.(node := Ahead(w.node, 1, |c.ring.heads|)))
  {
  }

  lemma MarkedRing(c: Core, i: nat, w: Writer, crc: Checksum) returns (ring: Ring, es: seq<Entry>)
    requires Laid(c.ring, c.entries, crc) && WriterOk(c, w) && w.Marks? && i == Find(c.entries, w.ticket)
    requires c.entries[i].phase.marked < c.entries[i].Nodes()
    ensures w.node < |c.ring.heads| && c.ring.heads[w.node].opSeq == 0
    ensures ring == Mark(c.ring, w.node, SeqOf(w.ticket)) && SameCursors(c.ring, ring) && Laid(ring, es, crc)
    ensures es == c.entries[i := c.entries[i].(phase := Marking(c.entries[i].phase.marked + 1))]
  {
    ring, es := MarkedNext(c.ring, c.entries, crc, i, w.node);
  }

  lemma KeepMark(s: State, a: nat, crc: Checksum) returns (t: State)
    requires Inv(s, crc) && Enabled(s, MarkNode(a))
    ensures t == WriterStep(s, MarkNode(a), crc) && Inv(t, crc)
  {
    var d, v, i, phase := MarkCore(s.core, s.writers[a], crc);
    t := KeepAdvance(s, a, d, v, i, phase, crc);
  }

  /** A writer short of the end of its nodes has some left to mark; then the next node is the one behind. */
  lemma MarksOn(c: Core, i: nat, w: Writer) returns (v: Writer)
    requires EntriesOk(c.entries) && WriterOk(c, w) && w.Marks? && w.node != w.next && i == Find(c.entries, w.ticket)
    ensures v == w.(node := Ahead(w.node, 1, |c.ring.heads|))
    ensures c.entries[i].phase.marked < c.entries[i].Nodes() && At(c, i, c.entries[i].phase.marked + 1, v.node)
  {
    assert c.entries[i] in c.entries;
    v := w.(node := Ahead(w.node, 1, |c.ring.heads|));
    AheadAhead(c.ring.readCur, Offset(c.entries, i) + c.entries[i].phase.marked, 1, |c.ring.heads|);
  }

  lemma MarksCarryOver(c: Core, ring: Ring, i: nat, v: Writer)
    requires c.ring.Shaped() && SameCursors(c.ring, ring) && v.Marks? && i == Find(c.entries, v.ticket) < |c.entries|
    requires c.entries[i].msg == v.msg && c.entries[i].phase.Marking? && Recent(c, v.ticket)
    requires At(c, i, 0, v.first) && At(c, i, NodesFor(|v.msg|), v.next)
    requires At(c, i, c.entries[i].phase.marked + 1, v.node)
    ensures WriterOk(Advanced(c, ring, i, Marking(c.entries[i].phase.marked + 1)), v)
  {
    ListAdvanced(c.entries, i, Marking(c.entries[i].phase.marked + 1), i, v.ticket);
  }

  lemma CopyCore(c: Core, w: Writer, crc: Checksum) returns (d: Core, v: Writer, i: nat)
    requires CoreOk(c, crc) && WriterOk(c, w) && w.Marks? && w.node == w.next
    ensures w.first < |c.ring.heads| && |w.msg| <= |c.ring.data| && i == Find(c.entries, w.ticket)
    ensures d == Advanced(c, Fill(c.ring, w.first, w.msg, crc), i, Copied) && v == Publishes(w.msg, w.ticket, w.first)
    ensures Advances(c, w, d, v, i, Copied, crc)
  {
    i, v := Find(c.entries, w.ticket), Publishes(w.msg, w.ticket, w.first);
    AllMarked(c, i, w);
    var ring, es := FilledBlock(c.ring, c.entries, crc, i, w.first);
    ListAdvanced(c.entries, i, Copied, i, w.ticket);
    d := CoreAdvance(c, ring, i, Copied, es, crc);
  }

  lemma KeepCopy(s: State, a: nat, crc: Checksum) returns (t: State)
    requires Inv(s, crc) && Enabled(s, CopyPayload(a))
    ensures t == WriterStep(s, CopyPayload(a), crc) && Inv(t, crc)
  {
    var d, v, i := CopyCore(s.core, s.writers[a], crc);
    t := KeepAdvance(s, a, d, v, i, Copied, crc);
  }

  /** A writer that has come to the end of its nodes has marked them all. */
  lemma AllMarked(c: Core, i: nat, w: Writer)
    requires WriterOk(c, w) && w.Marks? && w.node == w.next && i == Find(c.entries, w.ticket) && EntriesOk(c.entries)
    ensures c.entries[i].phase == Marking(c.entries[i].Nodes())
  {
    assert c.entries[i] in c.entries;
  }

  /** A writer finds its own number on its first node when it publishes. */
  lemma PublishCore(c: Core, w: Writer, crc: Checksum) returns (d: Core, i: nat)
    requires CoreOk(c, crc) && WriterOk(c, w) && w.Publishes?
    ensures w.first < |c.ring.heads| && c.ring.heads[w.first].opSeq == SeqOf(w.ticket) && i == Find(c.entries, w.ticket)
    ensures d == Advanced(c, Publish(c.ring, w.first), i, Published) && Advances(c, w, d, Idle, i, Published, crc)
  {
    i := Find(c.entries, w.ticket);
    var ring, es := PublishedBlock(c.ring, c.entries, crc, i, w.first);
    d := CoreAdvance(c, ring, i, Published, es, crc);
  }

  lemma KeepPublish(s: State, a: nat, crc: Checksum) returns (t: State)
    requires Inv(s, crc) && Enabled(s, SetWritten(a))
    ensures var w := s.writers[a]; w.first < |s.core.ring.heads| && s.core.ring.heads[w.first].opSeq == SeqOf(w.ticket)
    ensures t == WriterStep(s, SetWritten(a), crc) && Inv(t, crc)
  {
    var d, i := PublishCore(s.core, s.writers[a], crc);
    t := KeepAdvance(s, a, d, Idle, i, Published, crc);
  }

  /** The reader sees whole blocks only: a first node at its cursor, a sound size, the number of nodes
      that the size takes, and the payload that was checked. */
  lemma KeepSnapshot(s: State, crc: Checksum) returns (t: State)
    requires Inv(s, crc) && Enabled(s, Snapshot)
    ensures t == ReaderStep(s, Snapshot, crc) && Inv(t, crc)
  {
    t := ReaderStep(s, Snapshot, crc);
    WholeOffset(s.core.entries);
  }

  lemma SizeBound(c: Core, crc: Checksum)
    requires CoreOk(c, crc) && c.entries != []
    ensures 0 < |c.entries[0].msg| < NODE_SIZE * (|c.ring.heads| - c.protectNodes)
  {
    assert Used(c.entries) == c.entries[0].Nodes() + Used(c.entries[1..]);
  }

  lemma {:induction false} OffsetZero(entries: seq<Entry>, m: nat)
    requires m <= |entries|
    ensures Offset(entries, m) == 0 <==> m == 0
    ensures m > 0 ==> entries[0].Nodes() <= Offset(entries, m)
    ensures m <= |entries| && Offset(entries, m) <= Used(entries)
    decreases entries
  {
    if m > 0 {
      OffsetZero(entries[1..], m - 1);
    }
  }

  /** What the reader sees at its cursor. */
  lemma ScanSees(c: Core, count: nat, writeCur: nat, crc: Checksum)
    requires CoreOk(c, crc) && Living(c.entries) && count <= |c.entries| && At(c, count, 0, writeCur)
    ensures c.ring.readCur == writeCur <==> count == 0
    ensures count > 0 ==> c.ring.heads[c.ring.readCur].start
    ensures count > 0 ==> (c.ring.heads[c.ring.readCur].written <==> c.entries[0].phase.Published?)
    ensures count > 0 && c.entries[0].phase.Published? ==>
              SizeAt(c.ring) == |c.entries[0].msg| && 0 < SizeAt(c.ring) < NODE_SIZE * (|c.ring.heads| - c.protectNodes)
  {
    OffsetZero(c.entries, count);
    if count > 0 {
      var e := c.entries[0];
      assert e in c.entries;
      FrontHead(c.ring, c.entries, crc);
      SizeBound(c, crc);
      if e.phase.Published? {
        FrontBlock(c.ring, c.entries, crc);
      }
    }
  }

  lemma KeepScan(s: State, len: nat, crc: Checksum) returns (t: State)
    requires Inv(s, crc) && Enabled(s, Scan(len))
    ensures t == ReaderStep(s, Scan(len), crc) && Inv(t, crc)
  {
    t := ReaderStep(s, Scan(len), crc);
    ScanSees(s.core, s.reader.count, s.reader.writeCur, crc);
  }

  /** The next block's number differs, so the run of the first block's number is that block. */
  lemma ResetSees(c: Core, count: nat, writeCur: nat, crc: Checksum)
    requires CoreOk(c, crc) && Living(c.entries) && 0 < count <= |c.entries| && At(c, count, 0, writeCur)
    requires c.entries[0].phase.Published?
    ensures RunLength(Rotated(c.ring.heads, c.ring.readCur), Distance(c.ring.readCur, writeCur, |c.ring.heads|),
                      c.ring.heads[c.ring.readCur].opSeq) == c.entries[0].Nodes()
    ensures c.entries[0].Nodes() < |c.ring.heads| && Offset(c.entries, 1) == c.entries[0].Nodes()
  {
    var e, es := c.entries[0], c.entries;
    OffsetZero(es, count);
    assert Offset(es, 1) == e.Nodes() + Offset(es[1..], 0);
    FrontBlock(c.ring, es, crc);
    if |es| > 1 {
      assert es[1..][0] == es[1] && AllRecent(c, es[1..]);
      assert Recent(c, e.ticket) && Recent(c, es[1].ticket);
      assert Find(es[1..], e.ticket) == |es| - 1;
      if es[1].ticket < e.ticket {
        SeqsDiffer(es[1].ticket, e.ticket);
      } else {
        SeqsDiffer(e.ticket, es[1].ticket);
      }
    }
    RunIsBlock(c.ring, es, crc, Offset(es, count));
  }

  /** Clearing the oldest block's heads. */
  lemma CoreDrain(c: Core, crc: Checksum) returns (d: Core)
    requires CoreOk(c, crc) && c.entries != [] && c.entries[0].phase.Published?
    ensures c.entries[0].Nodes() <= |c.ring.heads|
    ensures d == Advanced(c, Reset(c.ring, c.entries[0].Nodes()), 0, Drained) && CoreOk(d, crc)
    ensures SameCursors(c.ring, d.ring)
  {
    var ring, es := DrainedBlock(c.ring, c.entries, crc);
    d := Advanced(c, ring, 0, Drained);
    ListAdvanced(c.entries, 0, Drained, 0, 0);
    UniqueAdvanced(c.entries, 0, Drained);
    RecentAdvanced(c, c.entries, 0, Drained);
    RecentSame(c, d, d.entries);
    assert d.entries[1..] == c.entries[1..];
  }

  lemma KeepReset(s: State, crc: Checksum) returns (t: State)
    requires Inv(s, crc) && Enabled(s, ResetHeads)
    ensures t == ReaderStep(s, ResetHeads, crc) && Inv(t, crc)
  {
    t := ReaderStep(s, ResetHeads, crc);
    var c := s.core;
    ResetSees(c, s.reader.count, s.reader.writeCur, crc);
    var d := CoreDrain(c, crc);
    forall a | 0 <= a < |s.writers| ensures WriterOk(d, s.writers[a]) {
      OthersAdvance(c, d.ring, 0, Drained, s.writers[a]);
    }
    ListAdvanced(c.entries, 0, Drained, 1, 0);
  }

  /** The check value of the bytes taken is the stored one, and they are the oldest message. */
  lemma CopyOutStep(s: State, crc: Checksum) returns (t: State)
    requires CoreOk(s.core, crc) && ReaderOk(s.core, s.reader) && s.reader.Cleared?
    ensures s.core.entries != []
    ensures t == s.(reader := Taken(s.reader.end), received := s.received + [s.core.entries[0].msg])
    ensures t == ReaderStep(s, CopyOut, crc)
  {
    var c := s.core;
    FrontPayload(c.ring, c.entries, crc);
    assert ToBytes(Bytes(c.entries[0].msg)) == c.entries[0].msg;
    t := ReaderStep(s, CopyOut, crc);
  }

  lemma KeepCopyOut(s: State, crc: Checksum) returns (t: State)
    requires Inv(s, crc) && Enabled(s, CopyOut)
    ensures t == ReaderStep(s, CopyOut, crc) && Inv(t, crc)
  {
    t := CopyOutStep(s, crc);
    var es := s.core.entries;
    assert s.received + ([es[0].msg] + Pending(es[1..])) == s.received + [es[0].msg] + Pending(es[1..]);
  }

  lemma KeepStore(s: State, crc: Checksum) returns (t: State)
    requires Inv(s, crc) && Enabled(s, StoreCursor)
    ensures t == ReaderStep(s, StoreCursor, crc) && Inv(t, crc)
  {
    t := ReaderStep(s, StoreCursor, crc);
    var c := s.core;
    CoreRelease(c, s.reader.end, crc);
    forall a | 0 <= a < |s.writers| ensures WriterOk(Releasing(c, s.reader.end), s.writers[a]) {
      OthersRelease(c, s.reader.end, s.writers[a]);
    }
  }

  lemma KeepStep(s: State, act: Action, crc: Checksum) returns (t: State)
    requires Inv(s, crc) && Enabled(s, act)
    ensures s.core.ring.Shaped() && t == Step(s, act, crc) && Inv(t, crc)
  {
    match act
    case Fetch(a, msg) => t := KeepFetch(s, a, msg, crc);
    case LoadWrite(a) => t := KeepLoads(s, act, crc);
    case LoadRead(a) => t := KeepLoads(s, act, crc);
    case Decide(a, spurious) => t := KeepDecide(s, a, spurious, crc);
    case MarkNode(a) => t := KeepMark(s, a, crc);
    case CopyPayload(a) => t := KeepCopy(s, a, crc);
    case SetWritten(a) => t := KeepPublish(s, a, crc);
    case Snapshot => t := KeepSnapshot(s, crc);
    case Scan(len) => t := KeepScan(s, len, crc);
    case ResetHeads => t := KeepReset(s, crc);
    case CopyOut => t := KeepCopyOut(s, crc);
    case StoreCursor => t := KeepStore(s, crc);
  }

  /** The interleaving `acts` leads from `s` to `t`. */
  ghost predicate Leads(s: State, acts: seq<Action>, t: State, crc: Checksum)
    decreases acts
  {
    if acts == [] then s == t
    else s.core.ring.Shaped() && Enabled(s, acts[0]) && Leads(Step(s, acts[0], crc), acts[1..], t, crc)
  }

  function Start(ring: Ring, protectNodes: nat, writers: nat): State {
    State(Core(ring, 0, protectNodes, [], 0, 0, 0), seq(writers, _ => Idle), Waiting, [], [])
  }

  lemma StartOk(ring: Ring, protectNodes: nat, writers: nat, crc: Checksum)
    requires Laid(ring, [], crc) && protectNodes < |ring.heads|
    ensures Inv(Start(ring, protectNodes, writers), crc)
  {
  }

  lemma {:induction false} KeepRun(s: State, acts: seq<Action>, t: State, crc: Checksum)
    requires Inv(s, crc) && Leads(s, acts, t, crc)
    ensures Inv(t, crc)
    decreases acts
  {
    if acts != [] {
      var u := KeepStep(s, acts[0], crc);
      KeepRun(u, acts[1..], t, crc);
    }
  }

  function BlockEnd(entries: seq<Entry>, i: nat): nat
    requires i < |entries|
  {
    Offset(entries, i) + entries[i].Nodes()
  }

  /** Blocks lie one behind the other: each ends where the next begins, and all of them leave the
      protected nodes and one more free. */
  ghost predicate RangesApart(c: Core) {
    && (forall i, j :: 0 <= i < j < |c.entries| ==>
          BlockEnd(c.entries, i) <= Offset(c.entries, j) &&
          (j == i + 1 ==> BlockEnd(c.entries, i) == Offset(c.entries, j)))
    && (forall i :: 0 <= i < |c.entries| ==> BlockEnd(c.entries, i) < |c.ring.heads| - c.protectNodes)
  }

  lemma {:induction false} OffsetNext(entries: seq<Entry>, i: nat)
    requires i < |entries|
    ensures Offset(entries, i + 1) == Offset(entries, i) + entries[i].Nodes() <= Used(entries)
    decreases entries
  {
    if i > 0 {
      OffsetNext(entries[1..], i - 1);
    } else {
      assert Offset(entries[1..], 0) == 0;
    }
  }

  lemma {:induction false} OffsetGrows(entries: seq<Entry>, i: nat, j: nat)
    requires i < j < |entries|
    ensures Offset(entries, i) + entries[i].Nodes() <= Offset(entries, j)
    decreases j
  {
    OffsetNext(entries, i);
    if i + 1 < j {
      OffsetGrows(entries, i, j - 1);
      OffsetNext(entries, j - 1);
    }
  }

  lemma InvApart(c: Core, crc: Checksum)
    requires CoreOk(c, crc)
    ensures RangesApart(c)
  {
    var es := c.entries;
    forall i | 0 <= i < |es| ensures BlockEnd(es, i) <= Used(es) {
      OffsetNext(es, i);
    }
    forall i, j | 0 <= i < j < |es|
      ensures BlockEnd(es, i) <= Offset(es, j) && (j == i + 1 ==> BlockEnd(es, i) == Offset(es, j))
    {
      OffsetNext(es, i);
      OffsetGrows(es, i, j);
    }
  }

  /** The messages sent and not yet taken by the reader. */
  function StillInRing(t: State): seq<seq<byte>> {
    Pending(if t.reader.Taken? && t.core.entries != [] then t.core.entries[1..] else t.core.entries)
  }

  lemma InvSays(t: State, crc: Checksum)
    requires Inv(t, crc)
    ensures t.sent == t.received + StillInRing(t) && !t.reader.Fault?
    ensures t.core.ring.readCur == t.core.ring.writeCur ==> t.received == t.sent
    ensures forall a :: 0 <= a < |t.writers| ==> !t.writers[a].Conflict?
  {
    forall a | 0 <= a < |t.writers| ensures !t.writers[a].Conflict? {
      assert WriterOk(t.core, t.writers[a]);
    }
    if t.core.entries != [] {
      assert Used(t.core.entries) == t.core.entries[0].Nodes() + Used(t.core.entries[1..]);
    }
  }

  /** In every interleaving: the messages received are the first of those sent, in the order of the
      exchanges, and the others are still in the ring, so that none is lost; no writer meets another's
      number and the reader meets no bad block; the blocks reserved and not released never overlap nor
      reach the read cursor from behind. */
  lemma ReceivedIsPrefix(ring: Ring, protectNodes: nat, writers: nat, acts: seq<Action>, t: State, crc: Checksum)
    requires Laid(ring, [], crc) && protectNodes < |ring.heads|
    requires Leads(Start(ring, protectNodes, writers), acts, t, crc)
    ensures t.received <= t.sent && t.sent == t.received + StillInRing(t)
    ensures t.core.ring.readCur == t.core.ring.writeCur ==> t.received == t.sent
    ensures !t.reader.Fault? && forall a :: 0 <= a < |t.writers| ==> !t.writers[a].Conflict?
    ensures RangesApart(t.core) && Used(t.core.entries) <= |t.core.ring.heads| - 1 - t.core.protectNodes
  {
    StartOk(ring, protectNodes, writers, crc);
    KeepRun(Start(ring, protectNodes, writers), acts, t, crc);
    InvSays(t, crc);
    InvApart(t.core, crc);
  }
}
