/** What the parties of the shared-memory channel achieve: a reader or a writer that is left alone finishes,
    and from every reachable state all messages can still arrive. */
module MemProgress {
  import opened Base
  import opened Rings
  import opened MemBlocks
  import opened MemSteps
  import opened MemConcurrent

  /** A step in front of a run. */
  lemma StepFirst(s: State, act: Action, u: State, acts: seq<Action>, t: State, crc: Checksum)
    requires s.core.ring.Shaped() && Enabled(s, act) && u == Step(s, act, crc) && Leads(u, acts, t, crc)
    ensures Leads(s, [act] + acts, t, crc)
  {
    assert ([act] + acts)[1..] == acts;
  }

  lemma OneStep(s: State, act: Action, u: State, crc: Checksum)
    requires s.core.ring.Shaped() && Enabled(s, act) && u == Step(s, act, crc)
    ensures Leads(s, [act], u, crc)
  {
    StepFirst(s, act, u, [], u, crc);
  }

  lemma TailOf(s: seq<Action>, t: seq<Action>)
    requires s != []
    ensures (s + t)[0] == s[0] && (s + t)[1..] == s[1..] + t
  {
  }

  /** A run after a run. */
  lemma {:induction false} RunAfter(s: State, acts: seq<Action>, u: State, more: seq<Action>, t: State, crc: Checksum)
    requires Leads(s, acts, u, crc) && Leads(u, more, t, crc)
    ensures Leads(s, acts + more, t, crc)
    decreases acts
  {
    if acts == [] {
      assert acts + more == more;
    } else {
      RunAfter(Step(s, acts[0], crc), acts[1..], u, more, t, crc);
      TailOf(acts, more);
    }
  }

  /** The reader looks at the write cursor. */
  lemma Snaps(s: State, crc: Checksum) returns (u: State)
    requires Inv(s, crc) && s.reader.Waiting?
    ensures s.core.ring.Shaped() && Enabled(s, Snapshot) && u == Step(s, Snapshot, crc) && Inv(u, crc)
    ensures u == s.(reader := Snapped(s.core.ring.writeCur, |s.core.entries|))
  {
    u := KeepSnapshot(s, crc);
  }

  /** Whether the oldest block is there to be taken into a buffer of `len` bytes. */
  predicate Takeable(entries: seq<Entry>, len: nat) {
    entries != [] && entries[0].phase.Published? && |entries[0].msg| <= len
  }

  /** The reader looks at the oldest block. */
  lemma Scans(s: State, len: nat, crc: Checksum) returns (u: State)
    requires Inv(s, crc) && s.reader.Snapped?
    ensures s.core.ring.Shaped() && Enabled(s, Scan(len)) && u == Step(s, Scan(len), crc) && Inv(u, crc)
    ensures u == s.(reader := if s.reader.count > 0 && Takeable(s.core.entries, len)
                              then Found(s.reader.writeCur, s.reader.count, |s.core.entries[0].msg|) else Waiting)
  {
    ScanSees(s.core, s.reader.count, s.reader.writeCur, crc);
    u := KeepScan(s, len, crc);
  }

  /** The reader clears the nodes of the oldest block. */
  lemma Clears(s: State, crc: Checksum) returns (u: State)
    requires Inv(s, crc) && s.reader.Found?
    ensures s.core.ring.Shaped() && Enabled(s, ResetHeads) && u == Step(s, ResetHeads, crc) && Inv(u, crc)
    ensures s.core.entries != [] && u.core.entries == s.core.entries[0 := s.core.entries[0].(phase := Drained)]
    ensures u == s.(core := u.core, reader := u.reader) && u.reader.Cleared?
  {
    ResetSees(s.core, s.reader.count, s.reader.writeCur, crc);
    u := KeepReset(s, crc);
  }

  /** The reader takes its payload. */
  lemma Copies(s: State, crc: Checksum) returns (u: State)
    requires Inv(s, crc) && s.reader.Cleared?
    ensures s.core.ring.Shaped() && Enabled(s, CopyOut) && u == Step(s, CopyOut, crc) && Inv(u, crc)
    ensures s.core.entries != [] && u.reader.Taken?
    ensures u == s.(reader := u.reader, received := s.received + [s.core.entries[0].msg])
  {
    u := CopyOutStep(s, crc);
    var v := KeepCopyOut(s, crc);
  }

  /** The reader moves its cursor. */
  lemma Stores(s: State, crc: Checksum) returns (u: State)
    requires Inv(s, crc) && s.reader.Taken?
    ensures s.core.ring.Shaped() && Enabled(s, StoreCursor) && u == Step(s, StoreCursor, crc) && Inv(u, crc)
    ensures s.core.entries != [] && u.core.entries == s.core.entries[1..]
    ensures u == s.(core := u.core, reader := Waiting)
  {
    u := KeepStore(s, crc);
  }

  /** The reader alone receives the oldest message if it is published and fits the buffer, and otherwise
      changes nothing. */
  lemma ReaderAlone(s: State, len: nat, crc: Checksum) returns (acts: seq<Action>, t: State)
    requires Inv(s, crc) && s.reader.Waiting?
    ensures Leads(s, acts, t, crc) && Inv(t, crc)
    ensures var es := s.core.entries;
            if Takeable(es, len) then
              && acts == [Snapshot, Scan(len), ResetHeads, CopyOut, StoreCursor]
              && t == s.(core := t.core, received := s.received + [es[0].msg]) && t.core.entries == es[1..]
            else acts == [Snapshot, Scan(len)] && t == s
  {
    var s1 := Snaps(s, crc);
    var s2 := Scans(s1, len, crc);
    if Takeable(s.core.entries, len) {
      var s3, more := FoundAlone(s2, crc);
      t := s3;
      StepFirst(s1, Scan(len), s2, more, t, crc);
      StepFirst(s, Snapshot, s1, [Scan(len)] + more, t, crc);
      acts := [Snapshot] + ([Scan(len)] + more);
    } else {
      t := s2;
      OneStep(s1, Scan(len), s2, crc);
      StepFirst(s, Snapshot, s1, [Scan(len)], t, crc);
      acts := [Snapshot] + [Scan(len)];
    }
  }

  /** A reader that has found a block takes it. */
  lemma FoundAlone(s: State, crc: Checksum) returns (t: State, acts: seq<Action>)
    requires Inv(s, crc) && s.reader.Found?
    ensures acts == [ResetHeads, CopyOut, StoreCursor] && Leads(s, acts, t, crc) && Inv(t, crc)
    ensures s.core.entries != [] && t.core.entries == s.core.entries[1..]
    ensures t == s.(core := t.core, reader := Waiting, received := s.received + [s.core.entries[0].msg])
  {
    var s1 := Clears(s, crc);
    var s2 := Copies(s1, crc);
    t := Stores(s2, crc);
    assert s1.core.entries[1..] == s.core.entries[1..];
    OneStep(s2, StoreCursor, t, crc);
    StepFirst(s1, CopyOut, s2, [StoreCursor], t, crc);
    StepFirst(s, ResetHeads, s1, [CopyOut] + [StoreCursor], t, crc);
    acts := [ResetHeads] + ([CopyOut] + [StoreCursor]);
  }

  /** As a writer sees fresh cursors, the nodes it may take are all but those in use, the protected and one. */
  lemma FreeIs(c: Core, crc: Checksum)
    requires CoreOk(c, crc)
    ensures Free(c, c.ring.readCur, c.ring.writeCur) == |c.ring.heads| - 1 - Used(c.entries) - c.protectNodes
  {
    FreeByRemainder(c.ring.readCur, Used(c.entries), |c.ring.heads|);
  }

  /** There is room for a message. */
  predicate Fits(c: Core, msg: seq<byte>) { Used(c.entries) + NodesFor(|msg|) + c.protectNodes < |c.ring.heads| }

  /** A writer fetches a number, unless the message is larger than the ring. */
  lemma Fetches(s: State, a: nat, msg: seq<byte>, crc: Checksum) returns (u: State)
    requires Inv(s, crc) && Enabled(s, Fetch(a, msg))
    ensures s.core.ring.Shaped() && u == Step(s, Fetch(a, msg), crc) && Inv(u, crc)
    ensures u == if NodesFor(|msg|) >= |s.core.ring.heads| - s.core.protectNodes then s
                 else With(s, Counted(s.core), a, Fetched(msg, s.core.fetched + 1))
  {
    u := KeepFetch(s, a, msg, crc);
  }

  /** A writer loads both cursors. */
  lemma Loads(s: State, a: nat, crc: Checksum) returns (u: State)
    requires Inv(s, crc) && a < |s.writers| && s.writers[a].Fetched?
    ensures Leads(s, [LoadWrite(a), LoadRead(a)], u, crc) && Inv(u, crc)
    ensures var c, w := s.core, s.writers[a];
            u == With(s, c, a, Ready(w.msg, w.ticket, c.ring.writeCur, c.reserved, c.ring.readCur, c.released))
  {
    var v := KeepLoads(s, LoadWrite(a), crc);
    u := KeepLoads(v, LoadRead(a), crc);
    OneStep(v, LoadRead(a), u, crc);
    StepFirst(s, LoadWrite(a), v, [LoadRead(a)], u, crc);
    assert [LoadWrite(a), LoadRead(a)] == [LoadWrite(a)] + [LoadRead(a)];
  }

  /** A writer whose view is fresh reserves its nodes if there is room, and else gives up. */
  lemma Decides(s: State, a: nat, crc: Checksum) returns (u: State)
    requires Inv(s, crc) && a < |s.writers| && s.writers[a].Ready?
    requires var c, w := s.core, s.writers[a];
             w.writeCur == c.ring.writeCur && w.at == c.reserved && w.readCur == c.ring.readCur
    ensures s.core.ring.Shaped() && Enabled(s, Decide(a, false)) && u == Step(s, Decide(a, false), crc) && Inv(u, crc)
    ensures var c, w := s.core, s.writers[a];
            if Fits(c, w.msg) then
              && |u.writers| == |s.writers| && u.writers[a].Marks?
              && u == With(s, u.core, a, u.writers[a]).(sent := s.sent + [w.msg])
              && u.core.entries == c.entries + [Entry(w.msg, w.ticket, Marking(1))] && u.writers[a].ticket == w.ticket
            else u == With(s, c, a, Idle)
  {
    FreeIs(s.core, crc);
    u := KeepDecide(s, a, false, crc);
  }

  /** From its fetch on, a writer alone reserves its nodes if there is room, and else gives up. */
  lemma FetchedAlone(s: State, a: nat, crc: Checksum) returns (t: State)
    requires Inv(s, crc) && a < |s.writers| && s.writers[a].Fetched?
    ensures Leads(s, [LoadWrite(a), LoadRead(a)] + [Decide(a, false)], t, crc) && Inv(t, crc)
    ensures |t.writers| == |s.writers|
    ensures var w := s.writers[a];
            if Fits(s.core, w.msg) then
              && t == With(s, t.core, a, t.writers[a]).(sent := s.sent + [w.msg]) && t.writers[a].Marks?
              && t.core.entries == s.core.entries + [Entry(w.msg, w.ticket, Marking(1))]
              && t.writers[a].ticket == w.ticket
            else t == With(s, s.core, a, Idle)
  {
    var u := Loads(s, a, crc);
    t := Decides(u, a, crc);
    OneStep(u, Decide(a, false), t, crc);
    RunAfter(s, [LoadWrite(a), LoadRead(a)], u, [Decide(a, false)], t, crc);
    TwiceWith(s, s.core, a, u.writers[a], t.core, t.writers[a]);
  }

  /** A writer that sees no room gives up, whatever has become of the cursors, and nothing else changes. */
  lemma SeesNoRoom(s: State, a: nat, spurious: bool, crc: Checksum) returns (u: State)
    requires Inv(s, crc) && Enabled(s, Decide(a, spurious)) && s.core.ring.heads != []
    requires NodesFor(|s.writers[a].msg|) > Free(s.core, s.writers[a].readCur, s.writers[a].writeCur)
    ensures s.core.ring.Shaped() && u == Step(s, Decide(a, spurious), crc) == With(s, s.core, a, Idle)
  {
    u := KeepDecide(s, a, spurious, crc);
  }

  /** A writer that sees room but loses the exchange starts over with the cursor it was shown; alone, it then
      reserves its nodes if there is room, and else gives up. */
  lemma LostExchange(s: State, a: nat, spurious: bool, crc: Checksum) returns (t: State)
    requires Inv(s, crc) && Enabled(s, Decide(a, spurious))
    requires var c, w := s.core, s.writers[a];
             c.ring.heads != [] && NodesFor(|w.msg|) <= Free(c, w.readCur, w.writeCur) &&
             (spurious || w.writeCur != c.ring.writeCur)
    ensures Leads(s, [Decide(a, spurious)] + ([LoadRead(a)] + [Decide(a, false)]), t, crc) && Inv(t, crc)
    ensures |t.writers| == |s.writers|
    ensures var w := s.writers[a];
            if Fits(s.core, w.msg) then
              && t == With(s, t.core, a, t.writers[a]).(sent := s.sent + [w.msg]) && t.writers[a].Marks?
              && t.core.entries == s.core.entries + [Entry(w.msg, w.ticket, Marking(1))]
              && t.writers[a].ticket == w.ticket
            else t == With(s, s.core, a, Idle)
  {
    var c := s.core;
    var u := KeepDecide(s, a, spurious, crc);
    var v := KeepLoads(u, LoadRead(a), crc);
    t := Decides(v, a, crc);
    OneStep(v, Decide(a, false), t, crc);
    StepFirst(u, LoadRead(a), v, [Decide(a, false)], t, crc);
    StepFirst(s, Decide(a, spurious), u, [LoadRead(a)] + [Decide(a, false)], t, crc);
    TwiceWith(s, c, a, u.writers[a], c, v.writers[a]);
    TwiceWith(s, c, a, v.writers[a], t.core, t.writers[a]);
  }

  lemma TwiceWith(s: State, c: Core, a: nat, v: Writer, d: Core, w: Writer)
    requires a < |s.writers|
    ensures With(With(s, c, a, v), d, a, w) == With(s, d, a, w)
  {
  }

  /** A writer alone gets its message into the ring exactly when there is room for it; otherwise it gives up and
      nothing is sent. */
  lemma WriterAlone(s: State, a: nat, msg: seq<byte>, crc: Checksum) returns (acts: seq<Action>, t: State)
    requires Inv(s, crc) && Enabled(s, Fetch(a, msg))
    ensures Leads(s, acts, t, crc) && Inv(t, crc) && |t.writers| == |s.writers|
    ensures acts == [Fetch(a, msg)] + if NodesFor(|msg|) >= |s.core.ring.heads| - s.core.protectNodes then []
                                      else [LoadWrite(a), LoadRead(a)] + [Decide(a, false)]
    ensures if Fits(s.core, msg) then
              && t == With(s, t.core, a, t.writers[a]).(sent := s.sent + [msg]) && t.writers[a].Marks?
              && t.core.entries == s.core.entries + [Entry(msg, s.core.fetched + 1, Marking(1))]
              && t.writers[a].ticket == s.core.fetched + 1
            else t == s.(core := t.core) && t.core.entries == s.core.entries && t.core.ring == s.core.ring
  {
    var u := Fetches(s, a, msg, crc);
    if NodesFor(|msg|) >= |s.core.ring.heads| - s.core.protectNodes {
      t, acts := s, [Fetch(a, msg)];
      OneStep(s, Fetch(a, msg), s, crc);
      assert acts == [Fetch(a, msg)] + [];
    } else {
      t := FetchedAlone(u, a, crc);
      acts := [Fetch(a, msg)] + ([LoadWrite(a), LoadRead(a)] + [Decide(a, false)]);
      StepFirst(s, Fetch(a, msg), u, [LoadWrite(a), LoadRead(a)] + [Decide(a, false)], t, crc);
      TwiceWith(s, u.core, a, u.writers[a], t.core, t.writers[a]);
      assert s.writers[a := Idle] == s.writers;
    }
  }

  /** The blocks with block `i` in another phase. */
  function InPhase(es: seq<Entry>, i: nat, phase: Phase): seq<Entry> {
    if i < |es| then es[i := es[i].(phase := phase)] else es
  }

  lemma InPhaseTwice(es: seq<Entry>, i: nat, p: Phase, q: Phase, t: nat)
    requires i == Find(es, t) < |es|
    ensures InPhase(InPhase(es, i, p), i, q) == InPhase(es, i, q) && Find(InPhase(es, i, p), t) == i
  {
    ListAdvanced(es, i, p, 0, t);
  }

  /** Writer `a` is bringing a block into the ring. */
  predicate Writing(s: State, a: nat) {
    a < |s.writers| && (s.writers[a].Marks? || s.writers[a].Publishes?)
  }

  /** How many steps a writer has left. */
  ghost function StepsLeft(s: State, a: nat): nat {
    if !Writing(s, a) then 0
    else if s.writers[a].Publishes? then 1
    else
      var es := s.core.entries;
      var i := Find(es, s.writers[a].ticket);
      2 + if i < |es| && es[i].phase.Marking? && es[i].phase.marked <= es[i].Nodes()
          then es[i].Nodes() - es[i].phase.marked else 0
  }

  /** A step of a writer, which brings its block to another phase. */
  ghost predicate Brings(s: State, a: nat, act: Action, u: State, phase: Phase, crc: Checksum) {
    && Writing(s, a) && s.core.ring.Shaped() && Enabled(s, act) && u == Step(s, act, crc) && Inv(u, crc)
    && |u.writers| == |s.writers| && u == With(s, u.core, a, u.writers[a])
    && u.core.entries == InPhase(s.core.entries, Find(s.core.entries, s.writers[a].ticket), phase)
    && Find(s.core.entries, s.writers[a].ticket) < |s.core.entries|
  }

  lemma Marked(s: State, a: nat, crc: Checksum) returns (u: State, phase: Phase)
    requires Inv(s, crc) && Writing(s, a) && s.writers[a].Marks? && s.writers[a].node != s.writers[a].next
    ensures Brings(s, a, MarkNode(a), u, phase, crc) && StepsLeft(u, a) < StepsLeft(s, a)
    ensures u.writers[a].Marks? && u.writers[a].ticket == s.writers[a].ticket
  {
    var c, w := s.core, s.writers[a];
    var i := Find(c.entries, w.ticket);
    phase := Marking(c.entries[i].phase.marked + 1);
    var v := MarksOn(c, i, w);
    var ring, es := MarkedRing(c, i, w, crc);
    MarkOutcomeIs(c, w, i);
    u := KeepMark(s, a, crc);
    ListAdvanced(c.entries, i, phase, 0, w.ticket);
  }

  lemma Filled(s: State, a: nat, crc: Checksum) returns (u: State)
    requires Inv(s, crc) && Writing(s, a) && s.writers[a].Marks? && s.writers[a].node == s.writers[a].next
    ensures Brings(s, a, CopyPayload(a), u, Copied, crc) && StepsLeft(u, a) < StepsLeft(s, a)
    ensures u.writers[a].Publishes? && u.writers[a].ticket == s.writers[a].ticket
  {
    var d, v, i := CopyCore(s.core, s.writers[a], crc);
    u := KeepCopy(s, a, crc);
  }

  lemma Flagged(s: State, a: nat, crc: Checksum) returns (u: State)
    requires Inv(s, crc) && Writing(s, a) && s.writers[a].Publishes?
    ensures Brings(s, a, SetWritten(a), u, Published, crc) && u.writers[a].Idle?
  {
    var d, i := PublishCore(s.core, s.writers[a], crc);
    u := KeepPublish(s, a, crc);
  }

  /** A writer alone publishes the block it is writing, and nothing else changes. */
  lemma {:induction false} WriterFinishes(s: State, a: nat, crc: Checksum) returns (acts: seq<Action>, t: State)
    requires Inv(s, crc) && Writing(s, a)
    ensures Leads(s, acts, t, crc) && Inv(t, crc) && t == With(s, t.core, a, Idle)
    ensures var i := Find(s.core.entries, s.writers[a].ticket);
            i < |s.core.entries| && t.core.entries == InPhase(s.core.entries, i, Published)
    decreases StepsLeft(s, a)
  {
    var ticket := s.writers[a].ticket;
    if s.writers[a].Publishes? {
      t := Flagged(s, a, crc);
      acts := [SetWritten(a)];
      OneStep(s, SetWritten(a), t, crc);
    } else {
      var u, phase, act;
      if s.writers[a].node != s.writers[a].next {
        u, phase := Marked(s, a, crc);
        act := MarkNode(a);
      } else {
        u := Filled(s, a, crc);
        act, phase := CopyPayload(a), Copied;
      }
      InPhaseTwice(s.core.entries, Find(s.core.entries, ticket), phase, Published, ticket);
      acts, t := WriterFinishes(u, a, crc);
      TwiceWith(s, u.core, a, u.writers[a], t.core, Idle);
      StepFirst(s, act, u, acts, t, crc);
      acts := [act] + acts;
    }
  }

  /** A writer alone puts a published block behind the others exactly when there is room for it; in the end
      nothing else has changed. */
  lemma SendAlone(s: State, a: nat, msg: seq<byte>, crc: Checksum) returns (acts: seq<Action>, t: State)
    requires Inv(s, crc) && Enabled(s, Fetch(a, msg))
    ensures Leads(s, acts, t, crc) && Inv(t, crc)
    ensures if Fits(s.core, msg) then
              && t == s.(core := t.core, sent := s.sent + [msg])
              && t.core.entries == s.core.entries + [Entry(msg, s.core.fetched + 1, Published)]
            else t == s.(core := t.core) && t.core.entries == s.core.entries && t.core.ring == s.core.ring
  {
    acts, t := WriterAlone(s, a, msg, crc);
    if Fits(s.core, msg) {
      acts, t := SentFinishes(s, a, msg, acts, t, crc);
    }
  }

  lemma SentFinishes(s: State, a: nat, msg: seq<byte>, first: seq<Action>, u: State, crc: Checksum)
      returns (acts: seq<Action>, t: State)
    requires a < |s.writers| && s.writers[a].Idle? && AllRecent(s.core, s.core.entries)
    requires Leads(s, first, u, crc) && Inv(u, crc) && Writing(u, a) && u.writers[a].ticket == s.core.fetched + 1
    requires u == With(s, u.core, a, u.writers[a]).(sent := s.sent + [msg])
    requires u.core.entries == s.core.entries + [Entry(msg, s.core.fetched + 1, Marking(1))]
    ensures Leads(s, acts, t, crc) && Inv(t, crc) && t == s.(core := t.core, sent := s.sent + [msg])
    ensures t.core.entries == s.core.entries + [Entry(msg, s.core.fetched + 1, Published)]
  {
    var more;
    more, t := NewFinishes(u, a, s.core.entries, msg, s.core, crc);
    RunAfter(s, first, u, more, t, crc);
    acts := first + more;
    IdleAgain(s, u.core, a, u.writers[a], t.core, msg);
  }

  lemma IdleAgain(s: State, c: Core, a: nat, v: Writer, d: Core, msg: seq<byte>)
    requires a < |s.writers| && s.writers[a].Idle?
    ensures With(With(s, c, a, v).(sent := s.sent + [msg]), d, a, Idle) == s.(core := d, sent := s.sent + [msg])
  {
    assert s.writers[a := v][a := Idle] == s.writers;
  }

  /** The writer of the newest block finishes it. */
  lemma NewFinishes(u: State, a: nat, es: seq<Entry>, msg: seq<byte>, c: Core, crc: Checksum)
      returns (acts: seq<Action>, t: State)
    requires Inv(u, crc) && Writing(u, a) && AllRecent(c, c.entries) && es == c.entries
    requires u.writers[a].ticket == c.fetched + 1 && u.core.entries == es + [Entry(msg, c.fetched + 1, Marking(1))]
    ensures Leads(u, acts, t, crc) && Inv(t, crc) && t == With(u, t.core, a, Idle)
    ensures t.core.entries == es + [Entry(msg, c.fetched + 1, Published)]
  {
    NewBlock(c, msg);
    acts, t := WriterFinishes(u, a, crc);
  }

  lemma NewBlock(c: Core, msg: seq<byte>)
    requires AllRecent(c, c.entries)
    ensures var es, e := c.entries, Entry(msg, c.fetched + 1, Marking(1));
            && Find(es + [e], e.ticket) == |es|
            && InPhase(es + [e], |es|, Published) == es + [e.(phase := Published)]
  {
    FindNew(c, c.entries);
    ListGrown(c.entries, Entry(msg, c.fetched + 1, Marking(1)), 0, c.fetched + 1);
  }

  /** Writer `w` is bringing the block with this ticket into the ring. */
  predicate Owns(w: Writer, ticket: nat) { (w.Marks? || w.Publishes?) && w.ticket == ticket }

  ghost predicate Unfinished(e: Entry) { e.phase.Marking? || e.phase.Copied? }

  ghost predicate Owned(writers: seq<Writer>, e: Entry) {
    Unfinished(e) ==> exists a :: 0 <= a < |writers| && Owns(writers[a], e.ticket)
  }

  /** Each block that is not published has a writer that is bringing it into the ring. */
  ghost predicate AllOwned(s: State) { forall e :: e in s.core.entries ==> Owned(s.writers, e) }

  /** A change of one writer that ends its work on no unfinished block. */
  lemma OwnersStay(ws: seq<Writer>, a: nat, w: Writer, e: Entry)
    requires a < |ws| && Owned(ws, e) && (Owns(ws[a], e.ticket) ==> Owns(w, e.ticket))
    ensures Owned(ws[a := w], e)
  {
    if Unfinished(e) {
      var b :| 0 <= b < |ws| && Owns(ws[b], e.ticket);
      assert Owns(ws[a := w][b], e.ticket);
    }
  }

  lemma {:induction false} UniqueAt(es: seq<Entry>, i: nat, j: nat)
    requires Unique(es) && i < j < |es|
    ensures es[i].ticket != es[j].ticket
    decreases es
  {
    if i > 0 {
      UniqueAt(es[1..], i - 1, j - 1);
    } else {
      FindsFirst(es[1..], j - 1);
    }
  }

  lemma {:induction false} FindsFirst(es: seq<Entry>, j: nat)
    requires j < |es|
    ensures Find(es, es[j].ticket) <= j
    decreases es
  {
    if j > 0 {
      FindsFirst(es[1..], j - 1);
    }
  }

  /** A step of a writer on its block keeps every unfinished block owned. */
  lemma BringsOwned(s: State, a: nat, act: Action, u: State, phase: Phase, crc: Checksum)
    requires Inv(s, crc) && AllOwned(s) && Brings(s, a, act, u, phase, crc)
    requires Owns(u.writers[a], s.writers[a].ticket) || phase.Published?
    ensures AllOwned(u)
  {
    var es, i, ticket := s.core.entries, Find(s.core.entries, s.writers[a].ticket), s.writers[a].ticket;
    forall e | e in u.core.entries ensures Owned(u.writers, e) {
      var j :| 0 <= j < |es| && u.core.entries[j] == e;
      assert es[j] in es;
      if j == i {
        assert Owns(u.writers[a], ticket) ==> Owned(u.writers, e);
      } else {
        UniqueAt(es, if i < j then i else j, if i < j then j else i);
        OwnersStay(s.writers, a, u.writers[a], e);
      }
    }
  }

  /** So does a step of a writer that is writing no block, if it is on a block that it adds. */
  lemma OthersOwned(s: State, a: nat, u: State)
    requires AllOwned(s) && a < |s.writers| && !Writing(s, a)
    requires |u.writers| == |s.writers| && u.writers == s.writers[a := u.writers[a]]
    requires forall e :: e in u.core.entries ==> e in s.core.entries || Owns(u.writers[a], e.ticket)
    ensures AllOwned(u)
  {
    forall e | e in u.core.entries ensures Owned(u.writers, e) {
      if e in s.core.entries {
        OwnersStay(s.writers, a, u.writers[a], e);
      }
    }
  }

  lemma ReaderOwned(s: State, u: State)
    requires AllOwned(s) && u.writers == s.writers
    requires forall e :: e in u.core.entries ==> e in s.core.entries || !Unfinished(e)
    ensures AllOwned(u)
  {
  }

  lemma DecideOwned(s: State, a: nat, spurious: bool, crc: Checksum)
    requires Inv(s, crc) && AllOwned(s) && Enabled(s, Decide(a, spurious))
    ensures s.core.ring.Shaped() && AllOwned(Step(s, Decide(a, spurious), crc))
  {
    var u := KeepDecide(s, a, spurious, crc);
    OthersOwned(s, a, u);
  }

  lemma ReaderStepOwned(s: State, act: Action, crc: Checksum)
    requires Inv(s, crc) && AllOwned(s) && Enabled(s, act)
    requires act.Snapshot? || act.Scan? || act.ResetHeads? || act.CopyOut? || act.StoreCursor?
    ensures s.core.ring.Shaped() && AllOwned(Step(s, act, crc))
  {
    var u;
    match act
    case Snapshot => u := Snaps(s, crc);
    case Scan(len) => u := Scans(s, len, crc);
    case ResetHeads => u := Clears(s, crc);
    case CopyOut => u := Copies(s, crc);
    case StoreCursor => u := Stores(s, crc);
    ReaderOwned(s, u);
  }

  lemma MarkOwned(s: State, a: nat, crc: Checksum)
    requires Inv(s, crc) && AllOwned(s) && Enabled(s, MarkNode(a))
    ensures s.core.ring.Shaped() && AllOwned(Step(s, MarkNode(a), crc))
  {
    var u, phase := Marked(s, a, crc);
    BringsOwned(s, a, MarkNode(a), u, phase, crc);
  }

  lemma CopyOwned(s: State, a: nat, crc: Checksum)
    requires Inv(s, crc) && AllOwned(s) && Enabled(s, CopyPayload(a))
    ensures s.core.ring.Shaped() && AllOwned(Step(s, CopyPayload(a), crc))
  {
    var u := Filled(s, a, crc);
    BringsOwned(s, a, CopyPayload(a), u, Copied, crc);
  }

  lemma FlagOwned(s: State, a: nat, crc: Checksum)
    requires Inv(s, crc) && AllOwned(s) && Enabled(s, SetWritten(a))
    ensures s.core.ring.Shaped() && AllOwned(Step(s, SetWritten(a), crc))
  {
    var u := Flagged(s, a, crc);
    BringsOwned(s, a, SetWritten(a), u, Published, crc);
  }

  lemma FetchOwned(s: State, a: nat, msg: seq<byte>, crc: Checksum)
    requires Inv(s, crc) && AllOwned(s) && Enabled(s, Fetch(a, msg))
    ensures s.core.ring.Shaped() && AllOwned(Step(s, Fetch(a, msg), crc))
  {
    var u := Fetches(s, a, msg, crc);
    if u != s {
      OthersOwned(s, a, u);
    }
  }

  lemma LoadOwned(s: State, act: Action, crc: Checksum)
    requires Inv(s, crc) && AllOwned(s) && Enabled(s, act) && (act.LoadWrite? || act.LoadRead?)
    ensures s.core.ring.Shaped() && AllOwned(Step(s, act, crc))
  {
    var u := KeepLoads(s, act, crc);
    OthersOwned(s, act.w, u);
  }

  lemma KeepOwned(s: State, act: Action, crc: Checksum)
    requires Inv(s, crc) && AllOwned(s) && Enabled(s, act)
    ensures s.core.ring.Shaped() && AllOwned(Step(s, act, crc))
  {
    match act
    case Fetch(a, msg) => FetchOwned(s, a, msg, crc);
    case LoadWrite(a) => LoadOwned(s, act, crc);
    case LoadRead(a) => LoadOwned(s, act, crc);
    case Decide(a, spurious) => DecideOwned(s, a, spurious, crc);
    case MarkNode(a) => MarkOwned(s, a, crc);
    case CopyPayload(a) => CopyOwned(s, a, crc);
    case SetWritten(a) => FlagOwned(s, a, crc);
    case Snapshot => ReaderStepOwned(s, act, crc);
    case Scan(len) => ReaderStepOwned(s, act, crc);
    case ResetHeads => ReaderStepOwned(s, act, crc);
    case CopyOut => ReaderStepOwned(s, act, crc);
    case StoreCursor => ReaderStepOwned(s, act, crc);
  }

  lemma {:induction false} KeepOwnedRun(s: State, acts: seq<Action>, t: State, crc: Checksum)
    requires Inv(s, crc) && AllOwned(s) && Leads(s, acts, t, crc)
    ensures Inv(t, crc) && AllOwned(t)
    decreases acts
  {
    if acts != [] {
      KeepOwned(s, acts[0], crc);
      var u := KeepStep(s, acts[0], crc);
      KeepOwnedRun(u, acts[1..], t, crc);
    }
  }

  /** The reader finishes what it has begun. */
  lemma ReaderSettles(s: State, len: nat, crc: Checksum) returns (acts: seq<Action>, t: State)
    requires Inv(s, crc)
    ensures Leads(s, acts, t, crc) && Inv(t, crc) && t.reader.Waiting? && t.sent == s.sent
  {
    acts, t := [], s;
    if s.reader.Snapped? {
      t := Scans(s, len, crc);
      acts := [Scan(len)];
      OneStep(s, Scan(len), t, crc);
    }
    if t.reader.Found? {
      var u, more := FoundAlone(t, crc);
      RunAfter(s, acts, t, more, u, crc);
      acts, t := acts + more, u;
    } else if t.reader.Cleared? {
      var u := Copies(t, crc);
      OneStep(t, CopyOut, u, crc);
      RunAfter(s, acts, t, [CopyOut], u, crc);
      acts, t := acts + [CopyOut], u;
    }
    if t.reader.Taken? {
      var u := Stores(t, crc);
      OneStep(t, StoreCursor, u, crc);
      RunAfter(s, acts, t, [StoreCursor], u, crc);
      acts, t := acts + [StoreCursor], u;
    }
  }

  /** How many blocks are not published. */
  function Open(es: seq<Entry>): nat
    decreases es
  {
    if es == [] then 0 else (if es[0].phase.Published? then 0 else 1) + Open(es[1..])
  }

  lemma {:induction false} OpenLess(es: seq<Entry>, i: nat)
    requires i < |es| && !es[i].phase.Published?
    ensures Open(InPhase(es, i, Published)) < Open(es)
    decreases es
  {
    var to := InPhase(es, i, Published);
    if i == 0 {
      assert to[1..] == es[1..];
    } else {
      assert to[1..] == InPhase(es[1..], i - 1, Published);
      OpenLess(es[1..], i - 1);
    }
  }

  lemma {:induction false} NoneOpen(es: seq<Entry>) returns (i: nat)
    ensures if Open(es) == 0 then forall e :: e in es ==> e.phase.Published? else i < |es| && !es[i].phase.Published?
    decreases es
  {
    i := 0;
    if es != [] && es[0].phase.Published? {
      i := NoneOpen(es[1..]);
      i := i + 1;
      assert es == [es[0]] + es[1..];
    }
  }

  lemma {:induction false} NotDrained(es: seq<Entry>, i: nat)
    requires Living(es) && i < |es|
    ensures !es[i].phase.Drained?
    decreases es
  {
    if i > 0 {
      NotDrained(es[1..], i - 1);
    }
  }

  /** The writers finish, one after the other. */
  lemma {:induction false} WritersFinish(s: State, crc: Checksum) returns (acts: seq<Action>, t: State)
    requires Inv(s, crc) && AllOwned(s) && s.reader.Waiting?
    ensures Leads(s, acts, t, crc) && Inv(t, crc) && t.reader.Waiting? && t.sent == s.sent && t.received == s.received
    ensures forall e :: e in t.core.entries ==> e.phase.Published?
    decreases Open(s.core.entries)
  {
    acts, t := [], s;
    var i := NoneOpen(s.core.entries);
    if Open(s.core.entries) > 0 {
      NotDrained(s.core.entries, i);
      var e := s.core.entries[i];
      assert e in s.core.entries && Owned(s.writers, e);
      var a :| 0 <= a < |s.writers| && Owns(s.writers[a], e.ticket);
      var u;
      acts, u := WriterFinishes(s, a, crc);
      BlockFound(s, i);
      OpenLess(s.core.entries, i);
      KeepOwnedRun(s, acts, u, crc);
      var more;
      more, t := WritersFinish(u, crc);
      RunAfter(s, acts, u, more, t, crc);
      acts := acts + more;
    }
  }

  lemma BlockFound(s: State, i: nat)
    requires Unique(s.core.entries) && i < |s.core.entries|
    ensures Find(s.core.entries, s.core.entries[i].ticket) == i
  {
    var es := s.core.entries;
    FindsFirst(es, i);
    var j := Find(es, es[i].ticket);
    if j < i {
      UniqueAt(es, j, i);
    }
  }

  /** The reader takes one message after the other. */
  lemma {:induction false} ReaderDrains(s: State, len: nat, crc: Checksum) returns (acts: seq<Action>, t: State)
    requires Inv(s, crc) && s.reader.Waiting?
    requires forall e :: e in s.core.entries ==> e.phase.Published? && |e.msg| <= len
    ensures Leads(s, acts, t, crc) && Inv(t, crc) && t.core.entries == [] && t.received == s.sent == t.sent
    decreases |s.core.entries|
  {
    acts, t := [], s;
    if s.core.entries != [] {
      var u;
      acts, u := ReaderAlone(s, len, crc);
      var more;
      more, t := ReaderDrains(u, len, crc);
      RunAfter(s, acts, u, more, t, crc);
      acts := acts + more;
    }
  }

  lemma {:induction false} PendingHas(es: seq<Entry>, e: Entry)
    requires e in es
    ensures e.msg in Pending(es)
    decreases es
  {
    if e != es[0] {
      PendingHas(es[1..], e);
    }
  }

  /** From every reachable state all that was sent can still be received, whatever the parties were doing: the
      reader finishes what it has begun, the writers finish their blocks, and the reader takes them. */
  lemma AllCanArrive(ring: Ring, protectNodes: nat, writers: nat, before: seq<Action>, s: State, len: nat,
                     crc: Checksum) returns (acts: seq<Action>, t: State)
    requires Laid(ring, [], crc) && protectNodes < |ring.heads|
    requires Leads(Start(ring, protectNodes, writers), before, s, crc)
    requires forall m :: m in s.sent ==> |m| <= len
    ensures Leads(s, acts, t, crc) && t.received == t.sent == s.sent
  {
    StartOk(ring, protectNodes, writers, crc);
    KeepOwnedRun(Start(ring, protectNodes, writers), before, s, crc);
    var a, u := ReaderSettles(s, len, crc);
    KeepOwnedRun(s, a, u, crc);
    var b, v := WritersFinish(u, crc);
    forall e | e in v.core.entries ensures |e.msg| <= len {
      PendingHas(v.core.entries, e);
      assert e.msg in v.sent;
    }
    var c;
    c, t := ReaderDrains(v, len, crc);
    RunAfter(u, b, v, c, t, crc);
    RunAfter(s, a, u, b + c, t, crc);
    acts := a + (b + c);
  }
}
