/** The operations of the static circular allocator, each against the list of its blocks. */
module StaticBuffers {
  import opened Base
  import opened BlockList
  import opened CircleLayout
  import opened Buffers

  ghost predicate HasRoom(st: Static, a: seq<nat>, end: End, full: nat)
    requires Tracks(st.head, st.tail, st.index, a)
  {
    exists at: nat :: st.Room(a, end, at, full)
  }

  /** What a push returns and leaves, given whether there was room. */
  ghost predicate PushOutcome(st: Static, a: seq<nat>, end: End, s: nat,
                              st': Static, a': seq<nat>, status: Status, pointer: Option<nat>)
    requires Tracks(st.head, st.tail, st.index, a) && AllHeads(st.mem, a) && AllHeads(st'.mem, a')
  {
    && |st'.mem| == |st.mem| && |st'.index| == |st.index|
    && if !HasRoom(st, a, end, FullSize(s)) then
         status == BuffLimit && pointer == None && a' == a && BlocksAt(st'.mem, a') == BlocksAt(st.mem, a)
       else
         status == Success && pointer.Some? && exists b: Block ::
           && b.Ok() && b.size == s && b.used == 0 && b.pointer == pointer.value
           && BlocksAt(st'.mem, a') == Joined(end, BlocksAt(st.mem, a), b)
  }

  /** The place of a new block behind the last one, wrapping to the start of the region. */
  method PlaceBack(st: Static, ghost a: seq<nat>, ghost split: nat, fs: nat) returns (at: Option<nat>)
    requires st.Ok(a, split) && fs > 0 && Next(st.tail, |st.index|) != st.head && st.index[st.tail].Some?
    ensures at.Some? <==> HasRoom(st, a, Back, fs)
    ensures at.Some? ==> st.Room(a, Back, at.value, fs)
  {
    EndsNamed(st, a, split);
    RoomBackIff(st, a, fs);
    var oldest, free := st.index[st.head].value, st.index[st.tail].value;
    if free >= oldest {
      if |st.mem| - free >= fs {
        return Some(free);
      } else if oldest <= fs {
        return None;
      } else {
        return Some(0);
      }
    } else if oldest - free <= fs {
      return None;
    } else {
      return Some(free);
    }
  }

  /** Creates the block at `at` and moves the tail behind it. */
  method LinkBack(st: Static, at: nat, s: nat) returns (st': Static)
    requires |st.index| >= 2 && st.head < |st.index| && st.tail < |st.index| && at < |st.mem|
    ensures st' == Pushed(st, Back, at, s)
  {
    NeighboursByRemainder(st.tail, |st.index|);
    st' := st.(mem := st.mem[at := Head(s, 0, at + HEAD_SIZE)], index := st.index[st.tail := Some(at)]);
    st' := st'.(tail := (st'.tail + 1) % |st'.index|);
    st' := st'.(index := st'.index[st'.tail := Some(at + FullSize(s))]);
  }

  method InsertBack(st: Static, ghost a: seq<nat>, ghost split: nat, s: nat)
      returns (st': Static, status: Status, pointer: Option<nat>, ghost a': seq<nat>, ghost split': nat)
    requires st.Ok(a, split) && Next(st.tail, |st.index|) != st.head && st.index[st.tail].Some?
    ensures st'.Ok(a', split') && PushOutcome(st, a, Back, s, st', a', status, pointer)
    ensures status != Success ==> !HasRoom(st', a', Back, FullSize(s))
  {
    var place := PlaceBack(st, a, split, FullSize(s));
    if place.None? {
      return st, BuffLimit, None, a, split;
    }
    split' := PushedOk(st, a, split, Back, place.value, s);
    st' := LinkBack(st, place.value, s);
    a', status, pointer := a + [place.value], Success, Some(place.value + HEAD_SIZE);
    PushSucceeds(st, a, Back, place.value, s, st', a', pointer);
  }

  method StaticPushBack(st: Static, ghost a: seq<nat>, ghost split: nat, s: nat)
      returns (st': Static, status: Status, pointer: Option<nat>, ghost a': seq<nat>, ghost split': nat)
    requires st.Ok(a, split)
    ensures st'.Ok(a', split') && PushOutcome(st, a, Back, s, st', a', status, pointer)
    ensures status != Success ==> !HasRoom(st', a', Back, FullSize(s))
    ensures status == (if HasRoom(st, a, Back, FullSize(s)) then Success else BuffLimit)
    ensures pointer.Some? <==> status == Success
    ensures |st'.mem| == |st.mem| && |st'.index| == |st.index|
  {
    NeighboursByRemainder(st.tail, |st.index|);
    if (st.tail + 1) % |st.index| == st.head {
      return st, BuffLimit, None, a, split;
    }
    StartedOk(st, a, split);
    EndsNamed(st, a, split);
    var st0 := st;
    if st.index[st.head].None? || st.index[st.tail].None? {
      st0 := Static(st.mem, 0, 0, st.index[0 := Some(0)]);
    }
    st', status, pointer, a', split' := InsertBack(st0, a, split, s);
  }

  lemma PushSucceeds(st: Static, a: seq<nat>, end: End, at: nat, s: nat, st': Static, a': seq<nat>,
                     pointer: Option<nat>)
    requires Tracks(st.head, st.tail, st.index, a) && AllHeads(st.mem, a) && st.Room(a, end, at, FullSize(s))
    requires at < |st.mem| && st' == Pushed(st, end, at, s) && a' == Joined(end, a, at)
    requires Added(st, a, st', end, at) && pointer == Some(at + HEAD_SIZE)
    ensures AllHeads(st'.mem, a') && PushOutcome(st, a, end, s, st', a', Success, pointer)
  {
    var b := BlockAt(st'.mem, at);
    assert b.Ok() && b.size == s && b.used == 0 && b.pointer == pointer.value;
  }

  /** The place of a new block before the oldest one, wrapping to the end of the region. */
  method PlaceFront(st: Static, ghost a: seq<nat>, ghost split: nat, fs: nat) returns (at: Option<nat>)
    requires st.Ok(a, split) && fs > 0 && Next(st.tail, |st.index|) != st.head && st.index[st.tail].Some?
    ensures at.Some? <==> HasRoom(st, a, Front, fs)
    ensures at.Some? ==> st.Room(a, Front, at.value, fs)
  {
    EndsNamed(st, a, split);
    RoomFrontIff(st, a, fs);
    var oldest, free := st.index[st.head].value, st.index[st.tail].value;
    if free >= oldest {
      if oldest >= fs {
        return Some(oldest - fs);
      } else if |st.mem| - free <= fs {
        return None;
      } else {
        return Some(|st.mem| - fs);
      }
    } else if oldest - free <= fs {
      return None;
    } else {
      return Some(oldest - fs);
    }
  }

  /** Creates the block at `at` and moves the head before it. */
  method LinkFront(st: Static, at: nat, s: nat) returns (st': Static)
    requires |st.index| >= 2 && st.head < |st.index| && st.tail < |st.index| && at < |st.mem|
    ensures st' == Pushed(st, Front, at, s)
  {
    NeighboursByRemainder(st.head, |st.index|);
    st' := st.(mem := st.mem[at := Head(s, 0, at + HEAD_SIZE)]);
    st' := st'.(head := (st'.head + |st'.index| - 1) % |st'.index|);
    st' := st'.(index := st'.index[st'.head := Some(at)]);
  }

  method InsertFront(st: Static, ghost a: seq<nat>, ghost split: nat, s: nat)
      returns (st': Static, status: Status, pointer: Option<nat>, ghost a': seq<nat>, ghost split': nat)
    requires st.Ok(a, split) && Next(st.tail, |st.index|) != st.head && st.index[st.tail].Some?
    ensures st'.Ok(a', split') && PushOutcome(st, a, Front, s, st', a', status, pointer)
    ensures status != Success ==> !HasRoom(st', a', Front, FullSize(s))
  {
    var place := PlaceFront(st, a, split, FullSize(s));
    if place.None? {
      return st, BuffLimit, None, a, split;
    }
    split' := PushedOk(st, a, split, Front, place.value, s);
    st' := LinkFront(st, place.value, s);
    a', status, pointer := [place.value] + a, Success, Some(place.value + HEAD_SIZE);
    PushSucceeds(st, a, Front, place.value, s, st', a', pointer);
  }

  method StaticPushFront(st: Static, ghost a: seq<nat>, ghost split: nat, s: nat)
      returns (st': Static, status: Status, pointer: Option<nat>, ghost a': seq<nat>, ghost split': nat)
    requires st.Ok(a, split)
    ensures st'.Ok(a', split') && PushOutcome(st, a, Front, s, st', a', status, pointer)
    ensures status != Success ==> !HasRoom(st', a', Front, FullSize(s))
    ensures status == (if HasRoom(st, a, Front, FullSize(s)) then Success else BuffLimit)
    ensures pointer.Some? <==> status == Success
    ensures |st'.mem| == |st.mem| && |st'.index| == |st.index|
  {
    NeighboursByRemainder(st.tail, |st.index|);
    if (st.tail + 1) % |st.index| == st.head {
      return st, BuffLimit, None, a, split;
    }
    StartedOk(st, a, split);
    EndsNamed(st, a, split);
    var st0 := st;
    if st.index[st.head].None? || st.index[st.tail].None? {
      st0 := Static(st.mem, 0, 0, st.index[0 := Some(0)]);
    }
    st', status, pointer, a', split' := InsertFront(st0, a, split, s);
  }

  /** Where the header of the block at one end lies. */
  method EndAddress(st: Static, ghost a: seq<nat>, ghost split: nat, end: End) returns (at: nat)
    requires st.Ok(a, split) && a != []
    ensures at == Pick(a, end) < |st.mem|
    ensures var b := Pick(BlocksAt(st.mem, a), end); st.mem[at] == Head(b.size, b.used, b.pointer)
  {
    EndCell(st, a, split, end);
    NeighboursByRemainder(st.tail, |st.index|);
    at := st.index[if end.Back? then (st.tail + |st.index| - 1) % |st.index| else st.head].value;
  }

  /** The header of the block at one end. */
  method StaticHead(st: Static, ghost a: seq<nat>, ghost split: nat, end: End) returns (h: Cell)
    requires st.Ok(a, split) && a != []
    ensures var b := Pick(BlocksAt(st.mem, a), end); h == Head(b.size, b.used, b.pointer)
  {
    var at := EndAddress(st, a, split, end);
    h := st.mem[at];
  }

  /** The raw content of the block at one end. */
  method StaticContent(st: Static, ghost a: seq<nat>, ghost split: nat, end: End) returns (data: seq<byte>)
    requires st.Ok(a, split) && a != []
    ensures data == Pick(BlocksAt(st.mem, a), end).bytes
  {
    var h := StaticHead(st, a, split, end);
    ghost var b := Pick(BlocksAt(st.mem, a), end);
    assert b == BlockAt(st.mem, Pick(a, end));
    data := seq<byte>(h.size, j requires 0 <= j < h.size => ByteIn(st.mem[h.pointer + j]));
    assert data == b.bytes;
  }

  /** Counts up to `s` more bytes of the block at one end as used. */
  method StaticTake(st: Static, ghost a: seq<nat>, ghost split: nat, end: End, s: nat)
      returns (st': Static, taken: nat, full: bool)
    requires st.Ok(a, split) && a != []
    ensures st'.Ok(a, split) && st' == st.(mem := st'.mem) && |st'.mem| == |st.mem|
    ensures var b := Pick(BlocksAt(st.mem, a), end);
            && taken == (if s > b.Unread() then b.Unread() else s)
            && full == (b.Pop(taken).Unread() == 0)
            && BlocksAt(st'.mem, a) == Replaced(end, BlocksAt(st.mem, a), b.Pop(taken))
  {
    var at := EndAddress(st, a, split, end);
    var h := st.mem[at];
    taken := if s > h.size - h.used then h.size - h.used else s;
    ghost var g := EndTaken(st, a, split, end, taken);
    st' := st.(mem := st.mem[at := h.(used := h.used + taken)]);
    assert st' == g;
    full := h.used + taken == h.size;
  }

  /** Takes `s` bytes of the block at one end; resets the index once the last block is freed. */
  method StaticPop(st: Static, ghost a: seq<nat>, ghost split: nat, end: End, s: nat, free: bool)
      returns (st': Static, taken: nat, freed: bool, empty: bool, ghost a': seq<nat>, ghost split': nat)
    requires st.Ok(a, split) && a != []
    ensures st'.Ok(a', split') && |st'.mem| == |st.mem| && |st'.index| == |st.index|
    ensures Drained(BlocksAt(st'.mem, a'), taken, freed) == Drain(BlocksAt(st.mem, a), end, s, free)
    ensures empty == (BlocksAt(st'.mem, a') == [])
  {
    var full;
    st', taken, full := StaticTake(st, a, split, end, s);
    a', split', freed := a, split, free && full;
    if freed {
      st', a', split' := StaticFree(st', a, split, end);
    }
    EndsNamed(st', a', split');
    empty := st'.head == st'.tail;
  }

  method StaticFree(st: Static, ghost a: seq<nat>, ghost split: nat, end: End)
      returns (st': Static, ghost a': seq<nat>, ghost split': nat)
    requires st.Ok(a, split) && a != []
    ensures st'.Ok(a', split') && |st'.mem| == |st.mem| && |st'.index| == |st.index|
    ensures BlocksAt(st'.mem, a') == Dropped(end, BlocksAt(st.mem, a))
  {
    split' := FreedOk(st, a, split, end);
    BlocksDropped(st.mem, a, end);
    a' := Dropped(end, a);
    st' := Unlink(st, end);
  }

  /** Gives up the slot of the block at one end. */
  method Unlink(st: Static, end: End) returns (st': Static)
    requires |st.index| >= 2 && st.head < |st.index| && st.tail < |st.index|
    ensures st' == Freed(st, end)
  {
    NeighboursByRemainder(st.head, |st.index|);
    NeighboursByRemainder(st.tail, |st.index|);
    if end.Back? {
      st' := st.(index := st.index[st.tail := None]);
      st' := st'.(tail := (st.tail + |st.index| - 1) % |st.index|);
    } else {
      st' := st.(index := st.index[st.head := None]);
      st' := st'.(head := (st.head + 1) % |st.index|);
    }
    if st'.head == st'.tail {
      st' := Static(st'.mem, 0, 0, st'.index[0 := Some(0)]);
    }
  }

  /** A caller stores `data` at the first free byte of the block at one end. */
  method StaticWrite(st: Static, ghost a: seq<nat>, ghost split: nat, end: End, data: seq<byte>) returns (st': Static)
    requires st.Ok(a, split) && a != [] && |data| <= Pick(BlocksAt(st.mem, a), end).Unread()
    ensures st'.Ok(a, split) && |st'.mem| == |st.mem| && st'.index == st.index
    ensures var b := BlocksAt(st.mem, a); BlocksAt(st'.mem, a) == Replaced(end, b, Pick(b, end).Write(data))
  {
    var h := StaticHead(st, a, split, end);
    ghost var g := EndStored(st, a, split, end, data);
    st' := st.(mem := Stored(st.mem, h.pointer + h.used, data));
    assert st' == g;
  }
}
