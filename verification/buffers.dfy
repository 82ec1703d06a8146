/** The buffer manager: blocks kept in order either in one static region used as a
    double-ended circular allocator, or in a list of separately allocated blocks. */
module Buffers {
  import opened Base
  import opened BlockList
  import opened CircleLayout

  /** The three words a block header takes, and the padded block sizes. */
  const WORD_SIZE: nat := 8
  const HEAD_SIZE: nat := 24

  /** The size rounded up to whole words. */
  function PaddingSize(s: nat): (p: nat)
    ensures s <= p < s + WORD_SIZE
  {
    if s == 0 then 0 else if s <= WORD_SIZE then WORD_SIZE else WORD_SIZE + PaddingSize(s - WORD_SIZE)
  }

  lemma {:induction false} PaddingByRemainder(s: nat)
    ensures PaddingSize(s) == if s % WORD_SIZE == 0 then s else s + WORD_SIZE - s % WORD_SIZE
  {
    if s > WORD_SIZE {
      PaddingByRemainder(s - WORD_SIZE);
    }
  }

  function FullSize(s: nat): nat {
    HEAD_SIZE + PaddingSize(s)
  }

  /** One unit of the region: a data byte, or the header that starts a block. */
  datatype Cell = Raw(value: byte) | Head(size: nat, used: nat, pointer: nat)

  function ByteIn(c: Cell): byte {
    if c.Raw? then c.value else 0
  }

  ghost predicate HeadAt(mem: seq<Cell>, a: nat) {
    && a < |mem| && mem[a].Head?
    && mem[a].pointer == a + HEAD_SIZE
    && mem[a].used <= mem[a].size
    && a + FullSize(mem[a].size) <= |mem|
  }

  ghost function EndOf(mem: seq<Cell>, a: nat): nat
    requires HeadAt(mem, a)
  {
    a + FullSize(mem[a].size)
  }

  ghost function BlockAt(mem: seq<Cell>, a: nat): (b: Block)
    requires HeadAt(mem, a)
    ensures b.Ok()
  {
    var h := mem[a];
    Block(h.pointer, h.size, h.used, seq<byte>(h.size, j requires 0 <= j < h.size => ByteIn(mem[h.pointer + j])))
  }

  ghost predicate AllHeads(mem: seq<Cell>, addresses: seq<nat>) {
    forall i :: 0 <= i < |addresses| ==> HeadAt(mem, addresses[i])
  }

  ghost function Ends(mem: seq<Cell>, addresses: seq<nat>): (e: seq<nat>)
    requires AllHeads(mem, addresses)
    ensures |e| == |addresses|
  {
    seq(|addresses|, i requires 0 <= i < |addresses| => EndOf(mem, addresses[i]))
  }

  ghost function BlocksAt(mem: seq<Cell>, addresses: seq<nat>): (b: seq<Block>)
    requires AllHeads(mem, addresses)
    ensures |b| == |addresses|
    ensures forall x :: x in b ==> x.Ok()
  {
    seq(|addresses|, i requires 0 <= i < |addresses| => BlockAt(mem, addresses[i]))
  }

  /** The static allocator as a value; `a` lists its block addresses in order. */
  datatype Static = Static(mem: seq<Cell>, head: nat, tail: nat, index: seq<Option<nat>>) {
    /** Empty at slot 0, or laid out in at most two runs that `split` separates. */
    ghost predicate Ok(a: seq<nat>, split: nat) {
      && Tracks(head, tail, index, a)
      && AllHeads(mem, a)
      && if a == [] then head == tail == 0 && index[0] in {None, Some(0)}
         else
           Layout(a, Ends(mem, a), index[tail].value, |mem|, split)
    }

    /** Whether `[at, at + full)` is where a block can go at one end. */
    ghost predicate Room(a: seq<nat>, end: End, at: nat, full: nat)
      requires Tracks(head, tail, index, a)
    {
      && Next(tail, |index|) != head
      && if a == [] then
           if end.Back? then at == 0 && full <= |mem| else at + full == |mem| && at > 0
         else if end.Back? then RoomBehind(a, index[tail].value, |mem|, at, at + full)
         else RoomBefore(a, index[tail].value, |mem|, at, at + full)
    }
  }

  lemma BlockUnchanged(m: seq<Cell>, m': seq<Cell>, a: nat)
    requires HeadAt(m, a) && |m'| == |m|
    requires forall k :: a <= k < EndOf(m, a) ==> m'[k] == m[k]
    ensures HeadAt(m', a) && BlockAt(m', a) == BlockAt(m, a) && EndOf(m', a) == EndOf(m, a)
  {
    assert m'[a] == m[a];
    var h := m[a];
    assert BlockAt(m', a).bytes == BlockAt(m, a).bytes;
  }

  /** Writing a header into free space leaves every live block as it was. */
  lemma BlocksSurvive(m: seq<Cell>, a: seq<nat>, at: nat, c: Cell)
    requires AllHeads(m, a) && at < |m|
    requires forall i {:trigger a[i]} :: 0 <= i < |a| ==> at < a[i] || Ends(m, a)[i] <= at
    ensures AllHeads(m[at := c], a)
    ensures BlocksAt(m[at := c], a) == BlocksAt(m, a) && Ends(m[at := c], a) == Ends(m, a)
  {
    var m' := m[at := c];
    forall i | 0 <= i < |a|
      ensures HeadAt(m', a[i]) && BlockAt(m', a[i]) == BlockAt(m, a[i]) && EndOf(m', a[i]) == EndOf(m, a[i])
    {
      assert EndOf(m, a[i]) == Ends(m, a)[i];
      BlockUnchanged(m, m', a[i]);
    }
  }

  /** The new header adds its block at either end of the list. */
  lemma BlockAdded(m: seq<Cell>, a: seq<nat>, end: End, at: nat, s: nat)
    requires AllHeads(m, a) && at + FullSize(s) <= |m|
    requires forall i {:trigger a[i]} :: 0 <= i < |a| ==> at < a[i] || Ends(m, a)[i] <= at
    ensures var m', all := m[at := Head(s, 0, at + HEAD_SIZE)], Joined(end, a, at);
            && AllHeads(m', all) && HeadAt(m', at)
            && Ends(m', all) == Joined(end, Ends(m, a), at + FullSize(s))
            && BlocksAt(m', all) == Joined(end, BlocksAt(m, a), BlockAt(m', at))
  {
    var m' := m[at := Head(s, 0, at + HEAD_SIZE)];
    BlocksSurvive(m, a, at, Head(s, 0, at + HEAD_SIZE));
    assert HeadAt(m', at) && EndOf(m', at) == at + FullSize(s);
    if end.Back? {
      assert Ends(m', a + [at]) == Ends(m', a) + [at + FullSize(s)];
      assert BlocksAt(m', a + [at]) == BlocksAt(m', a) + [BlockAt(m', at)];
    } else {
      assert Ends(m', [at] + a) == [at + FullSize(s)] + Ends(m', a);
      assert BlocksAt(m', [at] + a) == [BlockAt(m', at)] + BlocksAt(m', a);
    }
  }

  /** The allocator after a block of `s` bytes was created at `at` on one end. */
  function Pushed(st: Static, end: End, at: nat, s: nat): Static
    requires |st.index| >= 2 && st.head < |st.index| && st.tail < |st.index| && at < |st.mem|
  {
    var cap := |st.index|;
    var mem := st.mem[at := Head(s, 0, at + HEAD_SIZE)];
    if end.Back? then
      var index := st.index[st.tail := Some(at)][Next(st.tail, cap) := Some(at + FullSize(s))];
      Static(mem, st.head, Next(st.tail, cap), index)
    else
      Static(mem, Prev(st.head, cap), st.tail, st.index[Prev(st.head, cap) := Some(at)])
  }

  lemma RoomIsFree(st: Static, a: seq<nat>, split: nat, end: End, at: nat, full: nat)
    requires st.Ok(a, split) && st.Room(a, end, at, full) && full > 0
    ensures at + full <= |st.mem|
    ensures forall i {:trigger a[i]} :: 0 <= i < |a| ==> at + full <= a[i] || Ends(st.mem, a)[i] <= at
  {
    if a != [] {
      var e, t := Ends(st.mem, a), st.index[st.tail].value;
      forall i | 0 <= i < |a| ensures at + full <= |st.mem| && (at + full <= a[i] || e[i] <= at) {
        Located(a, e, t, |st.mem|, split, 0);
        Located(a, e, t, |st.mem|, split, i);
      }
      Located(a, e, t, |st.mem|, split, 0);
    }
  }

  ghost predicate Added(st: Static, a: seq<nat>, p: Static, end: End, at: nat)
    requires AllHeads(st.mem, a)
  {
    && AllHeads(p.mem, Joined(end, a, at)) && HeadAt(p.mem, at)
    && BlocksAt(p.mem, Joined(end, a, at)) == Joined(end, BlocksAt(st.mem, a), BlockAt(p.mem, at))
  }

  lemma PushedAdds(st: Static, a: seq<nat>, split: nat, end: End, at: nat, s: nat)
    requires st.Ok(a, split) && st.Room(a, end, at, FullSize(s))
    ensures at < |st.mem| && Added(st, a, Pushed(st, end, at, s), end, at)
  {
    RoomIsFree(st, a, split, end, at, FullSize(s));
    BlockAdded(st.mem, a, end, at, s);
  }

  lemma EndsAdded(st: Static, a: seq<nat>, split: nat, end: End, at: nat, s: nat)
    requires st.Ok(a, split) && st.Room(a, end, at, FullSize(s))
    ensures at < |st.mem|
    ensures var m' := st.mem[at := Head(s, 0, at + HEAD_SIZE)];
            if end.Back? then AllHeads(m', a + [at]) && Ends(m', a + [at]) == Ends(st.mem, a) + [at + FullSize(s)]
            else AllHeads(m', [at] + a) && Ends(m', [at] + a) == [at + FullSize(s)] + Ends(st.mem, a)
  {
    RoomIsFree(st, a, split, end, at, FullSize(s));
    BlockAdded(st.mem, a, end, at, s);
  }

  lemma PushedOnEmpty(st: Static, split: nat, end: End, at: nat, s: nat)
    requires st.Ok([], split) && st.index[0] == Some(0) && st.Room([], end, at, FullSize(s))
    ensures at < |st.mem|
    ensures Pushed(st, end, at, s).Ok([at], 1)
  {
    var p := Pushed(st, end, at, s);
    if end.Back? {
      IndexPushBack(0, 0, st.index, [], at, at + FullSize(s));
    } else {
      IndexPushFront(0, 0, st.index, [], at);
    }
    assert HeadAt(p.mem, at);
    assert Ends(p.mem, [at]) == [at + FullSize(s)];
  }

  lemma OkFrom(mem: seq<Cell>, head: nat, tail: nat, index: seq<Option<nat>>,
               a: seq<nat>, e: seq<nat>, t: nat, size: nat, split: nat)
    requires a != [] && Tracks(head, tail, index, a) && index[tail] == Some(t)
    requires AllHeads(mem, a) && Ends(mem, a) == e && |mem| == size && Layout(a, e, t, size, split)
    ensures Static(mem, head, tail, index).Ok(a, split)
  {
  }

  lemma PushedBack(st: Static, a: seq<nat>, split: nat, at: nat, s: nat) returns (split': nat)
    requires a != [] && st.Ok(a, split) && st.Room(a, Back, at, FullSize(s))
    ensures at < |st.mem|
    ensures var mem, cap := st.mem[at := Head(s, 0, at + HEAD_SIZE)], |st.index|;
            Static(mem, st.head, Next(st.tail, cap),
                   st.index[st.tail := Some(at)][Next(st.tail, cap) := Some(at + FullSize(s))]).Ok(a + [at], split')
  {
    var e, t, to, size := Ends(st.mem, a), st.index[st.tail].value, at + FullSize(s), |st.mem|;
    split' := LayoutPushBack(a, e, t, size, split, at, to);
    EndsAdded(st, a, split, Back, at, s);
    IndexPushBack(st.head, st.tail, st.index, a, at, to);
    var mem, cap := st.mem[at := Head(s, 0, at + HEAD_SIZE)], |st.index|;
    OkFrom(mem, st.head, Next(st.tail, cap), st.index[st.tail := Some(at)][Next(st.tail, cap) := Some(to)],
           a + [at], e + [to], to, size, split');
  }

  lemma PushedFront(st: Static, a: seq<nat>, split: nat, at: nat, s: nat) returns (split': nat)
    requires a != [] && st.Ok(a, split) && st.Room(a, Front, at, FullSize(s))
    ensures at < |st.mem|
    ensures var mem, cap := st.mem[at := Head(s, 0, at + HEAD_SIZE)], |st.index|;
            Static(mem, Prev(st.head, cap), st.tail, st.index[Prev(st.head, cap) := Some(at)]).Ok([at] + a, split')
  {
    var e, t, to, size := Ends(st.mem, a), st.index[st.tail].value, at + FullSize(s), |st.mem|;
    split' := LayoutPushFront(a, e, t, size, split, at, to);
    EndsAdded(st, a, split, Front, at, s);
    IndexPushFront(st.head, st.tail, st.index, a, at);
    var mem, cap := st.mem[at := Head(s, 0, at + HEAD_SIZE)], |st.index|;
    OkFrom(mem, Prev(st.head, cap), st.tail, st.index[Prev(st.head, cap) := Some(at)],
           [at] + a, [to] + e, t, size, split');
  }

  /** Creating a block where the allocator found room keeps the layout and every other block. */
  lemma PushedOk(st: Static, a: seq<nat>, split: nat, end: End, at: nat, s: nat) returns (split': nat)
    requires st.Ok(a, split) && st.index[st.tail].Some? && st.Room(a, end, at, FullSize(s))
    ensures at < |st.mem| && Pushed(st, end, at, s).Ok(Joined(end, a, at), split')
    ensures Added(st, a, Pushed(st, end, at, s), end, at)
  {
    PushedAdds(st, a, split, end, at, s);
    if a == [] {
      PushedOnEmpty(st, split, end, at, s);
      split' := 1;
    } else if end.Back? {
      split' := PushedBack(st, a, split, at, s);
    } else {
      split' := PushedFront(st, a, split, at, s);
    }
  }

  /** Changing cells inside one block leaves every other block as it was. */
  lemma OthersSurvive(st: Static, a: seq<nat>, split: nat, i: nat, m': seq<Cell>)
    requires st.Ok(a, split) && i < |a| && |m'| == |st.mem|
    requires forall k :: 0 <= k < |m'| && !(a[i] <= k < EndOf(st.mem, a[i])) ==> m'[k] == st.mem[k]
    ensures forall j {:trigger a[j]} :: 0 <= j < |a| && j != i ==>
              HeadAt(m', a[j]) && BlockAt(m', a[j]) == BlockAt(st.mem, a[j]) && EndOf(m', a[j]) == EndOf(st.mem, a[j])
  {
    var e := Ends(st.mem, a);
    forall j {:trigger a[j]} | 0 <= j < |a| && j != i
      ensures HeadAt(m', a[j]) && BlockAt(m', a[j]) == BlockAt(st.mem, a[j]) && EndOf(m', a[j]) == EndOf(st.mem, a[j])
    {
      LayoutDisjoint(a, e, st.index[st.tail].value, |st.mem|, split, i, j);
      assert e[i] == EndOf(st.mem, a[i]) && e[j] == EndOf(st.mem, a[j]);
      BlockUnchanged(st.mem, m', a[j]);
    }
  }

  /** An update inside block `i` that keeps its size is an update of entry `i` of the list. */
  lemma BlockUpdated(st: Static, a: seq<nat>, split: nat, i: nat, m': seq<Cell>)
    requires st.Ok(a, split) && i < |a| && |m'| == |st.mem|
    requires forall k :: 0 <= k < |m'| && !(a[i] <= k < EndOf(st.mem, a[i])) ==> m'[k] == st.mem[k]
    requires HeadAt(m', a[i]) && m'[a[i]].size == st.mem[a[i]].size
    ensures st.(mem := m').Ok(a, split)
    ensures BlocksAt(m', a) == BlocksAt(st.mem, a)[i := BlockAt(m', a[i])]
  {
    OthersSurvive(st, a, split, i, m');
    assert forall j {:trigger a[j]} :: 0 <= j < |a| ==> HeadAt(m', a[j]);
    assert Ends(m', a) == Ends(st.mem, a);
    OkFrom(m', st.head, st.tail, st.index, a, Ends(st.mem, a), st.index[st.tail].value, |st.mem|, split);
  }

  /** Counting `n` more bytes of block `i` as used. */
  lemma HeaderUpdated(st: Static, a: seq<nat>, split: nat, i: nat, n: nat)
    requires st.Ok(a, split) && i < |a| && n <= BlockAt(st.mem, a[i]).Unread()
    ensures a[i] < |st.mem| && st.mem[a[i]].Head?
    ensures var m' := st.mem[a[i] := st.mem[a[i]].(used := st.mem[a[i]].used + n)];
            && st.(mem := m').Ok(a, split)
            && BlocksAt(m', a) == BlocksAt(st.mem, a)[i := BlocksAt(st.mem, a)[i].Pop(n)]
  {
    var m' := st.mem[a[i] := st.mem[a[i]].(used := st.mem[a[i]].used + n)];
    BlockUpdated(st, a, split, i, m');
    assert BlockAt(m', a[i]) == BlockAt(st.mem, a[i]).Pop(n);
  }

  /** The region after `data` was stored from `from` on. */
  function Stored(m: seq<Cell>, from: nat, data: seq<byte>): (m': seq<Cell>)
    requires from + |data| <= |m|
    ensures |m'| == |m|
  {
    seq(|m|, k requires 0 <= k < |m| => if from <= k < from + |data| then Raw(data[k - from]) else m[k])
  }

  lemma StoredBlock(m: seq<Cell>, at: nat, data: seq<byte>)
    requires HeadAt(m, at) && |data| <= BlockAt(m, at).Unread()
    ensures m[at].pointer + m[at].used + |data| <= EndOf(m, at)
    ensures var m' := Stored(m, m[at].pointer + m[at].used, data);
            HeadAt(m', at) && m'[at] == m[at] && BlockAt(m', at) == BlockAt(m, at).Write(data)
  {
    var m' := Stored(m, m[at].pointer + m[at].used, data);
    var b, w, p := BlockAt(m, at), BlockAt(m, at).Write(data), m[at].pointer;
    forall j | 0 <= j < b.size ensures ByteIn(m'[p + j]) == w.bytes[j] {
    }
    assert BlockAt(m', at).bytes == w.bytes;
  }

  lemma DataStored(st: Static, a: seq<nat>, split: nat, i: nat, data: seq<byte>)
    requires st.Ok(a, split) && i < |a| && |data| <= BlockAt(st.mem, a[i]).Unread()
    ensures var h := st.mem[a[i]]; h.pointer + h.used + |data| <= |st.mem|
    ensures var h := st.mem[a[i]];
            var m' := Stored(st.mem, h.pointer + h.used, data);
            && st.(mem := m').Ok(a, split)
            && BlocksAt(m', a) == BlocksAt(st.mem, a)[i := BlocksAt(st.mem, a)[i].Write(data)]
  {
    StoredBlock(st.mem, a[i], data);
    BlockUpdated(st, a, split, i, Stored(st.mem, st.mem[a[i]].pointer + st.mem[a[i]].used, data));
  }

  /** The allocator once the block at one end is given back; empty it starts over at slot 0. */
  function Freed(st: Static, end: End): Static
    requires |st.index| >= 2 && st.head < |st.index| && st.tail < |st.index|
  {
    var cap := |st.index|;
    var f := if end.Back? then st.(tail := Prev(st.tail, cap), index := st.index[st.tail := None])
             else st.(head := Next(st.head, cap), index := st.index[st.head := None]);
    if f.head == f.tail then Static(f.mem, 0, 0, f.index[0 := Some(0)]) else f
  }

  lemma FreedBack(st: Static, a: seq<nat>, split: nat) returns (split': nat)
    requires |a| >= 2 && st.Ok(a, split)
    ensures Freed(st, Back).Ok(a[..|a| - 1], split')
  {
    var e, t, size := Ends(st.mem, a), st.index[st.tail].value, |st.mem|;
    split' := LayoutPopBack(a, e, t, size, split);
    IndexPopBack(st.head, st.tail, st.index, a);
    assert Ends(st.mem, a[..|a| - 1]) == e[..|a| - 1];
    OkFrom(st.mem, st.head, Prev(st.tail, |st.index|), st.index[st.tail := None], a[..|a| - 1], e[..|a| - 1],
           a[|a| - 1], size, split');
  }

  lemma FreedFront(st: Static, a: seq<nat>, split: nat) returns (split': nat)
    requires |a| >= 2 && st.Ok(a, split)
    ensures Freed(st, Front).Ok(a[1..], split')
  {
    var e, t, size := Ends(st.mem, a), st.index[st.tail].value, |st.mem|;
    assert st.head != st.tail && Next(st.head, |st.index|) != st.tail;
    split' := LayoutPopFront(a, e, t, size, split);
    IndexPopFront(st.head, st.tail, st.index, a);
    assert Ends(st.mem, a[1..]) == e[1..];
    OkFrom(st.mem, Next(st.head, |st.index|), st.tail, st.index[st.head := None], a[1..], e[1..], t, size, split');
  }

  lemma FreedLast(st: Static, a: seq<nat>, split: nat, end: End)
    requires |a| == 1 && st.Ok(a, split)
    ensures Freed(st, end).Ok([], 0)
  {
    IndexPopBack(st.head, st.tail, st.index, a);
    IndexPopFront(st.head, st.tail, st.index, a);
  }

  /** Giving back the block at one end keeps the layout; the last one resets it. */
  lemma FreedOk(st: Static, a: seq<nat>, split: nat, end: End) returns (split': nat)
    requires a != [] && st.Ok(a, split)
    ensures Freed(st, end).Ok(Dropped(end, a), split')
  {
    if |a| == 1 {
      FreedLast(st, a, split, end);
      split' := 0;
    } else if end.Back? {
      split' := FreedBack(st, a, split);
    } else {
      split' := FreedFront(st, a, split);
    }
  }

  lemma BlocksDropped(m: seq<Cell>, a: seq<nat>, end: End)
    requires a != [] && AllHeads(m, a)
    ensures AllHeads(m, Dropped(end, a)) && BlocksAt(m, Dropped(end, a)) == Dropped(end, BlocksAt(m, a))
  {
  }

  /** An index that was never used gets the start of the region as its first free byte. */
  function Started(st: Static): Static
    requires |st.index| > 0
  {
    if st.head == st.tail then Static(st.mem, 0, 0, st.index[0 := Some(0)]) else st
  }

  lemma StartedOk(st: Static, a: seq<nat>, split: nat)
    requires st.Ok(a, split)
    ensures Started(st).Ok(a, split) && Started(st).index[st.tail].Some? && Started(st).mem == st.mem
    ensures forall end: End, at: nat, full: nat :: Started(st).Room(a, end, at, full) == st.Room(a, end, at, full)
  {
  }

  /** The room test in closed form: behind the last block, or at the start of the region. */
  ghost predicate FitsBack(st: Static, a: seq<nat>, full: nat)
    requires Tracks(st.head, st.tail, st.index, a)
  {
    Next(st.tail, |st.index|) != st.head &&
    if a == [] then full <= |st.mem|
    else
      var t := st.index[st.tail].value;
      if a[0] <= t then t + full <= |st.mem| || full < a[0] else t + full < a[0]
  }

  /** Before the oldest block, or at the end of the region. */
  ghost predicate FitsFront(st: Static, a: seq<nat>, full: nat)
    requires Tracks(st.head, st.tail, st.index, a)
  {
    Next(st.tail, |st.index|) != st.head &&
    if a == [] then full < |st.mem|
    else
      var t := st.index[st.tail].value;
      if a[0] <= t then full <= a[0] || t + full < |st.mem| else t + full < a[0]
  }

  lemma RoomBackIff(st: Static, a: seq<nat>, full: nat)
    requires Tracks(st.head, st.tail, st.index, a) && full > 0
    ensures (exists at: nat :: st.Room(a, Back, at, full)) <==> FitsBack(st, a, full)
  {
    if FitsBack(st, a, full) {
      var at := if a == [] then 0
                else
                  var t := st.index[st.tail].value;
                  if a[0] <= t && t + full > |st.mem| then 0 else t;
      assert st.Room(a, Back, at, full);
    }
  }

  lemma RoomFrontIff(st: Static, a: seq<nat>, full: nat)
    requires Tracks(st.head, st.tail, st.index, a) && full > 0
    ensures (exists at: nat :: st.Room(a, Front, at, full)) <==> FitsFront(st, a, full)
  {
    if FitsFront(st, a, full) {
      var at: nat := if a == [] then |st.mem| - full
                     else
                       var t := st.index[st.tail].value;
                       if a[0] <= t && full > a[0] then |st.mem| - full else a[0] - full;
      assert st.Room(a, Front, at, full);
    }
  }

  /** A nonempty index has different ends and both end slots filled. */
  lemma EndsNamed(st: Static, a: seq<nat>, split: nat)
    requires st.Ok(a, split)
    ensures a == [] <==> st.head == st.tail
    ensures a != [] ==> st.index[st.head] == Some(a[0]) && st.index[st.tail].Some?
    ensures a != [] ==> st.index[Prev(st.tail, |st.index|)] == Some(a[|a| - 1])
    ensures a != [] ==> HeadAt(st.mem, a[0]) && HeadAt(st.mem, a[|a| - 1])
  {
    if a != [] {
      assert Slot(st.head, 0, |st.index|) == st.head;
      IndexPopBack(st.head, st.tail, st.index, a);
    }
  }

  /** The header at one end of the list is the header of the block there. */
  lemma EndCell(st: Static, a: seq<nat>, split: nat, end: End)
    requires st.Ok(a, split) && a != []
    ensures st.head != st.tail
    ensures st.index[if end.Back? then Prev(st.tail, |st.index|) else st.head] == Some(Pick(a, end))
    ensures Pick(a, end) < |st.mem|
    ensures var b := Pick(BlocksAt(st.mem, a), end); st.mem[Pick(a, end)] == Head(b.size, b.used, b.pointer)
  {
    EndsNamed(st, a, split);
    assert BlocksAt(st.mem, a)[if end.Back? then |a| - 1 else 0] == BlockAt(st.mem, Pick(a, end));
  }

  lemma EndTaken(st: Static, a: seq<nat>, split: nat, end: End, n: nat) returns (st': Static)
    requires st.Ok(a, split) && a != [] && n <= Pick(BlocksAt(st.mem, a), end).Unread()
    ensures Pick(a, end) < |st.mem| && st.mem[Pick(a, end)].Head?
    ensures var at := Pick(a, end); st' == st.(mem := st.mem[at := st.mem[at].(used := st.mem[at].used + n)])
    ensures st'.Ok(a, split)
    ensures var b := BlocksAt(st.mem, a); BlocksAt(st'.mem, a) == Replaced(end, b, Pick(b, end).Pop(n))
  {
    var k := if end.Back? then |a| - 1 else 0;
    assert BlocksAt(st.mem, a)[k] == BlockAt(st.mem, a[k]);
    HeaderUpdated(st, a, split, k, n);
    st' := st.(mem := st.mem[a[k] := st.mem[a[k]].(used := st.mem[a[k]].used + n)]);
  }

  lemma EndStored(st: Static, a: seq<nat>, split: nat, end: End, data: seq<byte>) returns (st': Static)
    requires st.Ok(a, split) && a != [] && |data| <= Pick(BlocksAt(st.mem, a), end).Unread()
    ensures var h := st.mem[Pick(a, end)];
            h.pointer + h.used + |data| <= |st.mem| && st' == st.(mem := Stored(st.mem, h.pointer + h.used, data))
    ensures st'.Ok(a, split)
    ensures var b := BlocksAt(st.mem, a); BlocksAt(st'.mem, a) == Replaced(end, b, Pick(b, end).Write(data))
  {
    var k := if end.Back? then |a| - 1 else 0;
    assert BlocksAt(st.mem, a)[k] == BlockAt(st.mem, a[k]);
    DataStored(st, a, split, k, data);
    st' := st.(mem := Stored(st.mem, st.mem[a[k]].pointer + st.mem[a[k]].used, data));
  }
}
