/** The buffer manager seen as a plain double-ended list of blocks with a cost account. */
module BlockList {
  import opened Base

  /** `used` bytes of the block are already taken; `pointer` is where its data start. */
  datatype Block = Block(pointer: nat, size: nat, used: nat, bytes: seq<byte>) {
    predicate Ok() { used <= size == |bytes| }

    function Unread(): nat
      requires Ok()
    {
      size - used
    }

    /** Takes up to `s` further bytes. */
    function Pop(s: nat): (b: Block)
      requires Ok()
      ensures b.Ok() && b.pointer == pointer && b.bytes == bytes
      ensures b.Unread() == if s > Unread() then 0 else Unread() - s
    {
      this.(used := if used + s > size then size else used + s)
    }

    /** The block after its owner wrote `data` at its first free byte. */
    function Write(data: seq<byte>): (b: Block)
      requires Ok() && |data| <= Unread()
      ensures b.Ok()
    {
      this.(bytes := bytes[..used] + data + bytes[used + |data|..])
    }
  }

  /** Zero limits mean no limit. */
  datatype Limits = Limits(costNumber: nat, costSize: nat, limitNumber: nat, limitSize: nat) {
    predicate Refuses(s: nat) {
      (limitNumber > 0 && costNumber >= limitNumber) || (limitSize > 0 && costSize + s > limitSize)
    }

    function Charge(s: nat): Limits {
      this.(costNumber := costNumber + 1, costSize := costSize + s)
    }

    /** The account after `s` bytes were taken and, if `freed`, a block given back. */
    function Refund(s: nat, freed: bool, empty: bool): Limits {
      if empty then this.(costNumber := 0, costSize := 0)
      else this.(costNumber := if freed && costNumber > 0 then costNumber - 1 else costNumber,
                 costSize := if costSize >= s then costSize - s else 0)
    }
  }

  datatype Queue = Queue(blocks: seq<Block>, limits: Limits) {
    predicate Ok() { forall b :: b in blocks ==> b.Ok() }

    function Put(end: End, b: Block): (q: Queue)
      ensures q.blocks != [] && q.At(end) == b
    {
      Queue(Joined(end, blocks, b), limits.Charge(b.size))
    }

    function At(end: End): Block
      requires blocks != []
    {
      Pick(blocks, end)
    }

    /** Takes `s` bytes from the block at one end; a block used up is freed if asked. */
    function Take(end: End, s: nat, free: bool): (Queue, Status)
      requires Ok()
    {
      if blocks == [] then (this, NoData)
      else
        var d := Drain(blocks, end, s, free);
        (Queue(d.left, limits.Refund(d.taken, d.freed, d.left == [])), Success)
    }

    function WriteAt(end: End, data: seq<byte>): Queue
      requires Ok() && blocks != [] && |data| <= At(end).Unread()
    {
      this.(blocks := Replaced(end, blocks, At(end).Write(data)))
    }
  }

  datatype End = Front | Back

  function Pick<T>(s: seq<T>, end: End): T
    requires s != []
  {
    if end.Back? then s[|s| - 1] else s[0]
  }

  function Joined<T>(end: End, s: seq<T>, x: T): seq<T> {
    if end.Back? then s + [x] else [x] + s
  }

  function Dropped<T>(end: End, s: seq<T>): seq<T>
    requires s != []
  {
    if end.Back? then s[..|s| - 1] else s[1..]
  }

  function Replaced<T>(end: End, s: seq<T>, x: T): seq<T>
    requires s != []
  {
    if end.Back? then s[|s| - 1 := x] else s[0 := x]
  }

  datatype Drained = Drained(left: seq<Block>, taken: nat, freed: bool)

  /** What taking `s` bytes at one end leaves, how many it took, and whether the block went. */
  function Drain(blocks: seq<Block>, end: End, s: nat, free: bool): Drained
    requires blocks != [] && forall b :: b in blocks ==> b.Ok()
  {
    var b := Pick(blocks, end);
    var taken := if s > b.Unread() then b.Unread() else s;
    var rest := b.Pop(taken);
    var freed := free && rest.Unread() == 0;
    Drained(if freed then Dropped(end, blocks) else Replaced(end, blocks, rest), taken, freed)
  }

  function TotalUnread(blocks: seq<Block>): nat
    requires forall b :: b in blocks ==> b.Ok()
  {
    if blocks == [] then 0 else blocks[0].Unread() + TotalUnread(blocks[1..])
  }

  lemma {:induction false} TotalUnreadConcat(a: seq<Block>, b: seq<Block>)
    requires forall x :: x in a + b ==> x.Ok()
    ensures forall x :: x in a ==> x.Ok()
    ensures forall x :: x in b ==> x.Ok()
    ensures TotalUnread(a + b) == TotalUnread(a) + TotalUnread(b)
    decreases a
  {
    forall x | x in a ensures x.Ok() { assert x in a + b; }
    forall x | x in b ensures x.Ok() { assert x in a + b; }
    if a == [] {
      assert a + b == b;
    } else {
      assert (a + b)[1..] == a[1..] + b;
      TotalUnreadConcat(a[1..], b);
    }
  }

  /** The account is exact: live blocks and their unread bytes. */
  ghost predicate Accounted(q: Queue) {
    && q.Ok()
    && q.limits.costNumber == |q.blocks|
    && q.limits.costSize == TotalUnread(q.blocks)
  }

  ghost predicate WithinLimits(l: Limits) {
    && (l.limitNumber > 0 ==> l.costNumber <= l.limitNumber)
    && (l.limitSize > 0 ==> l.costSize <= l.limitSize)
  }

  /** What callers may do to a queue; a push hands over a whole block content. */
  datatype Op = Push(end: End, data: seq<byte>) | Pop(end: End, s: nat, free: bool)

  /** A block full of `data`, at no address in particular. */
  function FreshBlock(data: seq<byte>): (b: Block)
    ensures b.Ok()
  {
    Block(0, |data|, 0, data)
  }

  /** One step of the list with memory to spare: only the limits refuse a push. */
  function Step(q: Queue, op: Op): (r: (Queue, Status))
    requires q.Ok()
    ensures r.0.Ok()
  {
    match op
    case Push(end, data) =>
      if q.limits.Refuses(|data|) then (q, BuffLimit) else (q.Put(end, FreshBlock(data)), Success)
    case Pop(end, s, free) => q.Take(end, s, free)
  }

  function Run(q: Queue, ops: seq<Op>): (r: Queue)
    requires q.Ok()
    ensures r.Ok()
    decreases ops
  {
    if ops == [] then q else Run(Step(q, ops[0]).0, ops[1..])
  }

  function Codes(q: Queue, ops: seq<Op>): seq<Status>
    requires q.Ok()
    decreases ops
  {
    if ops == [] then [] else [Step(q, ops[0]).1] + Codes(Step(q, ops[0]).0, ops[1..])
  }

  lemma {:induction false} RunSnoc(q: Queue, ops: seq<Op>, op: Op)
    requires q.Ok()
    ensures Run(q, ops + [op]) == Step(Run(q, ops), op).0
    ensures Codes(q, ops + [op]) == Codes(q, ops) + [Step(Run(q, ops), op).1]
    decreases ops
  {
    if ops == [] {
      assert ops + [op] == [op] && [op][1..] == [];
    } else {
      assert (ops + [op])[0] == ops[0] && (ops + [op])[1..] == ops[1..] + [op];
      RunSnoc(Step(q, ops[0]).0, ops[1..], op);
    }
  }

  ghost predicate AllOk(blocks: seq<Block>) { forall b :: b in blocks ==> b.Ok() }

  lemma TotalOfParts(blocks: seq<Block>, end: End, x: Block)
    requires blocks != [] && AllOk(blocks) && x.Ok()
    ensures AllOk(Dropped(end, blocks)) && AllOk(Replaced(end, blocks, x))
    ensures TotalUnread(blocks) == TotalUnread(Dropped(end, blocks)) + Pick(blocks, end).Unread()
    ensures TotalUnread(Replaced(end, blocks, x)) == TotalUnread(Dropped(end, blocks)) + x.Unread()
  {
    var b, rest := Pick(blocks, end), Dropped(end, blocks);
    if end.Back? {
      assert blocks == rest + [b] && Replaced(end, blocks, x) == rest + [x];
      TotalUnreadConcat(rest, [b]);
      TotalUnreadConcat(rest, [x]);
    } else {
      assert blocks == [b] + rest && Replaced(end, blocks, x) == [x] + rest;
      TotalUnreadConcat([b], rest);
      TotalUnreadConcat([x], rest);
    }
  }

  /** The bytes taken never exceed the account, so the clamp in `Refund` is idle. */
  lemma TakeKeepsAccount(q: Queue, end: End, s: nat, free: bool)
    requires Accounted(q)
    ensures Accounted(q.Take(end, s, free).0)
    ensures q.blocks != [] ==> q.At(end).Unread() <= q.limits.costSize
    ensures q.Take(end, s, free).0.limits.costNumber <= q.limits.costNumber
    ensures q.Take(end, s, free).0.limits.costSize <= q.limits.costSize
  {
    if q.blocks != [] {
      var b := q.At(end);
      TotalOfParts(q.blocks, end, b.Pop(if s > b.Unread() then b.Unread() else s));
    }
  }

  /** What taking does: as many bytes as were asked for and are there go, from the account too; a block goes
      exactly if asked and nothing of it is left; no other block changes. */
  lemma TakeSays(q: Queue, end: End, s: nat, free: bool)
    requires Accounted(q)
    ensures q.blocks == [] ==> q.Take(end, s, free) == (q, NoData)
    ensures q.blocks != [] ==>
              var b, r := q.At(end), q.Take(end, s, free).0;
              var n := if s < b.Unread() then s else b.Unread();
              && q.Take(end, s, free).1 == Success && r.Ok() && TotalUnread(r.blocks) == TotalUnread(q.blocks) - n
              && r.blocks == (if free && n == b.Unread() then Dropped(end, q.blocks)
                              else Replaced(end, q.blocks, b.(used := b.used + n)))
              && r.limits == q.limits.(costNumber := |r.blocks|, costSize := TotalUnread(r.blocks))
  {
    if q.blocks != [] {
      TakeKeepsAccount(q, end, s, free);
      var b := q.At(end);
      TotalOfParts(q.blocks, end, b.Pop(if s > b.Unread() then b.Unread() else s));
    }
  }

  lemma PutKeepsAccount(q: Queue, end: End, b: Block)
    requires Accounted(q) && b.Ok() && b.used == 0
    ensures Accounted(q.Put(end, b))
    ensures !q.limits.Refuses(b.size) && WithinLimits(q.limits) ==> WithinLimits(q.Put(end, b).limits)
  {
    if end.Back? {
      TotalUnreadConcat(q.blocks, [b]);
    } else {
      TotalUnreadConcat([b], q.blocks);
    }
  }

  /** With a block of `s` bytes more there would be more blocks, or more unread bytes in them, than a limit
      allows. */
  ghost predicate Overfull(q: Queue, s: nat)
    requires q.Ok()
  {
    || (q.limits.limitNumber > 0 && |q.blocks| + 1 > q.limits.limitNumber)
    || (q.limits.limitSize > 0 && TotalUnread(q.blocks) + s > q.limits.limitSize)
  }

  /** The limits refuse a push exactly when the blocks would exceed them after it. */
  lemma RefusesIff(q: Queue, end: End, b: Block)
    requires Accounted(q) && b.Ok() && b.used == 0
    ensures q.limits.Refuses(b.size) <==> Overfull(q, b.size)
    ensures WithinLimits(q.limits) ==> (q.limits.Refuses(b.size) <==> !WithinLimits(q.Put(end, b).limits))
  {
    PutKeepsAccount(q, end, b);
  }

  /** One step where the memory may lack room: then a push changes nothing, whatever the limits. */
  function StepIn(q: Queue, op: Op, room: bool): (r: (Queue, Status))
    requires q.Ok()
    ensures r.0.Ok()
  {
    if op.Push? && !room then (q, BuffLimit) else Step(q, op)
  }

  function RunIn(q: Queue, ops: seq<Op>, rooms: seq<bool>): (r: Queue)
    requires q.Ok() && |rooms| == |ops|
    ensures r.Ok()
    decreases ops
  {
    if ops == [] then q else RunIn(StepIn(q, ops[0], rooms[0]).0, ops[1..], rooms[1..])
  }

  function CodesIn(q: Queue, ops: seq<Op>, rooms: seq<bool>): seq<Status>
    requires q.Ok() && |rooms| == |ops|
    decreases ops
  {
    if ops == [] then []
    else [StepIn(q, ops[0], rooms[0]).1] + CodesIn(StepIn(q, ops[0], rooms[0]).0, ops[1..], rooms[1..])
  }

  lemma {:induction false} RunInSnoc(q: Queue, ops: seq<Op>, rooms: seq<bool>, op: Op, room: bool)
    requires q.Ok() && |rooms| == |ops|
    ensures RunIn(q, ops + [op], rooms + [room]) == StepIn(RunIn(q, ops, rooms), op, room).0
    ensures CodesIn(q, ops + [op], rooms + [room]) ==
            CodesIn(q, ops, rooms) + [StepIn(RunIn(q, ops, rooms), op, room).1]
    decreases ops
  {
    if ops == [] {
      assert ops + [op] == [op] && rooms + [room] == [room] && [op][1..] == [] && [room][1..] == [];
    } else {
      assert (ops + [op])[1..] == ops[1..] + [op] && (rooms + [room])[1..] == rooms[1..] + [room];
      RunInSnoc(StepIn(q, ops[0], rooms[0]).0, ops[1..], rooms[1..], op, room);
    }
  }

  /** Over every run, refusals for lack of room included, the account stays exact and no nonzero limit
      is ever exceeded. */
  lemma {:induction false} RunKeepsAccount(q: Queue, ops: seq<Op>, rooms: seq<bool>)
    requires Accounted(q) && WithinLimits(q.limits) && |rooms| == |ops|
    ensures Accounted(RunIn(q, ops, rooms)) && WithinLimits(RunIn(q, ops, rooms).limits)
    ensures RunIn(q, ops, rooms).limits.limitNumber == q.limits.limitNumber
    ensures RunIn(q, ops, rooms).limits.limitSize == q.limits.limitSize
    decreases ops
  {
    if ops != [] {
      match ops[0] {
        case Push(end, data) => PutKeepsAccount(q, end, FreshBlock(data));
        case Pop(end, s, free) => TakeKeepsAccount(q, end, s, free);
      }
      RunKeepsAccount(StepIn(q, ops[0], rooms[0]).0, ops[1..], rooms[1..]);
    }
  }

  /** The list with the addresses forgotten. */
  function Bare(blocks: seq<Block>): (r: seq<Block>)
    ensures |r| == |blocks| && forall i :: 0 <= i < |r| ==> r[i] == blocks[i].(pointer := 0)
  {
    seq(|blocks|, i requires 0 <= i < |blocks| => blocks[i].(pointer := 0))
  }

  function BareQueue(q: Queue): (r: Queue)
    requires q.Ok()
    ensures r.Ok()
  {
    assert forall i :: 0 <= i < |q.blocks| ==> q.blocks[i] in q.blocks;
    q.(blocks := Bare(q.blocks))
  }

  /** Addresses do not matter to the account. */
  lemma {:induction false} BareAccounted(blocks: seq<Block>)
    requires AllOk(blocks)
    ensures AllOk(Bare(blocks)) && TotalUnread(Bare(blocks)) == TotalUnread(blocks)
    decreases blocks
  {
    forall b | b in Bare(blocks) ensures b.Ok() {
      var i :| 0 <= i < |blocks| && b == Bare(blocks)[i];
      assert blocks[i] in blocks;
    }
    if blocks != [] {
      assert Bare(blocks)[1..] == Bare(blocks[1..]);
      BareAccounted(blocks[1..]);
    }
  }

  lemma BareTake(q: Queue, end: End, s: nat, free: bool)
    requires q.Ok()
    ensures q.Take(end, s, free).0.Ok()
    ensures BareQueue(q).Take(end, s, free) == (BareQueue(q.Take(end, s, free).0), q.Take(end, s, free).1)
  {
    if q.blocks != [] {
      var d := Drain(q.blocks, end, s, free);
      assert Bare(d.left) == Drain(BareQueue(q).blocks, end, s, free).left;
    }
  }

  /** Pushing a block and filling it is pushing the data. */
  lemma BarePut(q: Queue, end: End, b: Block, data: seq<byte>)
    requires q.Ok() && b.Ok() && b.used == 0 && b.size == |data|
    ensures q.Put(end, b).Ok() && q.Put(end, b).At(end) == b && q.Put(end, b).WriteAt(end, data).Ok()
    ensures BareQueue(q.Put(end, b).WriteAt(end, data)) == BareQueue(q).Put(end, FreshBlock(data))
  {
    PutWritten(q, end, b, data);
    BareJoined(end, q.blocks, b.Write(data));
  }

  lemma PutWritten(q: Queue, end: End, b: Block, data: seq<byte>)
    requires q.Ok() && b.Ok() && b.used == 0 && b.size == |data|
    ensures q.Put(end, b).Ok() && q.Put(end, b).At(end) == b && b.Write(data).(pointer := 0) == FreshBlock(data)
    ensures q.Put(end, b).WriteAt(end, data) == q.Put(end, b.Write(data)) && q.Put(end, b.Write(data)).Ok()
  {
    assert b.Write(data).bytes == data;
    assert q.Put(end, b).WriteAt(end, data).blocks == Joined(end, q.blocks, b.Write(data));
  }

  lemma BareJoined(end: End, blocks: seq<Block>, x: Block)
    ensures Bare(Joined(end, blocks, x)) == Joined(end, Bare(blocks), x.(pointer := 0))
  {
  }
}
