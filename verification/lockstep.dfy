/** The static allocator and the dynamic list cannot be told apart while the region has room. */
module Lockstep {
  import opened Base
  import opened BlockList
  import opened BufferManagers

  /** Performs one operation; a push also fills the block it got. */
  method Perform(m: BufferManager, op: Op) returns (code: Status)
    requires m.Valid()
    modifies m
    ensures m.Valid() && m.store.SameShape(old(m.store))
    ensures if op.Push? && !old(m.HasRoom(op.end, |op.data|)) then code == BuffLimit && m.State() == old(m.State())
            else (BareQueue(m.State()), code) == Step(BareQueue(old(m.State())), op)
    ensures (BareQueue(m.State()), code) ==
            StepIn(BareQueue(old(m.State())), op, op.Pop? || old(m.HasRoom(op.end, |op.data|)))
    ensures op.Push? && code == BuffLimit && !m.limits.Refuses(|op.data|) ==> !m.HasRoom(op.end, |op.data|)
  {
    match op {
      case Pop(end, s, free) =>
        BareTake(m.State(), end, s, free);
        code := m.Pop(end, s, free);
      case Push(end, data) =>
        ghost var q := m.State();
        var pointer;
        code, pointer := m.Push(end, |data|);
        if code == Success {
          ghost var b: Block :| IsNew(b, |data|, pointer) && m.State() == q.Put(end, b);
          BarePut(q, end, b, data);
          m.Write(end, data);
        }
    }
  }

  /** One operation on both; not `ok` if the region, and not the limits, refused it. */
  method PerformBoth(st: BufferManager, dy: BufferManager, op: Op) returns (ok: bool, code: Status, code': Status)
    requires st != dy && st.Valid() && dy.Valid() && dy.store.Dynamic?
    requires BareQueue(st.State()) == BareQueue(dy.State())
    modifies st, dy
    ensures st.Valid() && dy.Valid() && st.store.SameShape(old(st.store)) && dy.store.Dynamic?
    ensures BareQueue(st.State()) == BareQueue(dy.State())
    ensures if ok then code == code' && (BareQueue(st.State()), code) == Step(old(BareQueue(st.State())), op)
            else
              && st.State() == old(st.State()) && op.Push? && code == BuffLimit && !st.limits.Refuses(|op.data|)
              && !old(st.HasRoom(op.end, |op.data|)) && !st.HasRoom(op.end, |op.data|)
  {
    code := Perform(st, op);
    code', ok := code, !(op.Push? && code == BuffLimit && !dy.limits.Refuses(|op.data|));
    if ok {
      code' := Perform(dy, op);
    }
  }

  /** Runs the same operations on a static and a dynamic manager with equal contents and
      limits.  Up to the first push for which the region has no room, though the limits allow it,
      both return the codes, and hold the blocks, sizes and bytes, of the plain list; that push the
      static one alone refuses. */
  method RunBoth(st: BufferManager, dy: BufferManager, ops: seq<Op>)
      returns (done: nat, staticCodes: seq<Status>, dynamicCodes: seq<Status>, refused: bool, last: Status)
    requires st != dy && st.Valid() && dy.Valid() && st.store.Region? && dy.store.Dynamic?
    requires BareQueue(st.State()) == BareQueue(dy.State())
    modifies st, dy
    ensures st.Valid() && dy.Valid() && done <= |ops|
    ensures BareQueue(st.State()) == Run(BareQueue(old(st.State())), ops[..done])
    ensures BareQueue(dy.State()) == BareQueue(st.State())
    ensures staticCodes == dynamicCodes == Codes(BareQueue(old(st.State())), ops[..done])
    ensures refused <==> done < |ops|
    ensures refused ==> ops[done].Push? && last == BuffLimit && !st.limits.Refuses(|ops[done].data|) &&
                        !st.HasRoom(ops[done].end, |ops[done].data|)
  {
    ghost var q := BareQueue(st.State());
    done, staticCodes, dynamicCodes, refused, last := 0, [], [], false, Success;
    while done < |ops|
      invariant done <= |ops| && !refused && st.Valid() && dy.Valid() && st.store.Region? && dy.store.Dynamic?
      invariant BareQueue(st.State()) == BareQueue(dy.State()) == Run(q, ops[..done])
      invariant staticCodes == dynamicCodes == Codes(q, ops[..done])
    {
      var op := ops[done];
      RunSnoc(q, ops[..done], op);
      assert ops[..done + 1] == ops[..done] + [op];
      var ok, code, code' := PerformBoth(st, dy, op);
      if !ok {
        refused, last := true, code;
        return;
      }
      staticCodes, dynamicCodes := staticCodes + [code], dynamicCodes + [code'];
      done := done + 1;
    }
    assert ops[..|ops|] == ops;
  }

  /** A push that the limits refuse, or for which there is no room. */
  ghost predicate RightlyRefused(m: BufferManager, op: Op)
    requires m.Valid()
    reads m
  {
    op.Push? && (m.limits.Refuses(|op.data|) || !m.HasRoom(op.end, |op.data|))
  }

  /** The memory of a manager at some moment. */
  datatype Moment = Moment(store: Store, live: seq<nat>, split: nat) {
    /** It is of the shape of `like`, holds these blocks, and has room for the operation or not. */
    ghost predicate Meets(like: Store, bare: seq<Block>, op: Op, room: bool) {
      && store.SameShape(like) && store.Ok(live, split) && Bare(store.Blocks(live, split)) == bare
      && room == (op.Pop? || store.HasRoom(live, split, op.end, |op.data|))
    }
  }

  /** The blocks that a plain list holds after some operations. */
  type History = (seq<Op>, seq<bool>) -> seq<Block>

  function After(q: Queue): History
    requires q.Ok()
  {
    (ops, rooms) => if |ops| == |rooms| then RunIn(q, ops, rooms).blocks else []
  }

  /** Each operation of a run met memory that held the blocks of the plain list, and a push was refused for lack
      of room exactly when there was none in it. */
  ghost predicate Met(like: Store, plain: History, ops: seq<Op>, rooms: seq<bool>, met: seq<Moment>)
    decreases ops
  {
    && |ops| == |rooms| == |met|
    && (ops != [] ==>
          var n := |ops| - 1;
          && met[n].Meets(like, plain(ops[..n], rooms[..n]), ops[n], rooms[n])
          && Met(like, plain, ops[..n], rooms[..n], met[..n]))
  }

  lemma MetSnoc(like: Store, plain: History, ops: seq<Op>, rooms: seq<bool>, met: seq<Moment>,
                op: Op, room: bool, at: Moment)
    requires Met(like, plain, ops, rooms, met) && at.Meets(like, plain(ops, rooms), op, room)
    ensures Met(like, plain, ops + [op], rooms + [room], met + [at])
  {
    var n := |ops|;
    assert (ops + [op])[..n] == ops && (rooms + [room])[..n] == rooms && (met + [at])[..n] == met;
  }

  /** So much for any one of them. */
  lemma {:induction false} MetAt(like: Store, plain: History, ops: seq<Op>, rooms: seq<bool>, met: seq<Moment>, i: nat)
    requires Met(like, plain, ops, rooms, met) && i < |ops|
    ensures met[i].Meets(like, plain(ops[..i], rooms[..i]), ops[i], rooms[i])
    decreases ops
  {
    var n := |ops| - 1;
    if i < n {
      PrefixPrefix(ops, n, i);
      PrefixPrefix(rooms, n, i);
      MetAt(like, plain, ops[..n], rooms[..n], met[..n], i);
    }
  }

  /** The manager holds what a run of `ops` from `q` leaves, with refusals where `rooms` says so. */
  ghost predicate RanTo(m: BufferManager, like: Store, q: Queue, ops: seq<Op>, codes: seq<Status>, rooms: seq<bool>,
                        met: seq<Moment>)
    reads m
  {
    && m.Valid() && |rooms| == |ops| && q.Ok() && m.store.SameShape(like) && Met(like, After(q), ops, rooms, met)
    && BareQueue(m.State()) == RunIn(q, ops, rooms) && codes == CodesIn(q, ops, rooms)
    && (m.store.Dynamic? ==> false !in rooms)
    && (ops != [] && !rooms[|ops| - 1] ==> RightlyRefused(m, ops[|ops| - 1]))
  }

  /** What the next operation meets. */
  lemma MetNext(m: BufferManager, like: Store, q: Queue, ops: seq<Op>, codes: seq<Status>, rooms: seq<bool>,
                met: seq<Moment>, op: Op) returns (room: bool, met': seq<Moment>)
    requires RanTo(m, like, q, ops, codes, rooms, met)
    ensures room == (op.Pop? || m.HasRoom(op.end, |op.data|))
    ensures Met(like, After(q), ops + [op], rooms + [room], met')
  {
    var at := Moment(m.store, m.live, m.split);
    room, met' := op.Pop? || m.HasRoom(op.end, |op.data|), met + [at];
    assert at.Meets(like, After(q)(ops, rooms), op, room);
    MetSnoc(like, After(q), ops, rooms, met, op, room, at);
  }

  lemma PrefixNext<T>(s: seq<T>, i: nat)
    requires i < |s|
    ensures s[..i + 1] == s[..i] + [s[i]]
  {
  }

  lemma PrefixPrefix<T>(s: seq<T>, n: nat, i: nat)
    requires i <= n <= |s|
    ensures s[..n][..i] == s[..i]
  {
  }

  /** One operation more. */
  method RunFurther(m: BufferManager, op: Op, ghost like: Store, ghost q: Queue, ghost before: seq<Op>,
                    ghost after: seq<Op>, codes: seq<Status>, ghost rooms: seq<bool>, ghost met: seq<Moment>)
      returns (codes': seq<Status>, ghost rooms': seq<bool>, ghost met': seq<Moment>)
    requires RanTo(m, like, q, before, codes, rooms, met) && after == before + [op]
    modifies m
    ensures RanTo(m, like, q, after, codes', rooms', met')
  {
    ghost var room;
    room, met' := MetNext(m, like, q, before, codes, rooms, met, op);
    RunInSnoc(q, before, rooms, op, room);
    var code := Perform(m, op);
    codes', rooms' := codes + [code], rooms + [room];
  }

  /** Runs operations on a manager of either mode, going on after refusals. */
  method RunOn(m: BufferManager, ops: seq<Op>, ghost like: Store, ghost q: Queue)
      returns (codes: seq<Status>, ghost rooms: seq<bool>, ghost met: seq<Moment>)
    requires m.Valid() && q == BareQueue(m.State()) && like == m.store
    modifies m
    ensures RanTo(m, like, q, ops, codes, rooms, met)
  {
    codes, rooms, met := [], [], [];
    for i := 0 to |ops|
      invariant RanTo(m, like, q, ops[..i], codes, rooms, met)
    {
      PrefixNext(ops, i);
      codes, rooms, met := RunFurther(m, ops[i], like, q, ops[..i], ops[..i + 1], codes, rooms, met);
    }
    assert ops[..|ops|] == ops;
  }

  /** A run on a manager of either mode, refusals and all: the list and the account are those of the plain
      list with the same refusals. Each of these met memory that held the plain list and had no room; the
      dynamic mode has none of them. The account stays exact and within the limits. */
  method RunOne(m: BufferManager, ops: seq<Op>)
      returns (codes: seq<Status>, ghost rooms: seq<bool>, ghost met: seq<Moment>)
    requires m.Valid() && Accounted(m.State()) && WithinLimits(m.limits)
    modifies m
    ensures m.Valid() && m.store.SameShape(old(m.store)) && |rooms| == |ops|
    ensures BareQueue(m.State()) == RunIn(BareQueue(old(m.State())), ops, rooms)
    ensures codes == CodesIn(BareQueue(old(m.State())), ops, rooms)
    ensures Met(old(m.store), After(BareQueue(old(m.State()))), ops, rooms, met)
    ensures m.store.Dynamic? ==> false !in rooms
    ensures ops != [] && !rooms[|ops| - 1] ==> RightlyRefused(m, ops[|ops| - 1])
    ensures Accounted(m.State()) && WithinLimits(m.limits)
    ensures m.limits.limitNumber == old(m.limits.limitNumber) && m.limits.limitSize == old(m.limits.limitSize)
  {
    ghost var q := BareQueue(m.State());
    BareAccounted(m.State().blocks);
    codes, rooms, met := RunOn(m, ops, m.store, q);
    RunKeepsAccount(q, ops, rooms);
    BareAccounted(m.State().blocks);
  }
}
