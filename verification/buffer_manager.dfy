/** The buffer manager object in its two modes, each proved against the block list. */
module BufferManagers {
  import opened Base
  import opened BlockList
  import CircleLayout
  import opened Buffers
  import opened StaticBuffers
  import opened DynamicBuffers

  /** Where the blocks live: a list of allocations, or one static region. */
  datatype Store = Dynamic(list: seq<Block>, heap: nat) | Region(st: Static) {
    ghost predicate Ok(a: seq<nat>, split: nat) {
      match this
      case Dynamic(list, heap) => HeapOk(list, heap)
      case Region(st) => st.Ok(a, split)
    }

    ghost function Blocks(a: seq<nat>, split: nat): (b: seq<Block>)
      requires Ok(a, split)
      ensures forall x :: x in b ==> x.Ok()
    {
      if Dynamic? then list else BlocksAt(st.mem, a)
    }

    ghost predicate HasRoom(a: seq<nat>, split: nat, end: End, s: nat)
      requires Ok(a, split)
    {
      Dynamic? || StaticBuffers.HasRoom(st, a, end, FullSize(s))
    }

    /** The mode and the sizes that never change. */
    predicate SameShape(other: Store) {
      && (Dynamic? <==> other.Dynamic?)
      && (Region? && other.Region? ==> |st.mem| == |other.st.mem| && |st.index| == |other.st.index|)
    }
  }

  ghost predicate IsNew(b: Block, s: nat, pointer: Option<nat>) {
    b.Ok() && b.size == s && b.used == 0 && pointer == Some(b.pointer)
  }

  method StorePush(store: Store, ghost a: seq<nat>, ghost split: nat, end: End, s: nat)
      returns (store': Store, status: Status, pointer: Option<nat>, ghost a': seq<nat>, ghost split': nat)
    requires store.Ok(a, split)
    ensures store'.Ok(a', split') && store'.SameShape(store)
    ensures if !store.HasRoom(a, split, end, s) then
              && status == BuffLimit && pointer == None && store'.Blocks(a', split') == store.Blocks(a, split)
              && !store'.HasRoom(a', split', end, s)
            else
              status == Success &&
              exists b: Block ::
                IsNew(b, s, pointer) && store'.Blocks(a', split') == Joined(end, store.Blocks(a, split), b)
  {
    match store {
      case Dynamic(list, heap) =>
        var list', heap', p := DynamicPush(list, heap, end, s);
        store', status, pointer, a', split' := Dynamic(list', heap'), Success, p, a, split;
        ghost var b: Block :| b.Ok() && b.size == s && b.used == 0 && b.pointer == p.value &&
                              list' == Joined(end, list, b);
        assert IsNew(b, s, pointer);
      case Region(st) =>
        var st';
        if end.Back? {
          st', status, pointer, a', split' := StaticPushBack(st, a, split, s);
        } else {
          st', status, pointer, a', split' := StaticPushFront(st, a, split, s);
        }
        store' := Region(st');
        if status == Success {
          ghost var b: Block :| b.Ok() && b.size == s && b.used == 0 && b.pointer == pointer.value &&
                                BlocksAt(st'.mem, a') == Joined(end, BlocksAt(st.mem, a), b);
          assert IsNew(b, s, pointer);
        }
    }
  }

  /** No two live blocks share an address. */
  lemma PointersDistinct(store: Store, a: seq<nat>, split: nat, i: nat, j: nat)
    requires store.Ok(a, split) && i < j < |store.Blocks(a, split)|
    ensures store.Blocks(a, split)[i].pointer != store.Blocks(a, split)[j].pointer
  {
    if store.Region? {
      var st := store.st;
      CircleLayout.LayoutDisjoint(a, Ends(st.mem, a), st.index[st.tail].value, |st.mem|, split, i, j);
      assert Ends(st.mem, a)[i] == EndOf(st.mem, a[i]) && Ends(st.mem, a)[j] == EndOf(st.mem, a[j]);
    }
  }

  /** An empty static region takes any block that fits it whole. */
  lemma EmptyRoom(store: Store, a: seq<nat>, split: nat, s: nat)
    requires store.Ok(a, split) && store.Blocks(a, split) == []
    ensures store.HasRoom(a, split, Back, s) <==> (store.Region? ==> FullSize(s) <= |store.st.mem|)
  {
    if store.Region? {
      assert a == [];
      RoomBackIff(store.st, a, FullSize(s));
      EndsNamed(store.st, a, split);
    }
  }

  method StoreEmpty(store: Store, ghost a: seq<nat>, ghost split: nat) returns (empty: bool)
    requires store.Ok(a, split)
    ensures empty == (store.Blocks(a, split) == [])
  {
    match store {
      case Dynamic(list, heap) => empty := list == [];
      case Region(st) =>
        EndsNamed(st, a, split);
        empty := st.head == st.tail;
    }
  }

  method StorePop(store: Store, ghost a: seq<nat>, ghost split: nat, end: End, s: nat, free: bool)
      returns (store': Store, taken: nat, freed: bool, empty: bool, ghost a': seq<nat>, ghost split': nat)
    requires store.Ok(a, split) && store.Blocks(a, split) != []
    ensures store'.Ok(a', split') && store'.SameShape(store)
    ensures Drained(store'.Blocks(a', split'), taken, freed) == Drain(store.Blocks(a, split), end, s, free)
    ensures empty == (store'.Blocks(a', split') == [])
  {
    match store {
      case Dynamic(list, heap) =>
        var list';
        list', taken, freed := DynamicPop(list, heap, end, s, free);
        store', empty, a', split' := Dynamic(list', heap), list' == [], a, split;
      case Region(st) =>
        var st';
        st', taken, freed, empty, a', split' := StaticPop(st, a, split, end, s, free);
        store' := Region(st');
    }
  }

  /** The header of the block at one end. */
  method StoreHead(store: Store, ghost a: seq<nat>, ghost split: nat, end: End) returns (h: Cell)
    requires store.Ok(a, split) && store.Blocks(a, split) != []
    ensures var b := Pick(store.Blocks(a, split), end); h == Head(b.size, b.used, b.pointer)
  {
    match store {
      case Dynamic(list, heap) =>
        var b := Pick(list, end);
        h := Head(b.size, b.used, b.pointer);
      case Region(st) =>
        h := StaticHead(st, a, split, end);
    }
  }

  method StoreWrite(store: Store, ghost a: seq<nat>, ghost split: nat, end: End, data: seq<byte>)
      returns (store': Store)
    requires store.Ok(a, split) && store.Blocks(a, split) != []
    requires |data| <= Pick(store.Blocks(a, split), end).Unread()
    ensures store'.Ok(a, split) && store'.SameShape(store)
    ensures var b := store.Blocks(a, split); store'.Blocks(a, split) == Replaced(end, b, Pick(b, end).Write(data))
  {
    match store {
      case Dynamic(list, heap) =>
        var b := Pick(list, end).Write(data);
        store' := Dynamic(Replaced(end, list, b), heap);
      case Region(st) =>
        var st' := StaticWrite(st, a, split, end, data);
        store' := Region(st');
    }
  }

  class BufferManager {
    var store: Store
    var limits: Limits
    ghost var live: seq<nat>
    ghost var split: nat

    ghost predicate Valid()
      reads this
    {
      store.Ok(live, split)
    }

    /** The list of blocks and the cost account. */
    ghost function State(): (q: Queue)
      requires Valid()
      reads this
      ensures q.Ok()
    {
      Queue(store.Blocks(live, split), limits)
    }

    /** Whether the memory, apart from the limits, can take `s` more bytes at one end. */
    ghost predicate HasRoom(end: End, s: nat)
      requires Valid()
      reads this
    {
      store.HasRoom(live, split, end, s)
    }

    constructor ()
      ensures Valid() && store.Dynamic? && State() == Queue([], Limits(0, 0, 0, 0))
    {
      store, limits := Dynamic([], 0), Limits(0, 0, 0, 0);
      live, split := [], 0;
    }

    method SetLimit(maxSize: nat, maxNumber: nat) returns (ok: bool)
      requires Valid()
      modifies this`limits
      ensures Valid() && ok == store.Dynamic?
      ensures limits == if ok then old(limits).(limitNumber := maxNumber, limitSize := maxSize) else old(limits)
    {
      ok := store.Dynamic?;
      if ok {
        limits := limits.(limitNumber := maxNumber, limitSize := maxSize);
      }
    }

    method Reset()
      modifies this
      ensures Valid() && store.Dynamic? && State() == Queue([], Limits(0, 0, 0, 0)) && live == []
    {
      store, limits, live := Dynamic([], 0), Limits(0, 0, 0, 0), [];
    }

    method SetMode(maxSize: nat, maxNumber: nat)
      modifies this
      ensures Valid() && (store.Region? <==> maxSize != 0 && maxNumber != 0)
      ensures store.Region? ==> |store.st.mem| == PaddingSize(maxSize) && |store.st.index| == maxNumber + 1
      ensures State() == Queue([], if store.Region? then Limits(0, 0, maxNumber, maxSize) else Limits(0, 0, 0, 0))
    {
      Reset();
      if maxSize != 0 && maxNumber > 0 {
        store := Region(Static(seq(PaddingSize(maxSize), _ => Raw(0)), 0, 0, seq(maxNumber + 1, _ => None)));
        limits := limits.(limitSize := maxSize, limitNumber := maxNumber);
      }
    }

    method Empty() returns (e: bool)
      requires Valid()
      ensures e == (State().blocks == [])
    {
      e := StoreEmpty(store, live, split);
    }

    /** Where the next bytes of the block at one end go, with its used and unread sizes. */
    method Peek(end: End) returns (status: Status, pointer: Option<nat>, nread: nat, nwrite: nat)
      requires Valid()
      ensures State().blocks == [] ==> status == NoData && pointer == None && nread == nwrite == 0
      ensures State().blocks != [] ==>
                var b := State().At(end);
                status == Success && pointer == Some(b.pointer + b.used) && nread == b.used && nwrite == b.Unread()
    {
      var empty := Empty();
      if empty {
        return NoData, None, 0, 0;
      }
      var h := StoreHead(store, live, split, end);
      return Success, Some(h.pointer + h.used), h.used, h.size - h.used;
    }

    /** The whole content of the block at one end, used or not. */
    method Content(end: End) returns (data: seq<byte>)
      requires Valid() && State().blocks != []
      ensures data == State().At(end).bytes
    {
      match store {
        case Dynamic(list, heap) => data := Pick(list, end).bytes;
        case Region(st) => data := StaticContent(st, live, split, end);
      }
    }

    /** What a push did to the list, given whether the memory had room. */
    ghost predicate PushResult(q: Queue, room: bool, end: End, s: nat, status: Status, pointer: Option<nat>)
      requires Valid()
      reads this
    {
      if q.limits.Refuses(s) || !room then status == BuffLimit && pointer == None && State() == q
      else status == Success && exists b: Block :: IsNew(b, s, pointer) && State() == q.Put(end, b)
    }

    method Push(end: End, s: nat) returns (status: Status, pointer: Option<nat>)
      requires Valid()
      modifies this
      ensures Valid() && store.SameShape(old(store))
      ensures PushResult(old(State()), old(HasRoom(end, s)), end, s, status, pointer)
      ensures status != Success && !limits.Refuses(s) ==> !HasRoom(end, s)
      ensures Accounted(old(State())) ==> (status == Success <==> !Overfull(old(State()), s) && old(HasRoom(end, s)))
    {
      if limits.Refuses(s) {
        return BuffLimit, None;
      }
      var store';
      store', status, pointer, live, split := StorePush(store, live, split, end, s);
      store := store';
      if status == Success {
        limits := limits.Charge(s);
      }
    }

    method Pop(end: End, s: nat, free: bool) returns (status: Status)
      requires Valid()
      modifies this
      ensures Valid() && store.SameShape(old(store))
      ensures (State(), status) == old(State()).Take(end, s, free)
    {
      var empty := Empty();
      if empty {
        return NoData;
      }
      var store', taken, freed;
      store', taken, freed, empty, live, split := StorePop(store, live, split, end, s, free);
      store, limits := store', limits.Refund(taken, freed, empty);
      status := Success;
    }

    /** A caller stores `data` through the pointer of the block at one end. */
    method Write(end: End, data: seq<byte>)
      requires Valid() && State().blocks != [] && |data| <= State().At(end).Unread()
      modifies this`store
      ensures Valid() && store.SameShape(old(store))
      ensures State() == old(State()).WriteAt(end, data)
    {
      store := StoreWrite(store, live, split, end, data);
    }
  }
}
