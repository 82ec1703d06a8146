/** The operations of the dynamic mode: a list of separately allocated blocks. */
module DynamicBuffers {
  import opened Base
  import opened BlockList

  /** Live blocks have distinct addresses below the next one the heap hands out. */
  ghost predicate HeapOk(list: seq<Block>, heap: nat) {
    && (forall b :: b in list ==> b.Ok() && b.pointer < heap)
    && (forall i, j :: 0 <= i < j < |list| ==> list[i].pointer != list[j].pointer)
  }

  function NewBlock(pointer: nat, s: nat): (b: Block)
    ensures b.Ok()
  {
    Block(pointer, s, 0, seq<byte>(s, _ => 0))
  }

  method DynamicPush(list: seq<Block>, heap: nat, end: End, s: nat)
      returns (list': seq<Block>, heap': nat, pointer: Option<nat>)
    requires HeapOk(list, heap)
    ensures HeapOk(list', heap') && pointer.Some?
    ensures exists b: Block :: b.Ok() && b.size == s && b.used == 0 && b.pointer == pointer.value &&
                               list' == Joined(end, list, b)
  {
    var b := NewBlock(heap, s);
    list', heap', pointer := Joined(end, list, b), heap + s + 1, Some(heap);
  }

  method DynamicPop(list: seq<Block>, heap: nat, end: End, s: nat, free: bool)
      returns (list': seq<Block>, taken: nat, freed: bool)
    requires HeapOk(list, heap) && list != []
    ensures HeapOk(list', heap) && Drained(list', taken, freed) == Drain(list, end, s, free)
  {
    var b := Pick(list, end);
    taken := if s > b.Unread() then b.Unread() else s;
    b := b.Pop(taken);
    freed := free && b.Unread() == 0;
    list' := if freed then Dropped(end, list) else Replaced(end, list, b);
  }
}
