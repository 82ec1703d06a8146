/** Where the blocks of the static buffer lie: at most two runs of adjacent blocks,
    and the circular index that lists them in order. */
module CircleLayout {
  import opened Base

  /** The next slot of a circular index of `cap` slots. */
  function Next(i: nat, cap: nat): (n: nat)
    requires i < cap
    ensures n < cap
  {
    if i + 1 == cap then 0 else i + 1
  }

  function Prev(i: nat, cap: nat): (p: nat)
    requires i < cap
    ensures p < cap
  {
    if i == 0 then cap - 1 else i - 1
  }

  /** The neighbouring slots are what the remainders compute. */
  lemma NeighboursByRemainder(i: nat, cap: nat)
    requires i < cap
    ensures (i + 1) % cap == Next(i, cap) && (i + cap - 1) % cap == Prev(i, cap)
  {
    WrapMod(i + 1, cap);
    WrapMod(i + cap - 1, cap);
  }

  lemma WrapMod(x: nat, cap: nat)
    requires x < cap + cap
    ensures x % cap == if x < cap then x else x - cap
  {
    if x >= cap {
      ModUnique(x, 1, x - cap, cap);
    } else {
      ModUnique(x, 0, x, cap);
    }
  }

  lemma ModUnique(x: nat, q: nat, r: nat, d: nat)
    requires r < d && x == q * d + r
    ensures x % d == r && x / d == q
  {
    var k := x / d - q;
    assert x == d * (x / d) + x % d;
    assert d * k == r - x % d;
    assert k >= 1 ==> d * k >= d;
    assert k <= -1 ==> d * k + d <= 0;
  }

  /** How many blocks lie between the two ends of the index. */
  function Count(head: nat, tail: nat, cap: nat): nat
    requires head < cap && tail < cap
  {
    if head <= tail then tail - head else tail + cap - head
  }

  function Slot(head: nat, i: nat, cap: nat): (k: nat)
    requires head < cap && i < cap
    ensures k < cap
  {
    if head + i < cap then head + i else head + i - cap
  }

  /** The slots from `head` up to `tail` hold the block addresses `a` in order, and a
      nonempty index names the first free byte in its tail slot. */
  ghost predicate Tracks(head: nat, tail: nat, index: seq<Option<nat>>, a: seq<nat>) {
    && |index| >= 2 && head < |index| && tail < |index|
    && |a| == Count(head, tail, |index|)
    && (forall i :: 0 <= i < |a| ==> index[Slot(head, i, |index|)] == Some(a[i]))
    && (a != [] ==> index[tail].Some?)
  }

  lemma IndexPushBack(head: nat, tail: nat, index: seq<Option<nat>>, a: seq<nat>, at: nat, next: nat)
    requires Tracks(head, tail, index, a) && Next(tail, |index|) != head
    ensures Tracks(head, Next(tail, |index|), index[tail := Some(at)][Next(tail, |index|) := Some(next)], a + [at])
    ensures index[tail := Some(at)][Next(tail, |index|) := Some(next)][Next(tail, |index|)] == Some(next)
  {
    var t := Next(tail, |index|);
    assert |a| + 1 < |index| && Count(head, t, |index|) == |a| + 1;
    forall i | 0 <= i <= |a| ensures Slot(head, i, |index|) != t && (Slot(head, i, |index|) == tail <==> i == |a|) {
    }
  }

  lemma IndexPushFront(head: nat, tail: nat, index: seq<Option<nat>>, a: seq<nat>, at: nat)
    requires Tracks(head, tail, index, a) && Next(tail, |index|) != head && index[tail].Some?
    ensures Tracks(Prev(head, |index|), tail, index[Prev(head, |index|) := Some(at)], [at] + a)
    ensures index[Prev(head, |index|) := Some(at)][tail] == index[tail]
  {
    var h := Prev(head, |index|);
    assert |a| + 1 < |index| && Count(h, tail, |index|) == |a| + 1;
    forall i | 0 <= i <= |a| ensures Slot(h, i, |index|) == if i == 0 then h else Slot(head, i - 1, |index|) {
    }
    forall i | 0 <= i < |a| ensures Slot(head, i, |index|) != h {
    }
  }

  lemma IndexPopBack(head: nat, tail: nat, index: seq<Option<nat>>, a: seq<nat>)
    requires Tracks(head, tail, index, a) && a != []
    ensures index[Prev(tail, |index|)] == Some(a[|a| - 1])
    ensures Tracks(head, Prev(tail, |index|), index[tail := None], a[..|a| - 1])
  {
    var t := Prev(tail, |index|);
    assert Slot(head, |a| - 1, |index|) == t;
    forall i | 0 <= i < |a| ensures Slot(head, i, |index|) != tail {
    }
  }

  lemma IndexPopFront(head: nat, tail: nat, index: seq<Option<nat>>, a: seq<nat>)
    requires Tracks(head, tail, index, a) && a != []
    ensures index[head] == Some(a[0])
    ensures Tracks(Next(head, |index|), tail, index[head := None], a[1..])
  {
    var h := Next(head, |index|);
    assert Slot(head, 0, |index|) == head;
    assert Count(h, tail, |index|) == |a| - 1;
    forall i | 0 <= i < |a| - 1 ensures Slot(h, i, |index|) == Slot(head, i + 1, |index|) != head {
    }
  }

  /** Blocks `[a[i], e[i])` that follow each other without a hole from `from` up to `to`. */
  ghost predicate Chain(a: seq<nat>, e: seq<nat>, from: nat, to: nat)
    requires |a| == |e|
    decreases a
  {
    if a == [] then from == to else a[0] == from < e[0] && Chain(a[1..], e[1..], e[0], to)
  }

  /** The blocks `[a[i], e[i])` in a region of `size` bytes with `tail` the first free byte.

      Either one chain ends at `tail`, or the chain of the `split` oldest blocks lies behind
      a chain of newer blocks that ends at `tail`, with a nonempty gap between the two. */
  ghost predicate Layout(a: seq<nat>, e: seq<nat>, tail: nat, size: nat, split: nat) {
    && |a| == |e| && 1 <= split <= |a|
    && if a[0] <= tail then split == |a| && Chain(a, e, a[0], tail) && tail <= size
       else
         && Chain(a[..split], e[..split], a[0], e[split - 1]) && e[split - 1] <= size
         && (split < |a| ==> Chain(a[split..], e[split..], a[split], tail))
  }

  lemma {:induction false} ChainBounds(a: seq<nat>, e: seq<nat>, from: nat, to: nat, i: nat)
    requires |a| == |e| && i < |a| && Chain(a, e, from, to)
    ensures from <= a[i] < e[i] <= to
    decreases a
  {
    ChainGrows(a[1..], e[1..], e[0], to);
    if i > 0 {
      ChainBounds(a[1..], e[1..], e[0], to, i - 1);
    }
  }

  lemma {:induction false} ChainGrows(a: seq<nat>, e: seq<nat>, from: nat, to: nat)
    requires |a| == |e| && Chain(a, e, from, to)
    ensures from <= to && (a != [] ==> from == a[0] && to == e[|e| - 1])
    decreases a
  {
    if a != [] {
      ChainGrows(a[1..], e[1..], e[0], to);
    }
  }

  lemma {:induction false} ChainOrdered(a: seq<nat>, e: seq<nat>, from: nat, to: nat, i: nat, j: nat)
    requires |a| == |e| && i < j < |a| && Chain(a, e, from, to)
    ensures e[i] <= a[j]
    decreases a
  {
    if i == 0 {
      ChainBounds(a[1..], e[1..], e[0], to, j - 1);
    } else {
      ChainOrdered(a[1..], e[1..], e[0], to, i - 1, j - 1);
    }
  }

  lemma {:induction false} ChainSnoc(a: seq<nat>, e: seq<nat>, from: nat, mid: nat, to: nat)
    requires |a| == |e| && Chain(a, e, from, mid) && mid < to
    ensures Chain(a + [mid], e + [to], from, to)
    decreases a
  {
    if a == [] {
      assert (a + [mid])[1..] == [] && (e + [to])[1..] == [];
    } else {
      assert (a + [mid])[1..] == a[1..] + [mid] && (e + [to])[1..] == e[1..] + [to];
      ChainSnoc(a[1..], e[1..], e[0], mid, to);
    }
  }

  lemma {:induction false} ChainInit(a: seq<nat>, e: seq<nat>, from: nat, to: nat)
    requires |a| == |e| && a != [] && Chain(a, e, from, to)
    ensures Chain(a[..|a| - 1], e[..|a| - 1], from, a[|a| - 1])
    decreases a
  {
    if |a| > 1 {
      var n := |a| - 1;
      assert a[..n][1..] == a[1..][..n - 1] && e[..n][1..] == e[1..][..n - 1];
      ChainInit(a[1..], e[1..], e[0], to);
    }
  }

  lemma ChainCons(a: seq<nat>, e: seq<nat>, from: nat, mid: nat, to: nat)
    requires |a| == |e| && Chain(a, e, mid, to) && from < mid
    ensures Chain([from] + a, [mid] + e, from, to)
  {
    assert ([from] + a)[1..] == a && ([mid] + e)[1..] == e;
  }

  /** Where block `i` lies: in the only chain, in the older one, or in the newer one. */
  lemma Located(a: seq<nat>, e: seq<nat>, tail: nat, size: nat, split: nat, i: nat)
    requires Layout(a, e, tail, size, split) && i < |a|
    ensures if i < split then a[0] <= a[i] < e[i] <= size else a[i] < e[i] <= tail < a[0]
    ensures a[0] <= tail ==> e[i] <= tail <= size
    ensures tail <= size
  {
    if a[0] <= tail {
      ChainBounds(a, e, a[0], tail, i);
    } else if i < split {
      ChainBounds(a[..split], e[..split], a[0], e[split - 1], i);
    } else {
      ChainBounds(a[split..], e[split..], a[split], tail, i - split);
    }
    if a[0] > tail {
      ChainBounds(a[..split], e[..split], a[0], e[split - 1], 0);
    }
  }

  /** All live blocks are in bounds and pairwise disjoint. */
  lemma LayoutDisjoint(a: seq<nat>, e: seq<nat>, tail: nat, size: nat, split: nat, i: nat, j: nat)
    requires Layout(a, e, tail, size, split) && i < |a| && j < |a| && i != j
    ensures e[i] <= size && (e[i] <= a[j] || e[j] <= a[i])
  {
    Located(a, e, tail, size, split, i);
    Located(a, e, tail, size, split, j);
    var l, h := if i < j then i else j, if i < j then j else i;
    if a[0] <= tail {
      ChainOrdered(a, e, a[0], tail, l, h);
    } else if h < split {
      ChainOrdered(a[..split], e[..split], a[0], e[split - 1], l, h);
    } else if l >= split {
      ChainOrdered(a[split..], e[split..], a[split], tail, l - split, h - split);
    }
  }

  /** Free space `[at, to)` behind the last block, as the allocator finds it. */
  ghost predicate RoomBehind(a: seq<nat>, tail: nat, size: nat, at: nat, to: nat)
    requires a != []
  {
    at < to &&
    if a[0] <= tail then (at == tail && to <= size) || (at == 0 && to < a[0]) else at == tail && to < a[0]
  }

  /** That is every gap that starts at the first free byte, or at the start of the region if the newest block is
      behind the oldest: it stays in the region, meets no live block, and does not end where the oldest starts. */
  lemma BehindIsGap(a: seq<nat>, e: seq<nat>, tail: nat, size: nat, split: nat, at: nat, to: nat)
    requires Layout(a, e, tail, size, split) && at < to
    ensures RoomBehind(a, tail, size, at, to) <==>
              && to <= size && (at == tail || (at == 0 && a[0] <= tail))
              && (forall i :: 0 <= i < |a| ==> e[i] <= at || to <= a[i]) && to != a[0]
  {
    forall i | 0 <= i < |a|
      ensures a[i] < e[i] <= size && tail <= size && (a[0] <= tail ==> a[0] <= a[i] && e[i] <= tail)
      ensures a[0] > tail ==> if i < split then a[0] <= a[i] else e[i] <= tail
    {
      Located(a, e, tail, size, split, i);
    }
  }

  lemma LayoutPushBack(a: seq<nat>, e: seq<nat>, tail: nat, size: nat, split: nat, at: nat, to: nat)
      returns (split': nat)
    requires Layout(a, e, tail, size, split) && RoomBehind(a, tail, size, at, to)
    ensures Layout(a + [at], e + [to], to, size, split')
  {
    var b, g := a + [at], e + [to];
    split' := split;
    if a[0] > tail {
      assert b[..split] == a[..split] && g[..split] == e[..split];
      assert b[split..] == a[split..] + [at] && g[split..] == e[split..] + [to];
      if split < |a| {
        ChainSnoc(a[split..], e[split..], a[split], tail, to);
      } else {
        ChainSnoc([], [], at, at, to);
      }
    } else {
      Located(a, e, tail, size, split, 0);
      if at == tail {
        split' := |b|;
        ChainSnoc(a, e, a[0], tail, to);
      } else {
        ChainGrows(a, e, a[0], tail);
        assert b[..split] == a && g[..split] == e && b[split..] == [at] && g[split..] == [to];
        ChainSnoc([], [], at, at, to);
      }
    }
  }

  /** Free space `[at, to)` before the oldest block, as the allocator finds it. */
  ghost predicate RoomBefore(a: seq<nat>, tail: nat, size: nat, at: nat, to: nat)
    requires a != []
  {
    at < to &&
    if a[0] <= tail then to == a[0] || (to == size && tail < at) else to == a[0] && tail < at
  }

  /** That is every gap that ends where the oldest block starts, or at the end of the region if the newest block
      is behind the oldest: it stays in the region, meets no live block, and leaves the first free byte out. */
  lemma BeforeIsGap(a: seq<nat>, e: seq<nat>, tail: nat, size: nat, split: nat, at: nat, to: nat)
    requires Layout(a, e, tail, size, split) && at < to
    ensures RoomBefore(a, tail, size, at, to) <==>
              && to <= size && (to == a[0] || (to == size && a[0] <= tail))
              && (forall i :: 0 <= i < |a| ==> e[i] <= at || to <= a[i]) && (tail < at || to <= tail)
  {
    if a[0] <= tail {
      ChainGrows(a, e, a[0], tail);
    }
    forall i | 0 <= i < |a|
      ensures a[i] < e[i] <= size && tail <= size && (a[0] <= tail ==> a[0] <= a[i] && e[i] <= tail)
      ensures a[0] > tail ==> if i < split then a[0] <= a[i] else e[i] <= tail
    {
      Located(a, e, tail, size, split, i);
    }
  }

  lemma LayoutPushFront(a: seq<nat>, e: seq<nat>, tail: nat, size: nat, split: nat, at: nat, to: nat)
      returns (split': nat)
    requires Layout(a, e, tail, size, split) && RoomBefore(a, tail, size, at, to)
    ensures Layout([at] + a, [to] + e, tail, size, split')
  {
    var b, g := [at] + a, [to] + e;
    Located(a, e, tail, size, split, 0);
    if a[0] > tail {
      split' := split + 1;
      assert b[..split'] == [at] + a[..split] && g[..split'] == [to] + e[..split];
      assert b[split'..] == a[split..] && g[split'..] == e[split..];
      ChainCons(a[..split], e[..split], at, to, e[split - 1]);
    } else if to == a[0] {
      split' := split + 1;
      ChainCons(a, e, at, to, tail);
    } else {
      split' := 1;
      assert b[..1] == [at] && g[..1] == [to] && b[1..] == a && g[1..] == e;
      ChainSnoc([], [], at, at, to);
    }
  }

  lemma LayoutPopBack(a: seq<nat>, e: seq<nat>, tail: nat, size: nat, split: nat) returns (split': nat)
    requires Layout(a, e, tail, size, split) && |a| >= 2
    ensures Layout(a[..|a| - 1], e[..|a| - 1], a[|a| - 1], size, split')
  {
    var n := |a| - 1;
    var b, g := a[..n], e[..n];
    Located(a, e, tail, size, split, n);
    split' := if split == |a| then n else split;
    if a[0] <= tail {
      ChainInit(a, e, a[0], tail);
    } else if split == |a| {
      assert a[..split] == a && e[..split] == e;
      ChainInit(a, e, a[0], e[split - 1]);
    } else {
      assert b[..split] == a[..split] && g[..split] == e[..split];
      assert b[split..] == a[split..][..n - split] && g[split..] == e[split..][..n - split];
      ChainInit(a[split..], e[split..], a[split], tail);
    }
  }

  lemma LayoutPopFront(a: seq<nat>, e: seq<nat>, tail: nat, size: nat, split: nat) returns (split': nat)
    requires Layout(a, e, tail, size, split) && |a| >= 2
    ensures Layout(a[1..], e[1..], tail, size, split')
  {
    var b, g := a[1..], e[1..];
    Located(a, e, tail, size, split, 1);
    split' := if split == 1 then |b| else split - 1;
    if a[0] <= tail {
      ChainGrows(b, g, e[0], tail);
    } else if split > 1 {
      assert b[..split'] == a[..split][1..] && g[..split'] == e[..split][1..];
      assert b[split'..] == a[split..] && g[split'..] == e[split..];
      ChainGrows(a[..split][1..], e[..split][1..], e[0], e[split - 1]);
    }
  }
}
