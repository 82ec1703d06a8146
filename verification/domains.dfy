/** Bus ids and the power-of-two domains they span: bit formulas, intervals, and how domains lie to each other. */
module Domains {
  function Pow2(n: nat): (p: nat)
    ensures p >= 1
  {
    if n == 0 then 1 else 2 * Pow2(n - 1)
  }

  /** Bitwise operations on the lowest `n` bits. */
  function BitAnd(x: nat, y: nat, n: nat): nat
    decreases n
  {
    if n == 0 then 0 else (if x % 2 == 1 && y % 2 == 1 then 1 else 0) + 2 * BitAnd(x / 2, y / 2, n - 1)
  }

  function BitOr(x: nat, y: nat, n: nat): nat
    decreases n
  {
    if n == 0 then 0 else (if x % 2 == 1 || y % 2 == 1 then 1 else 0) + 2 * BitOr(x / 2, y / 2, n - 1)
  }

  function BitNot(x: nat, n: nat): nat
    decreases n
  {
    if n == 0 then 0 else 1 - x % 2 + 2 * BitNot(x / 2, n - 1)
  }

  /** The formulas of the source, on words of `bits` bits; the mask must shift within a signed word. */
  function IdMask(mask: nat, bits: nat): nat { BitNot(Pow2(mask) - 1, bits) }

  function MinId(id: nat, mask: nat, bits: nat): nat { BitAnd(id, IdMask(mask, bits), bits) }

  function MaxId(id: nat, mask: nat, bits: nat): nat { BitOr(id, Pow2(mask) - 1, bits) }

  /** Whether `other` agrees with `id` on the bits above `mask`. */
  predicate SameDomain(id: nat, mask: nat, other: nat, bits: nat) {
    BitAnd(other, IdMask(mask, bits), bits) == BitAnd(id, IdMask(mask, bits), bits)
  }

  /** The smallest and the largest number that agree with `x` on all but the lowest `m` bits. */
  function Lo(x: nat, m: nat): nat
    decreases m
  {
    if m == 0 then x else 2 * Lo(x / 2, m - 1)
  }

  function Hi(x: nat, m: nat): nat
    decreases m
  {
    if m == 0 then x else 2 * Hi(x / 2, m - 1) + 1
  }

  lemma {:induction false} AndOnes(x: nat, n: nat)
    requires x < Pow2(n)
    ensures BitAnd(x, BitNot(0, n), n) == x && BitOr(x, 0, n) == x
    decreases n
  {
    if n > 0 {
      AndOnes(x / 2, n - 1);
    }
  }

  /** Clearing and setting the lowest `m` of `n` bits. */
  lemma {:induction false} BitsAreBounds(x: nat, m: nat, n: nat)
    requires x < Pow2(n) && m <= n
    ensures BitAnd(x, BitNot(Pow2(m) - 1, n), n) == Lo(x, m)
    ensures BitOr(x, Pow2(m) - 1, n) == Hi(x, m)
    decreases n
  {
    if m == 0 {
      AndOnes(x, n);
    } else {
      BitsAreBounds(x / 2, m - 1, n - 1);
      assert (Pow2(m) - 1) / 2 == Pow2(m - 1) - 1;
    }
  }

  /** What is left of `x` above bit `m`. */
  function Above(x: nat, m: nat): nat
    decreases m
  {
    if m == 0 then x else Above(x / 2, m - 1)
  }

  lemma {:induction false} AboveIff(x: nat, y: nat, m: nat)
    ensures Lo(x, m) <= x <= Hi(x, m)
    ensures Lo(x, m) <= y <= Hi(x, m) <==> Above(y, m) == Above(x, m)
    ensures Lo(x, m) == Lo(y, m) <==> Above(y, m) == Above(x, m)
    ensures Hi(x, m) == Hi(y, m) <==> Above(y, m) == Above(x, m)
    decreases m
  {
    if m > 0 {
      AboveIff(x / 2, y / 2, m - 1);
    }
  }

  lemma {:induction false} AboveAbove(x: nat, m: nat, k: nat)
    requires m <= k
    ensures Above(x, k) == Above(Above(x, m), k - m)
    decreases m
  {
    if m > 0 {
      AboveAbove(x / 2, m - 1, k - 1);
    }
  }

  /** An endpoint as the tables know it: its id, and how many low bits its domain spans. */
  datatype Peer = Peer(id: nat, mask: nat) {
    function Min(): nat { Lo(id, mask) }

    function Max(): nat { Hi(id, mask) }

    /** Its domain holds `other`. */
    predicate Holds(other: nat) { Min() <= other <= Max() }

    /** No id lies in both domains. */
    predicate Apart(other: Peer) { Max() < other.Min() || other.Max() < Min() }

    /** The other domain lies inside this one. */
    predicate Covers(other: Peer) { Min() <= other.Min() && other.Max() <= Max() }
  }

  /** The bit test of the source is membership in the interval between its own two bounds. */
  lemma BitTestIsInterval(p: Peer, other: nat, bits: nat)
    requires p.id < Pow2(bits) && other < Pow2(bits) && p.mask <= bits
    ensures MinId(p.id, p.mask, bits) == p.Min() && MaxId(p.id, p.mask, bits) == p.Max()
    ensures SameDomain(p.id, p.mask, other, bits) <==> p.Holds(other)
  {
    BitsAreBounds(p.id, p.mask, bits);
    BitsAreBounds(other, p.mask, bits);
    AboveIff(p.id, other, p.mask);
  }

  /** Two domains are apart, or the one with the wider mask covers the other; which of the two, its
      one id tells. */
  lemma NestedOrApart(p: Peer, q: Peer)
    requires p.mask <= q.mask
    ensures p.Holds(p.id) && q.Holds(q.id)
    ensures if q.Holds(p.id) then q.Covers(p) else q.Apart(p)
    ensures p.Holds(q.id) ==> q.Holds(p.id)
  {
    AboveIff(p.id, q.id, p.mask);
    AboveIff(q.id, p.id, q.mask);
    AboveIff(q.id, p.Min(), q.mask);
    AboveIff(q.id, p.Max(), q.mask);
    AboveIff(p.id, p.Min(), p.mask);
    AboveIff(p.id, p.Max(), p.mask);
    BoundsHeld(p.id, p.mask);
    AboveAbove(p.id, p.mask, q.mask);
    AboveAbove(q.id, p.mask, q.mask);
    AboveAbove(p.Min(), p.mask, q.mask);
    AboveAbove(p.Max(), p.mask, q.mask);
    var x := if q.Min() >= p.Min() then q.Min() else p.Min();
    AboveIff(p.id, x, p.mask);
    AboveIff(q.id, x, q.mask);
    AboveAbove(x, p.mask, q.mask);
  }

  lemma {:induction false} BoundsHeld(x: nat, m: nat)
    ensures Above(Lo(x, m), m) == Above(x, m) == Above(Hi(x, m), m)
    decreases m
  {
    if m > 0 {
      BoundsHeld(x / 2, m - 1);
    }
  }
}
