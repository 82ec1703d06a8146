/** Byte-wise feedback shift registers over any state type, seen only through their algebra:
    one step per byte is injective, and xoring a small word into the state after
    a step is the same as xoring it one byte higher before the step. */
module ShiftRegister {
  import opened Base

  /** `step` divides out one byte, `up` moves a word one byte up, `lift` embeds a byte. */
  datatype Register<!S> = Register(step: S -> S, xor: (S, S) -> S, up: S -> S, lift: byte -> S)

  function Iterate<S>(f: S -> S, n: nat, x: S): S
    decreases n
  {
    if n == 0 then x else Iterate(f, n - 1, f(x))
  }

  /** The state after feeding `data`. */
  function Feed<S>(r: Register<S>, x: S, data: seq<byte>): S
    decreases data
  {
    if data == [] then x else Feed(r, r.step(r.xor(x, r.lift(data[0]))), data[1..])
  }

  /** Bytes packed into one word, first byte lowest; `zero` is the word of no bytes. */
  function Pack<S>(r: Register<S>, zero: S, data: seq<byte>): S
    decreases data
  {
    if data == [] then zero else r.xor(r.lift(data[0]), r.up(Pack(r, zero, data[1..])))
  }

  /** The same walk with any per-byte update in place of the register's own. */
  function Run<S>(f: (S, byte) -> S, x: S, data: seq<byte>): S
    decreases data
  {
    if data == [] then x else Run(f, f(x, data[0]), data[1..])
  }

  ghost predicate Injective<S(!new)>(f: S -> S) {
    forall x, y :: f(x) == f(y) ==> x == y
  }

  ghost predicate Slides<S(!new)>(f: S -> S, xor: (S, S) -> S, up: S -> S, fits: S -> bool) {
    forall x, w :: fits(w) ==> f(xor(x, up(w))) == xor(f(x), w)
  }

  ghost predicate Cancels<S(!new)>(xor: (S, S) -> S) {
    && (forall x, y, z :: xor(x, z) == xor(y, z) ==> x == y)
    && (forall x, y, z :: xor(z, x) == xor(z, y) ==> x == y)
  }

  ghost predicate Associates<S(!new)>(xor: (S, S) -> S, zero: S) {
    && (forall x, y, z :: xor(xor(x, y), z) == xor(x, xor(y, z)))
    && (forall x :: xor(x, zero) == x)
  }

  ghost predicate Separates<S(!new)>(r: Register<S>, fits: S -> bool) {
    forall p, q, v, w {:trigger r.lift(p), r.lift(q), fits(v), fits(w)} ::
      fits(v) && fits(w) && r.xor(r.lift(p), r.up(v)) == r.xor(r.lift(q), r.up(w)) ==> p == q && v == w
  }

  /** What makes a register detect bursts; `fits` says that a word leaves its top byte free. */
  ghost predicate Laws<S(!new)>(r: Register<S>, zero: S, fits: S -> bool) {
    && Injective(r.step)
    && Slides(r.step, r.xor, r.up, fits)
    && Associates(r.xor, zero)
    && Cancels(r.xor)
    && Separates(r, fits)
  }

  lemma {:induction false} IterateInjective<S(!new)>(f: S -> S, n: nat, x: S, y: S)
    requires Injective(f) && Iterate(f, n, x) == Iterate(f, n, y)
    ensures x == y
    decreases n
  {
    if n > 0 {
      IterateInjective(f, n - 1, f(x), f(y));
    }
  }

  lemma {:induction false} IterateLast<S>(f: S -> S, n: nat, x: S)
    ensures Iterate(f, n + 1, x) == f(Iterate(f, n, x))
    decreases n
  {
    if n > 0 {
      IterateLast(f, n - 1, f(x));
    }
  }

  /** Sliding through one step extends to sliding through `n`. */
  lemma {:induction false} IterateSlides<S(!new)>(
      f: S -> S, xor: (S, S) -> S, up: S -> S, fits: S -> bool, n: nat, x: S, w: S)
    requires Slides(f, xor, up, fits)
    requires forall k: nat :: k < n ==> fits(Iterate(up, k, w))
    ensures Iterate(f, n, xor(x, Iterate(up, n, w))) == xor(Iterate(f, n, x), w)
    decreases n
  {
    if n > 0 {
      IterateLast(up, n - 1, w);
      IterateSlides(f, xor, up, fits, n - 1, f(x), w);
    }
  }

  lemma {:induction false} FeedConcat<S>(r: Register<S>, x: S, a: seq<byte>, b: seq<byte>)
    ensures Feed(r, x, a + b) == Feed(r, Feed(r, x, a), b)
    decreases a
  {
    if a == [] {
      assert a + b == b;
    } else {
      assert (a + b)[0] == a[0] && (a + b)[1..] == a[1..] + b;
      FeedConcat(r, r.step(r.xor(x, r.lift(a[0]))), a[1..], b);
    }
  }

  lemma {:induction false} RunSnoc<S>(f: (S, byte) -> S, x: S, data: seq<byte>, b: byte)
    ensures Run(f, x, data + [b]) == f(Run(f, x, data), b)
    decreases data
  {
    if data == [] {
      assert data + [b] == [b] && [b][1..] == [];
    } else {
      assert (data + [b])[0] == data[0] && (data + [b])[1..] == data[1..] + [b];
      RunSnoc(f, f(x, data[0]), data[1..], b);
    }
  }

  lemma {:induction false} RunIsFeed<S(!new)>(f: (S, byte) -> S, r: Register<S>, x: S, data: seq<byte>)
    requires forall x, b :: f(x, b) == r.step(r.xor(x, r.lift(b)))
    ensures Run(f, x, data) == Feed(r, x, data)
    decreases data
  {
    if data != [] {
      RunIsFeed(f, r, f(x, data[0]), data[1..]);
    }
  }

  /** No common suffix hides a difference between two states. */
  lemma {:induction false} FeedInjective<S(!new)>(r: Register<S>, x: S, y: S, data: seq<byte>)
    requires Injective(r.step) && Cancels(r.xor)
    requires Feed(r, x, data) == Feed(r, y, data)
    ensures x == y
    decreases data
  {
    if data != [] {
      var b := r.lift(data[0]);
      FeedInjective(r, r.step(r.xor(x, b)), r.step(r.xor(y, b)), data[1..]);
    }
  }

  ghost predicate PacksFit<S>(r: Register<S>, zero: S, fits: S -> bool, data: seq<byte>) {
    forall i :: 0 < i <= |data| ==> fits(Pack(r, zero, data[i..]))
  }

  lemma TailPacksFit<S>(r: Register<S>, zero: S, fits: S -> bool, data: seq<byte>)
    requires data != [] && PacksFit(r, zero, fits, data)
    ensures fits(Pack(r, zero, data[1..])) && PacksFit(r, zero, fits, data[1..])
  {
    forall i | 0 < i <= |data[1..]| ensures fits(Pack(r, zero, data[1..][i..])) {
      assert data[1..][i..] == data[i + 1..];
    }
  }

  /** Over data that fits one word, equal outcomes mean equal state-plus-data words. */
  lemma {:induction false} WindowDetermines<S(!new)>(
      r: Register<S>, zero: S, fits: S -> bool, x: S, y: S, a: seq<byte>, b: seq<byte>)
    requires Injective(r.step) && Slides(r.step, r.xor, r.up, fits) && Associates(r.xor, zero)
    requires |a| == |b| && PacksFit(r, zero, fits, a) && PacksFit(r, zero, fits, b)
    requires Feed(r, x, a) == Feed(r, y, b)
    ensures r.xor(x, Pack(r, zero, a)) == r.xor(y, Pack(r, zero, b))
    decreases a
  {
    if a != [] {
      var p, q := r.xor(x, r.lift(a[0])), r.xor(y, r.lift(b[0]));
      var v, w := Pack(r, zero, a[1..]), Pack(r, zero, b[1..]);
      TailPacksFit(r, zero, fits, a);
      TailPacksFit(r, zero, fits, b);
      WindowDetermines(r, zero, fits, r.step(p), r.step(q), a[1..], b[1..]);
      assert r.step(r.xor(p, r.up(v))) == r.step(r.xor(q, r.up(w)));
    }
  }

  lemma {:induction false} PackInjective<S(!new)>(
      r: Register<S>, zero: S, fits: S -> bool, a: seq<byte>, b: seq<byte>)
    requires Separates(r, fits)
    requires |a| == |b| && PacksFit(r, zero, fits, a) && PacksFit(r, zero, fits, b)
    requires Pack(r, zero, a) == Pack(r, zero, b)
    ensures a == b
    decreases a
  {
    if a != [] {
      TailPacksFit(r, zero, fits, a);
      TailPacksFit(r, zero, fits, b);
      assert a[0] == b[0] && Pack(r, zero, a[1..]) == Pack(r, zero, b[1..]);
      PackInjective(r, zero, fits, a[1..], b[1..]);
      assert a == [a[0]] + a[1..] && b == [b[0]] + b[1..];
    }
  }

  lemma {:induction false} PackStaysBelow<S(!new)>(
      r: Register<S>, zero: S, below: (S, nat) -> bool, limit: nat, data: seq<byte>)
    requires below(zero, 0)
    requires forall b: byte, w, n: nat {:trigger r.lift(b), below(w, n)} ::
               n < limit && below(w, n) ==> below(r.xor(r.lift(b), r.up(w)), n + 1)
    requires |data| <= limit
    ensures below(Pack(r, zero, data), |data|)
    decreases data
  {
    if data != [] {
      PackStaysBelow(r, zero, below, limit, data[1..]);
      assert below(Pack(r, zero, data[1..]), |data| - 1);
    }
  }

  /** Data of equal length that differ only inside one word end in different states. */
  lemma BurstDetected<S(!new)>(
      r: Register<S>, zero: S, fits: S -> bool, x: S,
      prefix: seq<byte>, a: seq<byte>, b: seq<byte>, suffix: seq<byte>)
    requires Laws(r, zero, fits)
    requires |a| == |b| && PacksFit(r, zero, fits, a) && PacksFit(r, zero, fits, b)
    ensures Feed(r, x, prefix + a + suffix) == Feed(r, x, prefix + b + suffix) <==> a == b
  {
    var state := Feed(r, x, prefix);
    FeedConcat(r, x, prefix + a, suffix);
    FeedConcat(r, x, prefix, a);
    FeedConcat(r, x, prefix + b, suffix);
    FeedConcat(r, x, prefix, b);
    if Feed(r, x, prefix + a + suffix) == Feed(r, x, prefix + b + suffix) {
      FeedInjective(r, Feed(r, state, a), Feed(r, state, b), suffix);
      WindowDetermines(r, zero, fits, state, state, a, b);
      PackInjective(r, zero, fits, a, b);
    }
  }
}
