/** A circular buffer seen from a moving origin: rotated so that it starts there, it is a plain sequence. */
module Rings {
  import CircleLayout

  /** The index `k` places further round a ring of `n`. */
  function Ahead(i: nat, k: nat, n: nat): (j: nat)
    requires i < n && k <= n
    ensures j < n
  {
    if i + k < n then i + k else i + k - n
  }

  lemma AheadByRemainder(i: nat, k: nat, n: nat)
    requires i < n && k <= n
    ensures (i + k) % n == Ahead(i, k, n)
  {
    CircleLayout.WrapMod(i + k, n);
  }

  lemma AheadAhead(i: nat, k: nat, m: nat, n: nat)
    requires i < n && k + m <= n
    ensures Ahead(Ahead(i, k, n), m, n) == Ahead(i, k + m, n)
  {
  }

  /** How far `j` lies round the ring from `i`. */
  lemma DistanceByRemainder(i: nat, k: nat, n: nat)
    requires i < n && k < n
    ensures (Ahead(i, k, n) + n - i) % n == k
  {
    var d := Ahead(i, k, n) + n - i;
    if i + k < n {
      assert d == k + n;
      AheadByRemainder(k, n, n);
    } else {
      assert d == k;
    }
  }

  /** The free places in front of `i` when `k` are taken, one always kept empty. */
  lemma FreeByRemainder(i: nat, k: nat, n: nat)
    requires i < n && k < n
    ensures (i + n - Ahead(i, k, n) - 1) % n == n - 1 - k
  {
    var d := i + n - Ahead(i, k, n) - 1;
    if i + k < n {
      assert d == n - 1 - k;
    } else {
      assert d == (n - 1 - k) + n;
      AheadByRemainder(n - 1 - k, n, n);
    }
  }

  function Rotated<T>(s: seq<T>, r: nat): (t: seq<T>)
    requires r <= |s|
    ensures |t| == |s|
  {
    s[r..] + s[..r]
  }

  lemma RotatedAt<T>(s: seq<T>, r: nat, k: nat)
    requires r < |s| && k < |s|
    ensures Rotated(s, r)[k] == s[Ahead(r, k, |s|)]
  {
  }

  lemma RotatedTwice<T>(s: seq<T>, r: nat, k: nat)
    requires r < |s| && k <= |s|
    ensures Rotated(s, Ahead(r, k, |s|)) == Rotated(s, r)[k..] + Rotated(s, r)[..k]
  {
    var t := Rotated(s, r);
    if r + k < |s| {
      assert t[k..] == s[r + k..] + s[..r];
      assert t[..k] == s[r..r + k];
      assert s[..r + k] == s[..r] + s[r..r + k];
    } else {
      var j := r + k - |s|;
      assert t[k..] == s[j..r];
      assert t[..k] == s[r..] + s[..j];
      assert s[j..] == s[j..r] + s[r..];
    }
  }

  function Overwrite<T>(s: seq<T>, at: nat, t: seq<T>): (u: seq<T>)
    requires at + |t| <= |s|
    ensures |u| == |s|
  {
    s[..at] + t + s[at + |t|..]
  }

  /** Copies `t` into the ring at `at`; what does not fit goes to the start. */
  function RingWrite<T>(s: seq<T>, at: nat, t: seq<T>): (u: seq<T>)
    requires at < |s| && |t| <= |s|
    ensures |u| == |s|
  {
    if at + |t| <= |s| then Overwrite(s, at, t)
    else
      var k := |s| - at;
      Overwrite(Overwrite(s, at, t[..k]), 0, t[k..])
  }

  function RingRead<T>(s: seq<T>, at: nat, len: nat): (t: seq<T>)
    requires at < |s| && len <= |s|
    ensures |t| == len
  {
    if at + len <= |s| then s[at..at + len] else s[at..] + s[..at + len - |s|]
  }

  lemma RingWriteAt<T>(s: seq<T>, at: nat, t: seq<T>, k: nat)
    requires at < |s| && |t| <= |s| && k < |s|
    ensures RingWrite(s, at, t)[Ahead(at, k, |s|)] == if k < |t| then t[k] else s[Ahead(at, k, |s|)]
  {
  }

  /** Seen from its origin, a write round the ring is a plain write. */
  lemma RingWriteRotated<T>(s: seq<T>, r: nat, off: nat, t: seq<T>)
    requires r < |s| && off < |s| && off + |t| <= |s|
    ensures Rotated(RingWrite(s, Ahead(r, off, |s|), t), r) == Overwrite(Rotated(s, r), off, t)
  {
    var n, at := |s|, Ahead(r, off, |s|);
    var w := RingWrite(s, at, t);
    forall k | 0 <= k < n ensures Rotated(w, r)[k] == Overwrite(Rotated(s, r), off, t)[k] {
      var d := if k >= off then k - off else k + n - off;
      assert Ahead(at, d, n) == Ahead(r, k, n);
      RingWriteAt(s, at, t, d);
      RotatedAt(s, r, k);
      RotatedAt(w, r, k);
    }
  }

  /** Seen from its origin, a read round the ring is a plain read. */
  lemma RingReadRotated<T>(s: seq<T>, r: nat, off: nat, len: nat)
    requires r < |s| && off < |s| && off + len <= |s|
    ensures RingRead(s, Ahead(r, off, |s|), len) == Rotated(s, r)[off..off + len]
  {
  }

  lemma RingUpdateRotated<T>(s: seq<T>, r: nat, off: nat, x: T)
    requires r < |s| && off < |s|
    ensures Rotated(s[Ahead(r, off, |s|) := x], r) == Rotated(s, r)[off := x]
  {
  }
}
