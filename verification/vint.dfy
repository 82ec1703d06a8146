/** Big-endian base-128 integers: every byte but the last has its top bit set. */
module Vint {
  import opened Base

  const WORD: nat := 0x1_0000_0000_0000_0000

  /** The leading groups of `n`, each marked as continued; none for zero. */
  function High(n: nat): seq<byte> {
    if n == 0 then [] else High(n / 128) + [128 + n % 128]
  }

  function Encode(n: nat): (s: seq<byte>)
    ensures |s| >= 1
  {
    High(n / 128) + [n % 128]
  }

  /** How many base-128 digits `n` has. */
  function Digits(n: nat): (d: nat)
    ensures d >= 1
  {
    if n < 128 then 1 else 1 + Digits(n / 128)
  }

  /** A scan from accumulator `acc`: the value and the bytes used, 0 if the number does not end in `s`. */
  function Scan(s: seq<byte>, acc: nat): (r: (nat, nat))
    ensures r.1 <= |s|
    decreases s
  {
    if s == [] then (acc, 0)
    else
      var next := acc * 128 % WORD + s[0] % 128;
      if s[0] < 128 then (next, 1)
      else
        var rest := Scan(s[1..], next);
        if rest.1 == 0 then (rest.0, 0) else (rest.0, rest.1 + 1)
  }

  lemma {:induction false} HighLength(n: nat)
    ensures n > 0 ==> |High(n)| == Digits(n)
  {
    if n >= 128 {
      HighLength(n / 128);
    }
  }

  lemma EncodeLength(n: nat)
    ensures |Encode(n)| == Digits(n)
  {
    HighLength(n / 128);
  }

  function Power128(k: nat): nat {
    if k == 0 then 1 else 128 * Power128(k - 1)
  }

  lemma {:induction false} DigitsBounded(n: nat, k: nat)
    requires n < Power128(k) && k > 0
    ensures Digits(n) <= k
    decreases k
  {
    if n >= 128 {
      DigitsBounded(n / 128, k - 1);
    }
  }

  /** Any 64-bit value takes at most ten bytes. */
  lemma WordFitsTenBytes(n: nat)
    requires n < WORD
    ensures |Encode(n)| <= 10
  {
    EncodeLength(n);
    assert Power128(5) == 0x8_0000_0000;
    assert Power128(10) == 0x40_0000_0000_0000_0000;
    DigitsBounded(n, 10);
  }

  /** The shifted accumulator never overflows its word. */
  lemma AccumulatorStep(n: nat)
    requires n < WORD
    ensures n / 128 * 128 % WORD == n / 128 * 128
    ensures (128 + n % 128) % 128 == n % 128 && n / 128 * 128 + n % 128 == n
  {
  }

  /** Scanning over the leading groups of `n` leaves `n` in the accumulator. */
  lemma {:induction false} ScanHigh(n: nat, tail: seq<byte>)
    requires n < WORD
    ensures var r, t := Scan(High(n) + tail, 0), Scan(tail, n);
            r.0 == t.0 && r.1 == if t.1 == 0 then 0 else |High(n)| + t.1
    decreases n
  {
    if n == 0 {
      assert High(n) + tail == tail;
    } else {
      var last: seq<byte> := [128 + n % 128];
      assert High(n) + tail == High(n / 128) + (last + tail);
      ScanHigh(n / 128, last + tail);
      AccumulatorStep(n);
      assert (last + tail)[1..] == tail;
    }
  }

  /** Reading back what was written gives the value and its length, whatever follows. */
  lemma RoundTrip(n: nat, tail: seq<byte>)
    requires n < WORD
    ensures Scan(Encode(n) + tail, 0) == (n, |Encode(n)|)
  {
    var last: seq<byte> := [n % 128];
    assert Encode(n) + tail == High(n / 128) + (last + tail);
    ScanHigh(n / 128, last + tail);
    AccumulatorStep(n);
  }

  lemma {:induction false} HighIsContinued(n: nat)
    ensures forall i :: 0 <= i < |High(n)| ==> High(n)[i] >= 128
  {
    if n > 0 {
      HighIsContinued(n / 128);
    }
  }

  lemma {:induction false} ContinuedNeverEnds(s: seq<byte>, acc: nat)
    requires forall i :: 0 <= i < |s| ==> s[i] >= 128
    ensures Scan(s, acc).1 == 0
    decreases s
  {
    if s != [] {
      ContinuedNeverEnds(s[1..], acc * 128 % WORD + s[0] % 128);
    }
  }

  /** No proper prefix of an encoding decodes. */
  lemma PrefixFails(n: nat, k: nat)
    requires k < |Encode(n)|
    ensures Scan(Encode(n)[..k], 0).1 == 0
  {
    HighIsContinued(n / 128);
    ContinuedNeverEnds(Encode(n)[..k], 0);
  }

  method ReadVint(buffer: array<byte>, start: nat, s: nat) returns (out: nat, used: nat)
    requires start + s <= buffer.Length
    ensures (out, used) == Scan(buffer[start..start + s], 0)
  {
    out := 0;
    if s == 0 {
      return out, 0;
    }
    var left := s;
    while left > 0
      invariant 0 <= left <= s
      invariant left == s ==> out == 0
      invariant var r, t := Scan(buffer[start..start + s], 0), Scan(buffer[start + s - left..start + s], out);
                r.0 == t.0 && r.1 == if t.1 == 0 then 0 else s - left + t.1
      invariant left > 0
      decreases left
    {
      var d := buffer[start + s - left];
      assert buffer[start + s - left..start + s][1..] == buffer[start + s - left + 1..start + s];
      left := left - 1;
      out := out * 128 % WORD + d % 128;
      if d < 128 {
        break;
      } else if left == 0 {
        return out, 0;
      }
    }
    return out, s - left;
  }

  function Reverse(s: seq<byte>): (r: seq<byte>)
    ensures |r| == |s|
  {
    if s == [] then [] else Reverse(s[1..]) + [s[0]]
  }

  lemma {:induction false} ReverseAt(s: seq<byte>, k: nat)
    requires k < |s|
    ensures Reverse(s)[k] == s[|s| - 1 - k]
  {
    if k < |s| - 1 {
      ReverseAt(s[1..], k);
    }
  }

  lemma {:induction false} ReverseSnoc(s: seq<byte>, b: byte)
    ensures Reverse(s + [b]) == [b] + Reverse(s)
  {
    if s != [] {
      assert (s + [b])[1..] == s[1..] + [b];
      ReverseSnoc(s[1..], b);
    }
  }

  method ReverseInPlace(buffer: array<byte>, n: nat)
    requires n <= buffer.Length
    modifies buffer
    ensures buffer[..n] == Reverse(old(buffer[..n])) && buffer[n..] == old(buffer[n..])
  {
    var i := 0;
    while i < n / 2
      invariant 0 <= i <= n / 2
      invariant forall k :: 0 <= k < i || n - i <= k < n ==> buffer[k] == old(buffer[n - 1 - k])
      invariant forall k :: i <= k < n - i || n <= k < buffer.Length ==> buffer[k] == old(buffer[k])
    {
      buffer[i], buffer[n - 1 - i] := buffer[n - 1 - i], buffer[i];
      i := i + 1;
    }
    ghost var was := old(buffer[..n]);
    forall k | 0 <= k < n ensures buffer[..n][k] == Reverse(was)[k] {
      ReverseAt(was, k);
    }
  }

  method WriteVint(value: nat, buffer: array<byte>) returns (used: nat)
    requires value < WORD
    modifies buffer
    ensures used == 0 <==> buffer.Length < Digits(value)
    ensures used > 0 ==> used == Digits(value) && buffer[..used] == Encode(value)
    ensures forall k :: Digits(value) <= k < buffer.Length ==> buffer[k] == old(buffer[k])
  {
    EncodeLength(value);
    if buffer.Length == 0 {
      return 0;
    }
    used := 1;
    buffer[0] := value % 128;
    var left: nat := value / 128;
    assert buffer[..1] == [value % 128];
    while left != 0 && used + 1 <= buffer.Length
      invariant 1 <= used <= buffer.Length
      invariant High(left) + Reverse(buffer[..used]) == Encode(value)
      invariant forall k :: used <= k < buffer.Length ==> buffer[k] == old(buffer[k])
      decreases left
    {
      ghost var before := buffer[..used];
      used := used + 1;
      buffer[used - 1] := 128 + left % 128;
      assert buffer[..used] == before + [128 + left % 128];
      ReverseSnoc(before, 128 + left % 128);
      left := left / 128;
    }
    assert |Encode(value)| == |High(left)| + used;
    if left != 0 {
      return 0;
    }
    ReverseInPlace(buffer, used);
  }
}
