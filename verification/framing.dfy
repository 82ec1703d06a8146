/** Messages on a stream: checksum, length, payload. */
module Framing {
  import opened Base
  import opened ShiftRegister
  import opened Vint
  import opened Crc32
  import opened Splitting

  /** A 32-bit word as its four bytes in memory, lowest first. */
  function StoreU32(c: bv32): (s: seq<byte>)
    ensures |s| == CRC_SIZE
  {
    [((c & 0xFF) as bv8) as int, (((c >> 8) & 0xFF) as bv8) as int,
     (((c >> 16) & 0xFF) as bv8) as int, (((c >> 24) & 0xFF) as bv8) as int]
  }

  function LoadU32(s: seq<byte>): bv32
    requires |s| == CRC_SIZE
  {
    Pack(REGISTER, 0, s)
  }

  lemma BitsRoundTrip(y: bv8)
    ensures (y as int) as bv8 == y
  {
  }

  lemma NarrowWiden(x: bv32)
    requires x <= 0xFF
    ensures (x as bv8) as bv32 == x
  {
  }

  lemma ByteOfWord(x: bv32)
    requires x <= 0xFF
    ensures Lift((x as bv8) as int) == x
  {
    BitsRoundTrip(x as bv8);
    NarrowWiden(x);
  }

  lemma FourBytes(c: bv32, p: bv32, q: bv32, r: bv32, s: bv32)
    requires p == c & 0xFF && q == (c >> 8) & 0xFF && r == (c >> 16) & 0xFF && s == (c >> 24) & 0xFF
    ensures Xor(p, ByteUp(Xor(q, ByteUp(Xor(r, ByteUp(Xor(s, ByteUp(0)))))))) == c
  {
  }

  lemma PackCons(b: byte, s: seq<byte>)
    ensures Pack(REGISTER, 0, [b] + s) == Xor(Lift(b), ByteUp(Pack(REGISTER, 0, s)))
  {
    assert ([b] + s)[1..] == s;
  }

  lemma PackFour(b0: byte, b1: byte, b2: byte, b3: byte)
    ensures Pack(REGISTER, 0, [b0, b1, b2, b3]) ==
            Xor(Lift(b0), ByteUp(Xor(Lift(b1), ByteUp(Xor(Lift(b2), ByteUp(Xor(Lift(b3), ByteUp(0))))))))
  {
    assert [b0, b1, b2, b3] == [b0] + ([b1] + ([b2] + ([b3] + [])));
    PackCons(b3, []);
    PackCons(b2, [b3] + []);
    PackCons(b1, [b2] + ([b3] + []));
    PackCons(b0, [b1] + ([b2] + ([b3] + [])));
  }

  lemma Reassemble(c: bv32, b0: byte, b1: byte, b2: byte, b3: byte)
    requires Lift(b0) == c & 0xFF && Lift(b1) == (c >> 8) & 0xFF
    requires Lift(b2) == (c >> 16) & 0xFF && Lift(b3) == (c >> 24) & 0xFF
    ensures Pack(REGISTER, 0, [b0, b1, b2, b3]) == c
  {
    PackFour(b0, b1, b2, b3);
    FourBytes(c, Lift(b0), Lift(b1), Lift(b2), Lift(b3));
  }

  /** Storing a word and loading it back gives the word. */
  lemma LoadStore(c: bv32)
    ensures LoadU32(StoreU32(c)) == c
  {
    ByteOfWord(c & 0xFF);
    ByteOfWord((c >> 8) & 0xFF);
    ByteOfWord((c >> 16) & 0xFF);
    ByteOfWord((c >> 24) & 0xFF);
    var s := StoreU32(c);
    Reassemble(c, s[0], s[1], s[2], s[3]);
  }

  predicate FrameOk(f: Frame) { |f.crc| == CRC_SIZE && |f.body| < WORD }

  predicate Shaped(frames: seq<Frame>) { forall f :: f in frames ==> |f.crc| == CRC_SIZE }

  predicate FramesOk(frames: seq<Frame>): (ok: bool)
    ensures ok ==> Shaped(frames)
  {
    assert forall f :: f in frames && FrameOk(f) ==> |f.crc| == CRC_SIZE;
    forall f :: f in frames ==> FrameOk(f)
  }

  function Header(f: Frame): seq<byte> { f.crc + Encode(|f.body|) }

  function Wire(f: Frame): seq<byte> { Header(f) + f.body }

  /** The frame a sender makes of a payload. */
  function FrameOf(body: seq<byte>): Frame {
    Frame(StoreU32(Remainder(0, body)), body)
  }

  function WireAll(frames: seq<Frame>): seq<byte>
    decreases frames
  {
    if frames == [] then [] else Wire(frames[0]) + WireAll(frames[1..])
  }

  /** The lengths of the header and of the body, once enough bytes are there to tell. */
  function ParseHeader(s: seq<byte>): (h: Option<(nat, nat)>)
    ensures h.Some? ==> CRC_SIZE < h.value.0 <= |s|
  {
    if |s| <= CRC_SIZE then None
    else
      var v := Scan(s[CRC_SIZE..], 0);
      if v.1 == 0 then None else Some((CRC_SIZE + v.1, v.0))
  }

  lemma {:induction false} ScanStable(s: seq<byte>, t: seq<byte>, acc: nat)
    requires Scan(s, acc).1 != 0
    ensures Scan(s + t, acc) == Scan(s, acc)
    decreases s
  {
    assert (s + t)[0] == s[0] && (s + t)[1..] == s[1..] + t;
    if s[0] >= 128 {
      ScanStable(s[1..], t, acc * 128 % WORD + s[0] % 128);
    }
  }

  /** A header that is complete is not changed by what follows. */
  lemma HeaderStable(s: seq<byte>, t: seq<byte>)
    requires ParseHeader(s).Some?
    ensures ParseHeader(s + t) == ParseHeader(s)
  {
    assert (s + t)[CRC_SIZE..] == s[CRC_SIZE..] + t;
    ScanStable(s[CRC_SIZE..], t, 0);
  }

  lemma FrameHeader(f: Frame, t: seq<byte>)
    requires FrameOk(f)
    ensures ParseHeader(Header(f) + t) == Some((|Header(f)|, |f.body|))
  {
    assert (Header(f) + t)[CRC_SIZE..] == Encode(|f.body|) + t;
    RoundTrip(|f.body|, t);
  }

  function Parse(s: seq<byte>): Parsed {
    Split(ParseHeader, s)
  }

  lemma HeadersStable()
    ensures Stable(ParseHeader)
  {
    forall s, t | ParseHeader(s).Some? ensures ParseHeader(s + t) == ParseHeader(s) { HeaderStable(s, t); }
  }

  lemma WireFirst(f: Frame, t: seq<byte>)
    requires FrameOk(f)
    ensures HasFrame(ParseHeader, Wire(f) + t)
    ensures FirstFrame(ParseHeader, Wire(f) + t) == f && AfterFirst(ParseHeader, Wire(f) + t) == t
  {
    var s, head, body := Wire(f) + t, |Header(f)|, |f.body|;
    assert s == Header(f) + (f.body + t);
    FrameHeader(f, f.body + t);
    assert s[..CRC_SIZE] == f.crc && s[head..head + body] == f.body && s[head + body..] == t;
  }

  lemma ParseWire(f: Frame, t: seq<byte>)
    requires FrameOk(f)
    ensures Parse(Wire(f) + t) == Then([f], Parse(t))
  {
    WireFirst(f, t);
  }

  /** Parsing undoes the framing of any list of frames. */
  lemma {:induction false} ParseWireAll(frames: seq<Frame>)
    requires FramesOk(frames)
    ensures Parse(WireAll(frames)) == Parsed(frames, [])
    decreases frames
  {
    if frames != [] {
      ParseWire(frames[0], WireAll(frames[1..]));
      ParseWireAll(frames[1..]);
      assert frames == [frames[0]] + frames[1..];
    }
  }

  /** Whole frames within the first `n` bytes of their wire form. */
  function Complete(frames: seq<Frame>, n: nat): (k: nat)
    ensures k <= |frames|
    decreases frames
  {
    if frames == [] || n < |Wire(frames[0])| then 0 else 1 + Complete(frames[1..], n - |Wire(frames[0])|)
  }

  /** Before a header is complete there are at most 13 bytes of it. */
  lemma HeaderBytes(f: Frame, k: nat)
    requires FrameOk(f) && k <= |Wire(f)|
    ensures k < |Header(f)| <==> ParseHeader(Wire(f)[..k]).None?
    ensures ParseHeader(Wire(f)[..k]).None? ==> k <= 13
    ensures k >= |Header(f)| ==> ParseHeader(Wire(f)[..k]) == Some((|Header(f)|, |f.body|))
  {
    var s := Wire(f)[..k];
    WordFitsTenBytes(|f.body|);
    if k < |Header(f)| {
      if k > CRC_SIZE {
        assert s[CRC_SIZE..] == Encode(|f.body|)[..k - CRC_SIZE];
        PrefixFails(|f.body|, k - CRC_SIZE);
      }
    } else {
      assert s[..|Header(f)|] == Header(f);
      assert s == Header(f) + s[|Header(f)|..];
      FrameHeader(f, s[|Header(f)|..]);
    }
  }

  /** A cut through the wire form parses to the whole frames before it; what is left
      is a proper prefix of the next frame. */
  lemma {:induction false} ParsePrefix(frames: seq<Frame>, n: nat)
    requires FramesOk(frames) && n <= |WireAll(frames)|
    ensures var k, p := Complete(frames, n), Parse(WireAll(frames)[..n]);
            && p.frames == frames[..k]
            && (if k == |frames| then p.rest == [] else p.rest < Wire(frames[k]))
    decreases frames
  {
    if frames != [] {
      var f, rest := frames[0], WireAll(frames[1..]);
      var w, s := Wire(f), WireAll(frames)[..n];
      if n < |w| {
        assert s == w[..n];
        HeaderBytes(f, n);
      } else {
        var m := n - |w|;
        assert s == w + rest[..m];
        ParseWire(f, rest[..m]);
        ParsePrefix(frames[1..], m);
        assert frames[..Complete(frames, n)] == [f] + frames[1..][..Complete(frames[1..], m)];
      }
    }
  }

  /** What a receive callback is told. */
  datatype Event = Event(code: Status, data: seq<byte>)

  function Judge(f: Frame, limit: nat): Event
    requires |f.crc| == CRC_SIZE
  {
    if Remainder(0, f.body) != LoadU32(f.crc) then Event(BadData, f.body)
    else if limit > 0 && |f.body| > limit then Event(InvalidSize, f.body)
    else Event(Success, f.body)
  }

  function Judged(frames: seq<Frame>, limit: nat): (e: seq<Event>)
    requires Shaped(frames)
    ensures |e| == |frames|
  {
    seq(|frames|, i requires 0 <= i < |frames| => Judge(frames[i], limit))
  }

  /** A payload framed by the sender is delivered as it was: as too large exactly when it is over a limit, and
      else with success. */
  lemma SentIsDelivered(body: seq<byte>, limit: nat)
    ensures Judge(FrameOf(body), limit).data == body
    ensures Judge(FrameOf(body), limit).code == InvalidSize <==> limit > 0 && |body| > limit
    ensures Judge(FrameOf(body), limit).code == Success <==> limit == 0 || |body| <= limit
  {
    LoadStore(Remainder(0, body));
  }

  /** A payload damaged inside four consecutive bytes is always reported as bad data. */
  lemma DamageIsReported(prefix: seq<byte>, a: seq<byte>, b: seq<byte>, suffix: seq<byte>, limit: nat)
    requires |a| == |b| <= CRC_SIZE && a != b
    ensures Judge(Frame(FrameOf(prefix + a + suffix).crc, prefix + b + suffix), limit)
            == Event(BadData, prefix + b + suffix)
  {
    LoadStore(Remainder(0, prefix + a + suffix));
    BurstChangesRemainder(0, prefix, a, b, suffix);
  }
}
