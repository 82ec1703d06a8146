/** Cutting a byte stream into frames by any self-delimiting header. */
module Splitting {
  import opened Base

  const CRC_SIZE: nat := 4

  /** What travels for one message: the stored checksum and the payload, whatever they are. */
  datatype Frame = Frame(crc: seq<byte>, body: seq<byte>)

  /** Tells the lengths of the header and of the body, once enough bytes are there. */
  type HeaderOf = seq<byte> -> Option<(nat, nat)>

  datatype Parsed = Parsed(frames: seq<Frame>, rest: seq<byte>)

  function Then(frames: seq<Frame>, p: Parsed): Parsed {
    Parsed(frames + p.frames, p.rest)
  }

  /** Whether a whole frame lies at the front of `s`. */
  predicate HasFrame(header: HeaderOf, s: seq<byte>) {
    var h := header(s);
    h.Some? && CRC_SIZE < h.value.0 && h.value.0 + h.value.1 <= |s|
  }

  function FirstFrame(header: HeaderOf, s: seq<byte>): Frame
    requires HasFrame(header, s)
  {
    var (head, body) := header(s).value;
    Frame(s[..CRC_SIZE], s[head..head + body])
  }

  function AfterFirst(header: HeaderOf, s: seq<byte>): (t: seq<byte>)
    requires HasFrame(header, s)
    ensures |t| < |s|
  {
    s[header(s).value.0 + header(s).value.1..]
  }

  /** Splits off every complete frame. */
  function Split(header: HeaderOf, s: seq<byte>): Parsed
    decreases |s|
  {
    if HasFrame(header, s) then Then([FirstFrame(header, s)], Split(header, AfterFirst(header, s))) else Parsed([], s)
  }

  ghost predicate Stable(header: HeaderOf) {
    forall s, t :: header(s).Some? ==> header(s + t) == header(s)
  }

  lemma FirstStable(header: HeaderOf, s: seq<byte>, t: seq<byte>)
    requires Stable(header) && HasFrame(header, s)
    ensures HasFrame(header, s + t) && FirstFrame(header, s + t) == FirstFrame(header, s)
    ensures AfterFirst(header, s + t) == AfterFirst(header, s) + t
  {
    var (head, body) := header(s).value;
    assert header(s + t) == header(s);
    assert (s + t)[head..head + body] == s[head..head + body] && (s + t)[..CRC_SIZE] == s[..CRC_SIZE];
  }

  /** Splitting may stop anywhere and go on with the rest. */
  lemma {:induction false} SplitResumes(header: HeaderOf, s: seq<byte>, t: seq<byte>)
    requires Stable(header)
    ensures Split(header, s + t) == Then(Split(header, s).frames, Split(header, Split(header, s).rest + t))
    decreases |s|
  {
    if HasFrame(header, s) {
      FirstStable(header, s, t);
      var f, u := FirstFrame(header, s), AfterFirst(header, s);
      SplitResumes(header, u, t);
      var p, q := Split(header, u), Split(header, Split(header, u).rest + t);
      assert [f] + (p.frames + q.frames) == ([f] + p.frames) + q.frames;
    } else {
      assert [] + Split(header, s + t).frames == Split(header, s + t).frames;
    }
  }
}
