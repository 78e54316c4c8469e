/** The family's framing: four bytes of length, big end first, then the body. Frames set end to end
    come apart again in one way only, which is what lets a line carry calls with no number on them. */
module Framing {
  import opened Options

  type Byte = b: int | 0 <= b < 256

  const MOST: nat := 0x100_0000

  datatype Fault = TooLarge(size: nat) | NoBytes

  function Header(n: nat): (h: seq<Byte>)
    requires n < 0x1_0000_0000
    ensures |h| == 4
  {
    [n / 0x100_0000, n / 0x1_0000 % 256, n / 256 % 256, n % 256]
  }

  function Length(h: seq<Byte>): nat
    requires |h| == 4
  {
    var a: int, b: int, c: int, d: int := h[0], h[1], h[2], h[3];
    a * 0x100_0000 + b * 0x1_0000 + c * 256 + d
  }

  lemma HeaderSaysLength(n: nat)
    requires n < 0x1_0000_0000
    ensures Length(Header(n)) == n
  {
    assert n / 0x1_0000 == n / 256 / 256 && n / 0x100_0000 == n / 256 / 256 / 256;
  }

  /** `expecting` */
  function Expecting(h: seq<Byte>): Result<nat, Fault>
    requires |h| == 4
  {
    if Length(h) > MOST then Err(TooLarge(Length(h))) else if Length(h) == 0 then Err(NoBytes) else Ok(Length(h))
  }

  /** `framed` */
  function Framed(body: seq<Byte>): Result<seq<Byte>, Fault> {
    if |body| > MOST then Err(TooLarge(|body|)) else Ok(Header(|body|) + body)
  }

  /** A body that can go out as one frame and be read. */
  predicate Sendable(body: seq<Byte>) {
    0 < |body| <= MOST
  }

  function Frame(body: seq<Byte>): seq<Byte>
    requires Sendable(body)
  {
    Header(|body|) + body
  }

  /** What reading one frame off `stream` comes to: its body, not enough bytes yet, or a length that
      will not be read. */
  datatype Reading = Body(body: seq<Byte>, rest: seq<Byte>) | Short | Unreadable(fault: Fault)

  function ReadBody(stream: seq<Byte>): Reading {
    if |stream| < 4 then Short
    else
      match Expecting(stream[..4])
      case Err(fault) => Unreadable(fault)
      case Ok(n) => if |stream| < 4 + n then Short else Body(stream[4..4 + n], stream[4 + n..])
  }

  /** Four digits to the base of 256. */
  function Number(a: nat, b: nat, c: nat, d: nat): nat {
    16_777_216 * a + 65_536 * b + 256 * c + d
  }

  /** What a stream reads as, by the number its first four bytes make: nothing until they are there; a
      length of nought, or past 16 MiB, is refused at once; and otherwise so many bytes after them are
      the body, once they are all there. */
  lemma ReadsExactly(stream: seq<Byte>)
    ensures |stream| < 4 ==> ReadBody(stream) == Short
    ensures |stream| >= 4 ==>
              var n := Number(stream[0], stream[1], stream[2], stream[3]);
              && (ReadBody(stream) == Unreadable(NoBytes) <==> n == 0)
              && (ReadBody(stream) == Unreadable(TooLarge(n)) <==> n > 16_777_216)
              && (0 < n <= 16_777_216 && |stream| < 4 + n ==> ReadBody(stream) == Short)
              && (0 < n <= 16_777_216 && |stream| >= 4 + n ==>
                    ReadBody(stream) == Body(stream[4..4 + n], stream[4 + n..]))
  {
    if |stream| >= 4 {
      var h := stream[..4];
      assert h[0] == stream[0] && h[1] == stream[1] && h[2] == stream[2] && h[3] == stream[3];
    }
  }

  /** A body goes out as a frame exactly when it is no longer than that. */
  lemma FramedExactly(body: seq<Byte>)
    ensures |body| <= 16_777_216 ==> Framed(body).Ok? && |Framed(body).value| == 4 + |body|
                                     && Framed(body).value[4..] == body
    ensures |body| > 16_777_216 ==> Framed(body) == Err(TooLarge(|body|))
  {
  }

  /** A frame reads back whatever follows it, and no part of one reads as anything. */
  lemma FrameReadsBack(body: seq<Byte>, rest: seq<Byte>)
    requires Sendable(body)
    ensures Framed(body) == Ok(Frame(body))
    ensures ReadBody(Frame(body) + rest) == Body(body, rest)
  {
    HeaderSaysLength(|body|);
    var stream := Frame(body) + rest;
    assert stream[..4] == Header(|body|);
    assert stream[4..4 + |body|] == body && stream[4 + |body|..] == rest;
  }

  lemma PartIsShort(body: seq<Byte>, part: seq<Byte>)
    requires Sendable(body) && part <= Frame(body) && part != Frame(body)
    ensures ReadBody(part) == Short
  {
    HeaderSaysLength(|body|);
    if |part| >= 4 {
      assert part[..4] == Frame(body)[..4] == Header(|body|);
    }
  }

  function Frames(bodies: seq<seq<Byte>>): seq<Byte>
    requires forall b :: b in bodies ==> Sendable(b)
  {
    if bodies == [] then [] else Frame(bodies[0]) + Frames(bodies[1..])
  }

  /** Reads frames until one is short or unreadable. */
  function ReadFrames(stream: seq<Byte>): (seq<seq<Byte>>, seq<Byte>)
    decreases |stream|
  {
    match ReadBody(stream)
    case Body(body, rest) =>
      if |rest| < |stream| then var (more, left) := ReadFrames(rest); ([body] + more, left) else ([], stream)
    case _ => ([], stream)
  }

  /** Frames end to end come apart into the same bodies, with part of another left over as it was. */
  lemma {:induction false} FramesReadBack(bodies: seq<seq<Byte>>, next: seq<Byte>, part: seq<Byte>)
    requires (forall b :: b in bodies ==> Sendable(b)) && Sendable(next)
    requires part <= Frame(next) && part != Frame(next)
    ensures ReadFrames(Frames(bodies) + part) == (bodies, part)
  {
    hide Frame, ReadBody, Framed;
    if bodies == [] {
      assert Frames(bodies) + part == part;
      PartIsShort(next, part);
    } else {
      var stream := Frames(bodies) + part;
      var rest := Frames(bodies[1..]) + part;
      assert stream == Frame(bodies[0]) + rest;
      FrameReadsBack(bodies[0], rest);
      FramesReadBack(bodies[1..], next, part);
      FrameTakesRoom(bodies[0]);
      assert [bodies[0]] + bodies[1..] == bodies;
    }
  }

  lemma FrameTakesRoom(body: seq<Byte>)
    requires Sendable(body)
    ensures |Frame(body)| == 4 + |body|
  {
  }

  /** Two runs of frames that come to the same bytes are the same frames. */
  lemma FramesAreUnique(a: seq<seq<Byte>>, b: seq<seq<Byte>>)
    requires (forall x :: x in a ==> Sendable(x)) && (forall x :: x in b ==> Sendable(x))
    requires Frames(a) == Frames(b)
    ensures a == b
  {
    var next := [0];
    FramesReadBack(a, next, []);
    FramesReadBack(b, next, []);
    assert Frames(a) + [] == Frames(a) && Frames(b) + [] == Frames(b);
  }

  // ---- Which encoding a body is in -----------------------------------------------------------------------

  datatype Wire = Json | Cbor

  predicate IsAsciiSpace(b: Byte) {
    b == 32 || b == 9 || b == 10 || b == 12 || b == 13
  }

  function WireOf(body: seq<Byte>): Wire {
    if body == [] then Json
    else if IsAsciiSpace(body[0]) then WireOf(body[1..])
    else if 0x80 <= body[0] <= 0xBF then Cbor
    else Json
  }

  method FindWire(body: seq<Byte>) returns (wire: Wire)
    ensures wire == WireOf(body)
  {
    var n := 0;
    while n < |body| && IsAsciiSpace(body[n])
      invariant 0 <= n <= |body| && WireOf(body) == WireOf(body[n..])
    {
      assert body[n..][1..] == body[n + 1..];
      n := n + 1;
    }
    return if n < |body| && 0x80 <= body[n] <= 0xBF then Cbor else Json;
  }

  /** A document whose top level is an object or an array, with white space before it or not, is told
      for what it is: `{` and `[` in text, a map's or an array's first byte in CBOR (section 3.1 of
      RFC 8949, major types 4 and 5). */
  lemma {:induction false} FirstByteDecides(space: seq<Byte>, first: Byte, rest: seq<Byte>)
    requires forall b :: b in space ==> IsAsciiSpace(b)
    ensures first == 0x7B || first == 0x5B ==> WireOf(space + [first] + rest) == Json
    ensures first / 32 == 4 || first / 32 == 5 ==> WireOf(space + [first] + rest) == Cbor
  {
    if space == [] {
      assert space + [first] + rest == [first] + rest;
    } else {
      assert (space + [first] + rest)[1..] == space[1..] + [first] + rest;
      FirstByteDecides(space[1..], first, rest);
    }
  }
}
