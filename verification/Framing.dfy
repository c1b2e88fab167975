/** The Ishizue wire framing (src/protocol/isz_protocol.c): length and id, little-endian, then the payload. */
module Framing {
  import opened Bytes
  import opened Options

  const MAX_MESSAGE := 8192

  const HEADER := 8

  const LSB_FIRST: byte := 0x6C

  type Frame = seq<byte>

  datatype Message = Message(id: U32, payload: seq<byte>)

  datatype Decoded = Incomplete | Malformed | Got(message: Message, total: nat)

  predicate Encodable(m: Message) {
    |m.payload| <= MAX_MESSAGE - HEADER
  }

  /** A message that fits a frame. */
  type Sendable = m: Message | Encodable(m) witness Message(0, [])

  function FrameOf(m: Sendable): Frame {
    PutU32(4 + |m.payload|, LSB_FIRST) + PutU32(m.id, LSB_FIRST) + m.payload
  }

  function Encode(m: Message): Option<Frame> {
    if Encodable(m) then Some(FrameOf(m)) else None
  }

  function Decode(s: seq<byte>): Decoded {
    if |s| < 4 then Incomplete
    else
      var length := GetU32(s, LSB_FIRST);
      if length < 4 || length > MAX_MESSAGE - 4 then Malformed
      else if |s| < 4 + length then Incomplete
      else Got(Message(GetU32(s[4..], LSB_FIRST), s[8..4 + length]), 4 + length)
  }

  /** The bytes of a frame: length and id least significant byte first, then the payload as it is. */
  lemma FrameLayout(m: Sendable)
    ensures var f := FrameOf(m);
            |f| == 8 + |m.payload| && f[8..] == m.payload &&
            (var a: int, b: int, c: int, d: int := f[0], f[1], f[2], f[3];
             a + 256 * (b + 256 * (c + 256 * d)) == 4 + |m.payload|) &&
            (var a: int, b: int, c: int, d: int := f[4], f[5], f[6], f[7];
             a + 256 * (b + 256 * (c + 256 * d)) == m.id)
  {
    var f := FrameOf(m);
    RoundTrip32(4 + |m.payload|, LSB_FIRST);
    RoundTrip32(m.id, LSB_FIRST);
    U32OnTheWire(PutU32(4 + |m.payload|, LSB_FIRST), LSB_FIRST);
    U32OnTheWire(PutU32(m.id, LSB_FIRST), LSB_FIRST);
    assert f[..4] == PutU32(4 + |m.payload|, LSB_FIRST) && f[4..8] == PutU32(m.id, LSB_FIRST);
  }

  /** When a stream has no message: too little of it, or a length outside 4 to 8188. */
  lemma DecodeRefusals(s: seq<byte>)
    ensures |s| < 4 ==> Decode(s) == Incomplete
    ensures |s| >= 4 ==>
              var a: int, b: int, c: int, d: int := s[0], s[1], s[2], s[3];
              var length := a + 256 * (b + 256 * (c + 256 * d));
              (Decode(s) == Malformed <==> length < 4 || length > 8188) &&
              (Decode(s) == Incomplete <==> 4 <= length <= 8188 && |s| < 4 + length) &&
              (Decode(s).Got? ==> Decode(s).total == 4 + length && Decode(s).message.payload == s[8..4 + length])
  {
    if |s| >= 4 {
      U32OnTheWire(s, LSB_FIRST);
    }
  }

  /** A frame at the front of a stream decodes to its message, whatever follows. */
  lemma DecodeEncode(m: Sendable, rest: seq<byte>)
    ensures Decode(FrameOf(m) + rest) == Got(m, |FrameOf(m)|)
  {
    var head, id := PutU32(4 + |m.payload|, LSB_FIRST), PutU32(m.id, LSB_FIRST);
    var s := FrameOf(m) + rest;
    RoundTrip32(4 + |m.payload|, LSB_FIRST);
    RoundTrip32(m.id, LSB_FIRST);
    assert s[..4] == head && s[4..8] == id;
    SameU32(s, head);
    SameU32(s[4..], id);
    assert s[8..8 + |m.payload|] == m.payload;
  }

  lemma SameU32(s: seq<byte>, p: seq<byte>)
    requires |s| >= 4 && |p| == 4 && s[..4] == p
    ensures GetU32(s, LSB_FIRST) == GetU32(p, LSB_FIRST)
  {
  }

  /** The receiver: every complete message of a byte stream, in order. */
  function DecodeAll(s: seq<byte>): seq<Message>
    decreases |s|
  {
    match Decode(s)
    case Got(m, total) => [m] + DecodeAll(s[total..])
    case _ => []
  }

  function Concat(frames: seq<Frame>): seq<byte> {
    if frames == [] then [] else frames[0] + Concat(frames[1..])
  }

  /** The frames of these messages. */
  function EncodeAll(ms: seq<Sendable>): (r: seq<Frame>)
    ensures |r| == |ms|
  {
    seq(|ms|, i requires 0 <= i < |ms| => FrameOf(ms[i]))
  }

  /** A stream of frames decodes to the messages that were framed. */
  lemma {:induction false} DecodeAllEncodeAll(ms: seq<Sendable>)
    ensures DecodeAll(Concat(EncodeAll(ms))) == ms
  {
    if ms != [] {
      var frame, later := FrameOf(ms[0]), Concat(EncodeAll(ms[1..]));
      DecodeEncode(ms[0], later);
      assert EncodeAll(ms)[1..] == EncodeAll(ms[1..]);
      assert (frame + later)[|frame|..] == later;
      DecodeAllEncodeAll(ms[1..]);
    }
  }

  lemma EncodeAllAppend(a: seq<Sendable>, b: seq<Sendable>)
    ensures EncodeAll(a + b) == EncodeAll(a) + EncodeAll(b)
  {
  }

  lemma SameFront<T>(a: seq<T>, b: seq<T>, c: seq<T>, d: seq<T>)
    requires a + b == c + d && |a| == |c|
    ensures a == c
  {
    assert a == (a + b)[..|a|] && c == (c + d)[..|c|];
  }

  /** A prefix of framed messages is the framing of a prefix of the messages. */
  lemma FramedPrefix(sent: seq<Sendable>, wire: seq<Frame>, queue: seq<Frame>)
    requires wire + queue == EncodeAll(sent)
    ensures |wire| + |queue| == |sent| && wire == EncodeAll(sent[..|wire|])
  {
    var front, back := sent[..|wire|], sent[|wire|..];
    assert sent == front + back;
    EncodeAllAppend(front, back);
    SameFront(wire, queue, EncodeAll(front), EncodeAll(back));
  }
}
