/**
 Reassembly at the level of bytes: the length field is bytes 2 and 3 of a request, in 4-byte units and in
 the client's byte order, and a stream of well-formed requests is dispatched as exactly those requests.
 */
module RequestBytes {
  import opened Bytes
  import opened RequestStream

  /** The length field of the header that starts s. */
  function LengthField(s: seq<byte>, order: byte): nat
    requires |s| >= 4
  {
    var a: int, b: int := s[2], s[3];
    if order == 0x42 then a * 256 + b else a + b * 256
  }

  lemma StatedIsField(s: seq<byte>, order: byte)
    requires |s| >= 4
    ensures Stated(s, order) == 4 * LengthField(s, order)
    ensures BadLength(s, order) <==> LengthField(s, order) == 0 || LengthField(s, order) > 4096
  {
    U16OnTheWire(s[2..], order);
    assert s[2..][0] == s[2] && s[2..][1] == s[3];
  }

  /** A request: at most 16384 bytes, as many as its header says. */
  predicate Framed(r: Request, order: byte) {
    4 <= |r| <= 16384 && |r| == 4 * LengthField(r, order)
  }

  /** What a client sends for an opcode, its data byte and a body that fills whole units. */
  lemma BuiltIsFramed(opcode: byte, data: byte, n: U16, body: seq<byte>, order: byte)
    requires 1 <= n <= 4096 && |body| == 4 * n - 4
    ensures Framed([opcode, data] + PutU16(n, order) + body, order)
  {
    var r := [opcode, data] + PutU16(n, order) + body;
    RoundTrip16(n, order);
    U16OnTheWire(PutU16(n, order), order);
    assert r[2] == PutU16(n, order)[0] && r[3] == PutU16(n, order)[1];
  }

  /** A request at the front of a stream is dispatched first, and the rest follows if it is accepted. */
  lemma FirstRequest(r: Request, rest: seq<byte>, order: byte, ok: Oracle, done: seq<Request>)
    requires Framed(r, order)
    ensures Greedy(r + rest, order, ok, done) ==
            if ok(done + [r]) then Greedy(rest, order, ok, done + [r]) else Parse(done + [r], r + rest, true)
  {
    var s := r + rest;
    StatedIsField(s, order);
    GreedyStep(s, order, ok, done);
    assert s[..|r|] == r && s[|r|..] == rest;
  }

  /** A header with a zero length or more than 16384 bytes ends the connection with nothing dispatched. */
  lemma BadHeaderKills(s: seq<byte>, order: byte, ok: Oracle, done: seq<Request>)
    requires |s| >= 4 && (LengthField(s, order) == 0 || LengthField(s, order) > 4096)
    ensures Greedy(s, order, ok, done) == Parse(done, s, true)
  {
    StatedIsField(s, order);
  }

  /** Part of a request waits for more. */
  lemma PartialWaits(s: seq<byte>, order: byte, ok: Oracle, done: seq<Request>)
    requires |s| < 4 || (1 <= LengthField(s, order) <= 4096 && |s| < 4 * LengthField(s, order))
    ensures Greedy(s, order, ok, done) == Parse(done, s, false)
  {
    if |s| >= 4 {
      StatedIsField(s, order);
    }
  }

  /** Whatever is dispatched is a request: as long as bytes 2 and 3 of its own header say. */
  lemma DispatchedAreFramed(s: seq<byte>, order: byte, ok: Oracle, done: seq<Request>, i: nat)
    requires |done| <= i < |Greedy(s, order, ok, done).requests|
    ensures Framed(Greedy(s, order, ok, done).requests[i], order)
  {
    RequestsAreWhole(s, order, ok, done, i);
    StatedIsField(Greedy(s, order, ok, done).requests[i], order);
  }

  /** Every request of rs is accepted after those before it. */
  predicate Accepts(ok: Oracle, done: seq<Request>, rs: seq<Request>)
    decreases |rs|
  {
    rs != [] ==> ok(done + [rs[0]]) && Accepts(ok, done + [rs[0]], rs[1..])
  }

  /** A stream of requests that are all accepted is dispatched as those requests, with nothing left. */
  lemma {:induction false} StreamOfRequests(rs: seq<Request>, order: byte, ok: Oracle, done: seq<Request>)
    requires (forall i :: 0 <= i < |rs| ==> Framed(rs[i], order)) && Accepts(ok, done, rs)
    ensures Greedy(Joined(rs), order, ok, done) == Parse(done + rs, [], false)
    decreases |rs|
  {
    if rs == [] {
      assert done + rs == done;
    } else {
      FirstRequest(rs[0], Joined(rs[1..]), order, ok, done);
      StreamOfRequests(rs[1..], order, ok, done + [rs[0]]);
      assert done + [rs[0]] + rs[1..] == done + rs;
    }
  }

  /** However the network cuts the stream, the requests that were sent are the requests dispatched. */
  lemma RequestsArrive(rs: seq<Request>, chunks: seq<seq<byte>>, order: byte, ok: Oracle)
    requires (forall i :: 0 <= i < |rs| ==> Framed(rs[i], order)) && Accepts(ok, [], rs)
    requires Joined(chunks) == Joined(rs)
    ensures var p := DrainAll(START, chunks, order, ok); p.requests == rs && p.rest == [] && !p.dead
  {
    ChunkingDoesNotMatter(chunks, order, ok);
    StreamOfRequests(rs, order, ok, []);
    assert [] + rs == rs;
  }

  /** GetInputFocus from a least-significant-first client is one request of four bytes. */
  lemma FourBytesAreOneRequest(ok: Oracle)
    requires ok([[43, 0, 1, 0]])
    ensures Greedy([43, 0, 1, 0], 0x6C, ok, []) == Parse([[43, 0, 1, 0]], [], false)
  {
    FirstRequest([43, 0, 1, 0], [], 0x6C, ok, []);
    assert [43, 0, 1, 0] + [] == [43, 0, 1, 0];
    assert [] + [[43, 0, 1, 0]] == [[43, 0, 1, 0]];
  }
}
