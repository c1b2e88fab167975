/**
 Reassembly of X11 requests from a byte stream: the receive buffer that is topped up by one read,
 parsed for complete requests and shifted down. The theorem is that the cutting of the stream into
 reads does not matter.

 What the handlers answer is an oracle: `ok(history)` says whether the last request of `history` is
 accepted, so a refusal may depend on everything dispatched before.
 */
module RequestStream {
  import opened Bytes

  /** Size of the receive buffer, and so the largest request. */
  const RECV_BUF := 16384

  type Request = seq<byte>

  type Oracle = seq<Request> -> bool

  datatype Parse = Parse(requests: seq<Request>, rest: seq<byte>, dead: bool)

  /** Bytes of the request whose header starts s, from its length field in 4-byte units. */
  function Stated(s: seq<byte>, order: byte): nat
    requires |s| >= 4
  {
    GetU16(s[2..], order) * 4
  }

  /** The length field is zero or the request cannot fit the buffer. */
  predicate BadLength(s: seq<byte>, order: byte)
    requires |s| >= 4
  {
    Stated(s, order) == 0 || Stated(s, order) > RECV_BUF
  }

  /** The greedy parse of s, after `done` has been dispatched. */
  function Greedy(s: seq<byte>, order: byte, ok: Oracle, done: seq<Request>): Parse
    decreases |s|
  {
    if |s| < 4 then Parse(done, s, false)
    else if BadLength(s, order) then Parse(done, s, true)
    else
      var n := Stated(s, order);
      if |s| < n then Parse(done, s, false)
      else if !ok(done + [s[..n]]) then Parse(done + [s[..n]], s, true)
      else Greedy(s[n..], order, ok, done + [s[..n]])
  }

  /** A whole request with a valid length is at the front. */
  predicate Whole(s: seq<byte>, order: byte)
    requires |s| >= 4
  {
    !BadLength(s, order) && Stated(s, order) <= |s|
  }

  /** One turn of the parse. */
  lemma GreedyStep(s: seq<byte>, order: byte, ok: Oracle, done: seq<Request>)
    requires |s| >= 4
    ensures Whole(s, order) ==>
              Stated(s, order) >= 4 &&
              var now := done + [s[..Stated(s, order)]];
              Greedy(s, order, ok, done) ==
              if ok(now) then Greedy(s[Stated(s, order)..], order, ok, now) else Parse(now, s, true)
    ensures !Whole(s, order) ==> Greedy(s, order, ok, done) == Parse(done, s, BadLength(s, order))
  {
  }

  /** One drain with a read that delivered `chunk`: parse what was left over, then the new bytes. */
  function Drain(p: Parse, chunk: seq<byte>, order: byte, ok: Oracle): Parse {
    if p.dead then p else Greedy(p.rest + chunk, order, ok, p.requests)
  }

  function DrainAll(p: Parse, chunks: seq<seq<byte>>, order: byte, ok: Oracle): Parse
    decreases |chunks|
  {
    if chunks == [] then p else DrainAll(Drain(p, chunks[0], order, ok), chunks[1..], order, ok)
  }

  function Joined(chunks: seq<seq<byte>>): seq<byte> {
    if chunks == [] then [] else chunks[0] + Joined(chunks[1..])
  }

  const START := Parse([], [], false)

  // ---- appending bytes to a stream ----

  /** A parse that is still open goes on exactly where it stopped. */
  lemma {:induction false} GreedyContinues(a: seq<byte>, b: seq<byte>, order: byte, ok: Oracle, done: seq<Request>)
    ensures var p := Greedy(a, order, ok, done);
            if p.dead then Greedy(a + b, order, ok, done).dead && Greedy(a + b, order, ok, done).requests == p.requests
            else Greedy(a + b, order, ok, done) == Greedy(p.rest + b, order, ok, p.requests)
    decreases |a|
  {
    if |a| >= 4 {
      assert Stated(a + b, order) == Stated(a, order);
      var n := Stated(a, order);
      if !BadLength(a, order) && n <= |a| {
        assert (a + b)[..n] == a[..n] && (a + b)[n..] == a[n..] + b;
        GreedyContinues(a[n..], b, order, ok, done + [a[..n]]);
      }
    }
  }

  lemma {:induction false} DrainAllDead(p: Parse, chunks: seq<seq<byte>>, order: byte, ok: Oracle)
    requires p.dead
    ensures DrainAll(p, chunks, order, ok) == p
    decreases |chunks|
  {
    if chunks != [] {
      DrainAllDead(p, chunks[1..], order, ok);
    }
  }

  lemma {:induction false} DrainAllIsGreedy(p: Parse, chunks: seq<seq<byte>>, order: byte, ok: Oracle)
    requires !p.dead && Greedy(p.rest, order, ok, p.requests) == p
    ensures var q := DrainAll(p, chunks, order, ok);
            var g := Greedy(p.rest + Joined(chunks), order, ok, p.requests);
            q.requests == g.requests && q.dead == g.dead && (!g.dead ==> q == g)
    decreases |chunks|
  {
    if chunks == [] {
      assert p.rest + Joined(chunks) == p.rest;
    } else {
      var q := Drain(p, chunks[0], order, ok);
      var later := Joined(chunks[1..]);
      assert p.rest + Joined(chunks) == (p.rest + chunks[0]) + later;
      GreedyContinues(p.rest + chunks[0], later, order, ok, p.requests);
      if q.dead {
        DrainAllDead(q, chunks[1..], order, ok);
      } else {
        GreedyIsStable(p.rest + chunks[0], order, ok, p.requests);
        DrainAllIsGreedy(q, chunks[1..], order, ok);
      }
    }
  }

  /** What is left over holds no complete request. */
  lemma {:induction false} GreedyIsStable(s: seq<byte>, order: byte, ok: Oracle, done: seq<Request>)
    ensures var p := Greedy(s, order, ok, done);
            !p.dead ==> Greedy(p.rest, order, ok, p.requests) == p && |p.rest| < RECV_BUF
    decreases |s|
  {
    if |s| >= 4 && !BadLength(s, order) && Stated(s, order) <= |s| {
      var n := Stated(s, order);
      GreedyIsStable(s[n..], order, ok, done + [s[..n]]);
    }
  }

  /** Any two ways to cut the same stream into reads dispatch the same requests. */
  lemma ChunkingDoesNotMatter(chunks: seq<seq<byte>>, order: byte, ok: Oracle)
    ensures var q, g := DrainAll(START, chunks, order, ok), Greedy(Joined(chunks), order, ok, []);
            q.requests == g.requests && q.dead == g.dead && (!g.dead ==> q == g)
  {
    DrainAllIsGreedy(START, chunks, order, ok);
    assert START.rest + Joined(chunks) == Joined(chunks);
  }

  // ---- bytes are conserved ----

  lemma {:induction false} JoinedPush(requests: seq<Request>, r: Request)
    ensures Joined(requests + [r]) == Joined(requests) + r
  {
    if requests == [] {
      assert requests + [r] == [r];
      assert Joined([r]) == r + Joined([]);
    } else {
      JoinedPush(requests[1..], r);
      assert (requests + [r])[1..] == requests[1..] + [r];
    }
  }

  lemma SplitAfter(front: seq<byte>, s: seq<byte>, n: nat)
    requires n <= |s|
    ensures front + s == front + s[..n] + s[n..]
  {
  }

  lemma {:induction false} GreedyConserves(s: seq<byte>, order: byte, ok: Oracle, done: seq<Request>)
    ensures var p := Greedy(s, order, ok, done);
            !p.dead ==> Joined(done) + s == Joined(p.requests) + p.rest
    decreases |s|
  {
    if |s| >= 4 && !BadLength(s, order) && Stated(s, order) <= |s| {
      var n := Stated(s, order);
      JoinedPush(done, s[..n]);
      GreedyStep(s, order, ok, done);
      GreedyConserves(s[n..], order, ok, done + [s[..n]]);
      SplitAfter(Joined(done), s, n);
    }
  }

  /** Every dispatched request is exactly as long as its header states. */
  lemma {:induction false} RequestsAreWhole(s: seq<byte>, order: byte, ok: Oracle, done: seq<Request>, i: nat)
    requires |done| <= i < |Greedy(s, order, ok, done).requests|
    ensures var r := Greedy(s, order, ok, done).requests[i];
            4 <= |r| <= RECV_BUF && |r| == Stated(r, order)
    decreases |s|
  {
    if |s| >= 4 && !BadLength(s, order) && Stated(s, order) <= |s| {
      var n := Stated(s, order);
      var next := done + [s[..n]];
      assert s[..n][2..][..2] == s[2..][..2];
      if ok(next) {
        GreedyExtends(s[n..], order, ok, next);
        if i > |done| {
          RequestsAreWhole(s[n..], order, ok, next, i);
        }
      }
    }
  }

  lemma {:induction false} GreedyExtends(s: seq<byte>, order: byte, ok: Oracle, done: seq<Request>)
    ensures done <= Greedy(s, order, ok, done).requests
    decreases |s|
  {
    if |s| >= 4 && !BadLength(s, order) && Stated(s, order) <= |s| {
      var n := Stated(s, order);
      GreedyExtends(s[n..], order, ok, done + [s[..n]]);
    }
  }

  /**
   While the connection lives, the bytes received are the bytes dispatched followed by the leftover,
   and the leftover leaves room to read: the buffer-full branch is never taken.
   */
  lemma EveryByteIsAccountedFor(chunks: seq<seq<byte>>, order: byte, ok: Oracle)
    ensures var q := DrainAll(START, chunks, order, ok);
            !q.dead ==> Joined(chunks) == Joined(q.requests) + q.rest && |q.rest| < RECV_BUF
  {
    ChunkingDoesNotMatter(chunks, order, ok);
    GreedyConserves(Joined(chunks), order, ok, []);
    GreedyIsStable(Joined(chunks), order, ok, []);
    assert Joined([]) + Joined(chunks) == Joined(chunks);
  }

  // ---- the receive buffer ----

  /** What one recv delivers: bytes, nothing yet, end of stream, or an error. */
  datatype Recv = Data(chunk: seq<byte>) | Again | Closed | Failed

  lemma SplitSlice(b: array<byte>, i: nat, j: nat, k: nat)
    requires i <= j <= k <= b.Length
    ensures b[i..k][..j - i] == b[i..j] && b[i..k][j - i..] == b[j..k]
  {
  }

  class Client {
    const buf: array<byte>
    const order: byte
    var have: nat
    var dispatched: seq<Request>

    ghost predicate Valid()
      reads this
    {
      buf.Length == RECV_BUF && have <= RECV_BUF
    }

    /** The connection as a parse that is still open. */
    ghost function View(): Parse
      requires Valid()
      reads this, buf
    {
      Parse(dispatched, buf[..have], false)
    }

    constructor (order: byte)
      ensures Valid() && View() == START && this.order == order && fresh(buf)
    {
      buf := new byte[RECV_BUF](i => 0);
      this.order := order;
      have := 0;
      dispatched := [];
      new;
      assert buf[..have] == [];
    }

    /** The copy recv makes into the free part of the buffer. */
    method Receive(chunk: seq<byte>)
      requires Valid() && have + |chunk| <= RECV_BUF
      modifies this`have, buf
      ensures Valid() && buf[..have] == old(buf[..have]) + chunk
    {
      for i := 0 to |chunk|
        invariant have == old(have) && buf[..have + i] == old(buf[..have]) + chunk[..i]
      {
        buf[have + i] := chunk[i];
      }
      have := have + |chunk|;
    }

    /** The size the header at `at` states, and whether it is refused. */
    method ReadLength(at: nat) returns (total: nat, bad: bool)
      requires Valid() && at + 4 <= have
      ensures total == Stated(buf[at..have], order) && bad == BadLength(buf[at..have], order)
    {
      assert buf[at..have][2..] == buf[at + 2..have];
      var length: int := GetU16(buf[at + 2..have], order);
      total := length * 4;
      bad := length < 1 || total > RECV_BUF;
    }

    /** Dispatches the whole request at the front, if there is one. */
    method DispatchOne(ok: Oracle, at: nat, ghost s: seq<byte>) returns (more: bool, alive: bool, next: nat)
      requires Valid() && at + 4 <= have && s == buf[at..have]
      modifies this`dispatched
      ensures !Whole(s, order) ==> !more && alive == !BadLength(s, order) && dispatched == old(dispatched)
      ensures Whole(s, order) ==>
                next == at + Stated(s, order) && !alive && s[next - at..] == buf[next..have] &&
                dispatched == old(dispatched) + [s[..next - at]] && more == ok(dispatched)
    {
      var total, bad := ReadLength(at);
      if bad || have - at < total {
        return false, !bad, at;
      }
      SplitSlice(buf, at, at + total, have);
      dispatched := dispatched + [buf[at..at + total]];
      return ok(dispatched), false, at + total;
    }

    /** One turn of the parsing loop: the parse continues at `next`, or ends with what was dispatched. */
    method ParseOne(ok: Oracle, at: nat) returns (more: bool, alive: bool, next: nat)
      requires Valid() && at + 4 <= have
      modifies this`dispatched
      ensures !more ==>
                Greedy(buf[at..have], order, ok, old(dispatched)) == Parse(dispatched, buf[at..have], !alive)
      ensures more ==> at < next <= have &&
                       Greedy(buf[at..have], order, ok, old(dispatched)) ==
                       Greedy(buf[next..have], order, ok, dispatched)
    {
      ghost var s := buf[at..have];
      GreedyStep(s, order, ok, dispatched);
      more, alive, next := DispatchOne(ok, at, s);
    }

    /** Parses complete requests from the front; consumed says how far it came. */
    method ParseRequests(ok: Oracle) returns (alive: bool, consumed: nat)
      requires Valid()
      modifies this`dispatched
      ensures consumed <= have
      ensures var g := Greedy(buf[..have], order, ok, old(dispatched));
              dispatched == g.requests && alive == !g.dead && (alive ==> buf[consumed..have] == g.rest)
    {
      consumed := 0;
      while have - consumed >= 4
        invariant consumed <= have
        invariant Greedy(buf[consumed..have], order, ok, dispatched) ==
                  Greedy(buf[..have], order, ok, old(dispatched))
      {
        var more, open, next := ParseOne(ok, consumed);
        if !more {
          return open, consumed;
        }
        consumed := next;
      }
      return true, consumed;
    }

    /** Moves the unparsed remainder to the front of the buffer. */
    method ShiftDown(consumed: nat)
      requires Valid() && consumed <= have
      modifies this`have, buf
      ensures Valid() && buf[..have] == old(buf[consumed..have])
    {
      var left := have - consumed;
      for i := 0 to left
        invariant forall k :: 0 <= k < i ==> buf[k] == old(buf[consumed + k])
        invariant forall k :: i <= k < buf.Length ==> buf[k] == old(buf[k])
      {
        buf[i] := buf[consumed + i];
      }
      have := left;
    }

    /** x11_client_drain after setup: one read, then every complete request. */
    method DrainSocket(r: Recv, ok: Oracle) returns (alive: bool)
      requires Valid()
      requires r.Data? ==> 0 < |r.chunk| <= RECV_BUF - have
      modifies this, buf
      ensures Valid()
      ensures old(have) == RECV_BUF || r.Closed? || r.Failed? ==> !alive && View() == old(View())
      ensures old(have) < RECV_BUF && (r.Data? || r.Again?) ==>
                var p := Drain(old(View()), if r.Data? then r.chunk else [], order, ok);
                dispatched == p.requests && alive == !p.dead && (alive ==> View() == p)
      ensures alive ==> have < RECV_BUF
    {
      if have == RECV_BUF {
        return false;
      }
      match r {
        case Closed => return false;
        case Failed => return false;
        case Again => assert buf[..have] + [] == buf[..have];
        case Data(chunk) => Receive(chunk);
      }
      GreedyIsStable(buf[..have], order, ok, dispatched);
      var consumed;
      alive, consumed := ParseRequests(ok);
      if alive {
        ShiftDown(consumed);
      }
    }
  }
}
