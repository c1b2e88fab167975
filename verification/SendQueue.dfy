/**
 The outbound side of a connection (src/protocol/isz_conn.c): a direct send when nothing waits, else a
 bounded FIFO that is drained when the socket is writable. The socket writes a whole frame, would
 block, or fails; those answers are inputs.
 */
module SendQueue {
  import opened Bytes
  import opened Options
  import opened Framing

  const MAX_EVENTS := 1024

  datatype Socket = WroteAll | WouldBlock | Failed

  datatype Code = Ok | InvalidArg | Disconnected | TooSlow | NoMemory | Pending

  /** `accepted` are the frames for which send returned Ok. */
  datatype State = State(dead: bool, queue: seq<Frame>, wire: seq<Frame>, accepted: seq<Frame>)

  datatype Op = Send(m: Message, socket: Socket, memory: bool) | Drain(sockets: seq<Socket>)

  const START := State(false, [], [], [])

  function Enqueue(s: State, f: Frame, memory: bool): (State, Code) {
    if |s.queue| >= MAX_EVENTS then (s.(dead := true), TooSlow)
    else if !memory then (s.(dead := true), NoMemory)
    else (s.(queue := s.queue + [f], accepted := s.accepted + [f]), Ok)
  }

  function SendOne(s: State, m: Message, socket: Socket, memory: bool): (State, Code) {
    if s.dead then (s, Disconnected)
    else if Encode(m).None? then (s, InvalidArg)
    else
      var f := Encode(m).value;
      if s.queue != [] || socket == WouldBlock then Enqueue(s, f, memory)
      else if socket == WroteAll then (s.(wire := s.wire + [f], accepted := s.accepted + [f]), Ok)
      else (s.(dead := true), Disconnected)
  }

  /** The drain loop of a live connection; a socket that has given all its answers would block. */
  function Flush(s: State, sockets: seq<Socket>): (State, Code)
    decreases |s.queue|
  {
    if s.queue == [] then (s, Ok)
    else if sockets == [] || sockets[0] == WouldBlock then (s, Pending)
    else if sockets[0] == Failed then (s.(dead := true), Disconnected)
    else Flush(s.(queue := s.queue[1..], wire := s.wire + [s.queue[0]]), sockets[1..])
  }

  function Next(s: State, op: Op): State {
    match op
    case Send(m, socket, memory) => SendOne(s, m, socket, memory).0
    case Drain(sockets) => if s.dead then s else Flush(s, sockets).0
  }

  function Run(s: State, ops: seq<Op>): State
    decreases |ops|
  {
    if ops == [] then s else Run(Next(s, ops[0]), ops[1..])
  }

  /** Accepted frames are the frames on the wire followed by the frames that wait; the queue is bounded. */
  predicate Ordered(s: State) {
    s.accepted == s.wire + s.queue && |s.queue| <= MAX_EVENTS
  }

  lemma {:induction false} FlushKeepsOrder(s: State, sockets: seq<Socket>)
    requires Ordered(s)
    ensures var t := Flush(s, sockets).0;
            Ordered(t) && t.accepted == s.accepted && s.wire <= t.wire
    decreases |s.queue|
  {
    if s.queue != [] && sockets != [] && sockets[0] == WroteAll {
      var t := s.(queue := s.queue[1..], wire := s.wire + [s.queue[0]]);
      assert t.wire + t.queue == s.wire + s.queue;
      FlushKeepsOrder(t, sockets[1..]);
    }
  }

  lemma StepKeepsOrder(s: State, op: Op)
    requires Ordered(s)
    ensures var t := Next(s, op);
            Ordered(t) && s.wire <= t.wire && s.accepted <= t.accepted && (s.dead ==> t == s)
  {
    if op.Drain? && !s.dead {
      FlushKeepsOrder(s, op.sockets);
    }
  }

  /**
   In every run: nothing overtakes, nothing is lost or repeated, the queue never exceeds its cap, what
   is on the wire stays there, and a dead connection stays as it is.
   */
  lemma {:induction false} OrderIsKept(s: State, ops: seq<Op>)
    requires Ordered(s)
    ensures var t := Run(s, ops);
            Ordered(t) && s.wire <= t.wire && s.accepted <= t.accepted && (s.dead ==> t == s)
    decreases |ops|
  {
    if ops != [] {
      StepKeepsOrder(s, ops[0]);
      OrderIsKept(Next(s, ops[0]), ops[1..]);
    }
  }

  // ---- what the peer decodes ----

  /** The message this step accepts, if it is a send that returns Ok. */
  function AcceptedBy(s: State, op: Op): seq<Sendable> {
    if op.Send? && SendOne(s, op.m, op.socket, op.memory).1 == Ok then [op.m] else []
  }

  /** The messages of the sends that returned Ok, in order. */
  function Messages(s: State, ops: seq<Op>): seq<Sendable>
    decreases |ops|
  {
    if ops == [] then [] else AcceptedBy(s, ops[0]) + Messages(Next(s, ops[0]), ops[1..])
  }

  lemma {:induction false} FlushAccepts(s: State, sockets: seq<Socket>)
    ensures Flush(s, sockets).0.accepted == s.accepted
    decreases |s.queue|
  {
    if s.queue != [] && sockets != [] && sockets[0] == WroteAll {
      FlushAccepts(s.(queue := s.queue[1..], wire := s.wire + [s.queue[0]]), sockets[1..]);
    }
  }

  lemma StepAccepts(s: State, op: Op)
    ensures Next(s, op).accepted == s.accepted + EncodeAll(AcceptedBy(s, op))
  {
    match op
    case Drain(sockets) => FlushAccepts(s, sockets);
    case Send(m, socket, memory) =>
      if AcceptedBy(s, op) != [] {
        assert EncodeAll([m]) == [FrameOf(m)] + EncodeAll([m][1..]);
      }
  }

  lemma {:induction false} AcceptedAreMessages(s: State, ops: seq<Op>)
    ensures Run(s, ops).accepted == s.accepted + EncodeAll(Messages(s, ops))
    decreases |ops|
  {
    if ops != [] {
      var t, now, later := Next(s, ops[0]), AcceptedBy(s, ops[0]), Messages(Next(s, ops[0]), ops[1..]);
      StepAccepts(s, ops[0]);
      AcceptedAreMessages(t, ops[1..]);
      EncodeAllAppend(now, later);
      assert s.accepted + EncodeAll(now) + EncodeAll(later) == s.accepted + EncodeAll(now + later);
    }
  }

  /**
   In every run the bytes on the wire decode to the first messages whose send returned Ok, in order,
   and to all of them once the queue is empty.
   */
  lemma PeerDecodesWhatWasSent(ops: seq<Op>)
    ensures var t, sent := Run(START, ops), Messages(START, ops);
            |t.wire| + |t.queue| == |sent| && DecodeAll(Concat(t.wire)) == sent[..|t.wire|]
  {
    OrderIsKept(START, ops);
    AcceptedAreMessages(START, ops);
    var t, sent := Run(START, ops), Messages(START, ops);
    FramedPrefix(sent, t.wire, t.queue);
    DecodeAllEncodeAll(sent[..|t.wire|]);
  }

  // ---- what a send and a drain do ----

  /** How many frames the socket takes before it blocks, fails or has no more answers. */
  function Taken(sockets: seq<Socket>): (k: nat)
    ensures k <= |sockets| && (forall i :: 0 <= i < k ==> sockets[i] == WroteAll)
    ensures k < |sockets| ==> sockets[k] != WroteAll
  {
    if sockets == [] || sockets[0] != WroteAll then 0 else 1 + Taken(sockets[1..])
  }

  /**
   A drain with the answer `code` took the connection from s to t: the frames the socket took went out
   from the front of the queue, and the answer says why it stopped.
   */
  predicate Drained(s: State, sockets: seq<Socket>, t: State, code: Code) {
    var n := Taken(sockets);
    var k := if n < |s.queue| then n else |s.queue|;
    t.wire == s.wire + s.queue[..k] && t.queue == s.queue[k..] && t.accepted == s.accepted &&
    t.dead == (code == Disconnected) &&
    code == if k == |s.queue| then Ok else if n < |sockets| && sockets[n] == Failed then Disconnected else Pending
  }

  lemma {:induction false} DrainOutcome(s: State, sockets: seq<Socket>)
    requires !s.dead
    ensures Drained(s, sockets, Flush(s, sockets).0, Flush(s, sockets).1)
    ensures Next(s, Drain(sockets)) == Flush(s, sockets).0
    decreases |s.queue|
  {
    if s.queue != [] && sockets != [] && sockets[0] == WroteAll {
      var u := s.(queue := s.queue[1..], wire := s.wire + [s.queue[0]]);
      DrainOutcome(u, sockets[1..]);
      DrainedOneMore(s, sockets, Flush(u, sockets[1..]).0, Flush(u, sockets[1..]).1);
    }
  }

  /** One frame out, then the rest of the drain. */
  lemma DrainedOneMore(s: State, sockets: seq<Socket>, t: State, code: Code)
    requires s.queue != [] && sockets != [] && sockets[0] == WroteAll
    requires Drained(s.(queue := s.queue[1..], wire := s.wire + [s.queue[0]]), sockets[1..], t, code)
    ensures Drained(s, sockets, t, code)
  {
    var n := Taken(sockets);
    var k := if n < |s.queue| then n else |s.queue|;
    SplitFirst(s.wire, s.queue, k);
  }

  lemma SplitFirst<T>(w: seq<T>, q: seq<T>, k: nat)
    requires 1 <= k <= |q|
    ensures w + [q[0]] + q[1..][..k - 1] == w + q[..k] && q[1..][k - 1..] == q[k..]
  {
  }

  /** A dead connection answers nothing else; a message that does not fit is refused. */
  lemma SendRefusals(s: State, m: Message, socket: Socket, memory: bool)
    ensures s.dead ==> SendOne(s, m, socket, memory) == (s, Disconnected) && Next(s, Drain([socket])) == s
    ensures !s.dead && |m.payload| > 8184 ==> SendOne(s, m, socket, memory) == (s, InvalidArg)
  {
  }

  /** A message that fits: written at once if nothing waits, else behind what waits, unless 1024 frames do. */
  lemma SendOutcome(s: State, m: Sendable, socket: Socket, memory: bool)
    requires !s.dead
    ensures var (t, code) := SendOne(s, m, socket, memory);
            if s.queue == [] && socket == WroteAll then
              code == Ok && !t.dead && t.wire == s.wire + [FrameOf(m)] && t.queue == [] &&
              t.accepted == s.accepted + [FrameOf(m)]
            else if s.queue == [] && socket == Failed then
              code == Disconnected && t == s.(dead := true)
            else if |s.queue| >= 1024 then code == TooSlow && t == s.(dead := true)
            else if !memory then code == NoMemory && t == s.(dead := true)
            else
              code == Ok && !t.dead && t.wire == s.wire && t.queue == s.queue + [FrameOf(m)] &&
              t.accepted == s.accepted + [FrameOf(m)]
  {
  }

  // ---- the linked queue ----

  class Node {
    const frame: Frame
    var next: Node?

    constructor (frame: Frame)
      ensures this.frame == frame && next == null
    {
      this.frame := frame;
      next := null;
    }
  }

  class Conn {
    var head: Node?
    var tail: Node?
    var queued: nat
    var dead: bool
    var wire: seq<Frame>
    ghost var accepted: seq<Frame>
    // The queue, front to back: its nodes and the frames they carry.
    ghost var nodes: seq<Node>
    ghost var frames: seq<Frame>

    /** head and tail are the ends of the chain of nodes, and queued is its length. */
    ghost predicate Valid()
      reads this`head, this`tail, this`queued, this`nodes, this`frames, nodes
    {
      queued == |nodes| &&
      head == (if nodes == [] then null else nodes[0]) &&
      tail == (if nodes == [] then null else nodes[|nodes| - 1]) &&
      (forall i, j :: 0 <= i < j < |nodes| ==> nodes[i] != nodes[j]) &&
      (forall i :: 0 <= i < |nodes| ==> nodes[i].next == After(i)) &&
      |frames| == |nodes| && (forall i :: 0 <= i < |nodes| ==> nodes[i].frame == frames[i])
    }

    ghost function After(i: nat): Node?
      reads this`nodes
    {
      if i + 1 < |nodes| then nodes[i + 1] else null
    }

    ghost function View(): State
      reads this
    {
      State(dead, frames, wire, accepted)
    }

    constructor ()
      ensures Valid() && View() == START
    {
      head, tail, queued, dead, wire := null, null, 0, false, [];
      accepted, nodes, frames := [], [], [];
    }

    /** Appends a new node behind the tail; its frame is accepted. */
    method Append(f: Frame)
      requires Valid()
      modifies this`head, this`tail, this`queued, this`accepted, this`nodes, this`frames, nodes
      ensures Valid() && frames == old(frames) + [f] && accepted == old(accepted) + [f]
    {
      var node := new Node(f);
      if tail != null {
        tail.next := node;
      } else {
        head := node;
      }
      tail := node;
      queued := queued + 1;
      accepted, nodes, frames := accepted + [f], nodes + [node], frames + [f];
    }

    /** The head's frame was written: it leaves the queue. */
    method SentHead()
      requires Valid() && nodes != []
      modifies this`head, this`tail, this`queued, this`wire, this`nodes, this`frames
      ensures Valid() && nodes == old(nodes)[1..]
      ensures frames == old(frames)[1..] && wire == old(wire) + [old(frames)[0]]
    {
      wire := wire + [head.frame];
      head := head.next;
      if head == null {
        tail := null;
      }
      queued := queued - 1;
      nodes, frames := nodes[1..], frames[1..];
    }

    /** The enqueue label of isz_conn_send. */
    method EnqueueFrame(f: Frame, memory: bool) returns (code: Code)
      requires Valid()
      modifies this, nodes
      ensures Valid() && (View(), code) == Enqueue(old(View()), f, memory)
    {
      if queued >= MAX_EVENTS {
        dead := true;
        return TooSlow;
      }
      if !memory {
        dead := true;
        return NoMemory;
      }
      Append(f);
      return Ok;
    }

    method SendMessage(m: Message, socket: Socket, memory: bool) returns (code: Code)
      requires Valid()
      modifies this, nodes
      ensures Valid() && (View(), code) == SendOne(old(View()), m, socket, memory)
    {
      if dead {
        return Disconnected;
      }
      var encoded := Encode(m);
      if encoded.None? {
        return InvalidArg;
      }
      if head != null || socket == WouldBlock {
        code := EnqueueFrame(encoded.value, memory);
      } else if socket == WroteAll {
        wire, accepted := wire + [encoded.value], accepted + [encoded.value];
        return Ok;
      } else {
        dead := true;
        return Disconnected;
      }
    }

    /** A dead connection is left alone; otherwise what the socket takes goes out from the front. */
    method DrainQueue(sockets: seq<Socket>) returns (code: Code)
      requires Valid()
      modifies this
      ensures Valid()
      ensures old(dead) ==> code == Disconnected && View() == old(View())
      ensures !old(dead) ==> Drained(old(View()), sockets, View(), code) && View() == Next(old(View()), Drain(sockets))
    {
      if dead {
        return Disconnected;
      }
      DrainOutcome(View(), sockets);
      code := DrainLoop(sockets);
    }

    method DrainLoop(sockets: seq<Socket>) returns (code: Code)
      requires Valid() && !dead
      modifies this
      ensures Valid() && (View(), code) == Flush(old(View()), sockets)
    {
      var answers := sockets;
      while head != null
        invariant Valid() && !dead && Flush(View(), answers) == Flush(old(View()), sockets)
        decreases |nodes|
      {
        if answers == [] || answers[0] == WouldBlock {
          return Pending;
        }
        if answers[0] == Failed {
          dead := true;
          return Disconnected;
        }
        SentHead();
        answers := answers[1..];
      }
      return Ok;
    }
  }
}
