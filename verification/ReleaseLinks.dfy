/**
 The two release lists over one set of nodes: a node for each allocated buffer, a sentinel for the
 in-flight list of the backend and one for the pending list of the server.
 */
module ReleaseLinks {
  import opened Options
  import opened ReleaseList
  import opened Retirement

  /** The buffers of a list of nodes, in order. */
  ghost function Owners(q: seq<Node>): (r: seq<nat>)
    ensures |r| == |q| && forall i :: 0 <= i < |q| ==> r[i] == q[i].owner
  {
    seq(|q|, i requires 0 <= i < |q| => q[i].owner)
  }

  /** Two rings over the nodes `all` without a common node; every other node is self-linked. */
  ghost predicate TwoRings(head: Node, s: seq<Node>, other: Node, t: seq<Node>, all: set<Node>)
    reads head, other, all
  {
    head != other && head !in all && other !in all && Within(s, all) && Within(t, all) && Disjoint(s, t) &&
    IsRing(head, s) && IsRing(other, t) && Loose(s, t, all)
  }

  ghost predicate Within(s: seq<Node>, all: set<Node>) {
    forall i :: 0 <= i < |s| ==> s[i] in all
  }

  ghost predicate Disjoint(s: seq<Node>, t: seq<Node>) {
    forall i :: 0 <= i < |s| ==> s[i] !in t
  }

  ghost predicate Loose(s: seq<Node>, t: seq<Node>, all: set<Node>)
    reads all
  {
    forall n :: n in all && n !in s && n !in t ==> n.prev == n && n.next == n
  }

  /** push_back on one of the two lists; after pushing a linked node the sentinels head no two rings. */
  method Push(head: Node, n: Node, ghost s: seq<Node>, ghost other: Node, ghost t: seq<Node>, ghost all: set<Node>)
    requires TwoRings(head, s, other, t, all) && n in all
    modifies head, all
    ensures n !in s && n !in t ==> TwoRings(head, s + [n], other, t, all)
    ensures n in s || n in t ==> forall u: seq<Node>, v: seq<Node> :: !TwoRings(head, u, other, v, all)
  {
    assert head.prev == head || head.prev in s;
    PushBack(head, n, s, other, t);
    if n !in s && n !in t {
      assert Loose(s + [n], t, all);
    }
  }

  /** pop_front on one of the two lists. */
  method Pop(head: Node, ghost s: seq<Node>, ghost other: Node, ghost t: seq<Node>, ghost all: set<Node>)
      returns (n: Node?)
    requires TwoRings(head, s, other, t, all)
    modifies head, all
    ensures s == [] ==> n == null && TwoRings(head, s, other, t, all)
    ensures s != [] ==> n == s[0] && TwoRings(head, s[1..], other, t, all)
  {
    n := PopFront(head, s);
    assert IsRing(other, t);
    assert Loose(s, t, all);
    if s != [] {
      ShrinkFirst(s, t, all);
    }
  }

  lemma ShrinkFirst(s: seq<Node>, t: seq<Node>, all: set<Node>)
    requires s != [] && (forall i, j :: 0 <= i < j < |s| ==> s[i] != s[j])
    requires Within(s, all) && Disjoint(s, t) && s[0].prev == s[0] && s[0].next == s[0] && Loose(s, t, all)
    ensures Within(s[1..], all) && Disjoint(s[1..], t) && Loose(s[1..], t, all)
  {
    assert Cut(s, 0) == s[1..];
    CutLeaves(s, 0);
    Shrink(s, 0, t, all);
  }

  /** Taking s[k] off its list keeps the lists disjoint and, once it is self-linked, the other nodes loose. */
  lemma Shrink(s: seq<Node>, k: nat, t: seq<Node>, all: set<Node>)
    requires k < |s| && (forall n :: n in Cut(s, k) <==> n in s && n != s[k])
    requires Within(s, all) && Disjoint(s, t) && s[k].prev == s[k] && s[k].next == s[k]
    requires Loose(s, t, all)
    ensures Within(Cut(s, k), all) && Disjoint(Cut(s, k), t) && Loose(Cut(s, k), t, all)
  {
    forall i | 0 <= i < |Cut(s, k)| ensures Cut(s, k)[i] in all && Cut(s, k)[i] !in t {
      assert Cut(s, k)[i] in s;
    }
  }

  lemma Swap(head: Node, s: seq<Node>, other: Node, t: seq<Node>, all: set<Node>)
    requires TwoRings(head, s, other, t, all)
    ensures TwoRings(other, t, head, s, all)
  {
  }

  /** remove of the node at position k of one list; k == |s| stands for a node on neither list. */
  method Take(n: Node, ghost head: Node, ghost s: seq<Node>, ghost k: nat, ghost other: Node, ghost t: seq<Node>,
              ghost all: set<Node>)
    requires TwoRings(head, s, other, t, all) && n in all && k <= |s|
    requires if k < |s| then s[k] == n else n !in s && n !in t
    modifies head, all
    ensures TwoRings(head, Cut(s, k), other, t, all - {n})
  {
    assert k < |s| ==> Fits(head, s, k);
    Remove(n, head, s, k);
    assert IsRing(other, t);
    if k < |s| {
      CutLeaves(s, k);
      Shrink(s, k, t, all);
    }
  }

  /** remove, wherever the node is: i and j are its positions, or the lengths if it is not there. */
  method Detach(n: Node, ghost head: Node, ghost s: seq<Node>, ghost other: Node, ghost t: seq<Node>,
                ghost all: set<Node>)
      returns (ghost i: nat, ghost j: nat)
    requires TwoRings(head, s, other, t, all) && n in all
    modifies head, other, all
    ensures i <= |s| && if i < |s| then s[i] == n else n !in s
    ensures j <= |t| && if j < |t| then t[j] == n else n !in t
    ensures TwoRings(head, Cut(s, i), other, Cut(t, j), all - {n})
  {
    i, j := |s|, |t|;
    if n in s {
      i :| 0 <= i < |s| && s[i] == n;
    } else if n in t {
      j :| 0 <= j < |t| && t[j] == n;
      Swap(head, s, other, t, all);
    }
    ghost var first := j == |t|;
    Take(n, if first then head else other, if first then s else t, if first then i else j,
         if first then other else head, if first then t else s, all);
    if !first {
      Swap(other, Cut(t, j), head, s, all - {n});
    }
  }

  lemma CutLeaves(s: seq<Node>, k: nat)
    requires k < |s| && forall i, j :: 0 <= i < j < |s| ==> s[i] != s[j]
    ensures s[k] !in Cut(s, k) && forall n :: n in Cut(s, k) <==> n in s && n != s[k]
  {
    forall n ensures n in Cut(s, k) <==> n in s && n != s[k] {
      if n in s && n != s[k] {
        var i :| 0 <= i < |s| && s[i] == n;
        assert Cut(s, k)[if i < k then i else i - 1] == n;
      }
    }
  }

  /** `all` holds one node for each buffer. */
  ghost predicate Stored(nodes: map<nat, Node>, all: set<Node>) {
    (forall b :: b in nodes ==> nodes[b] in all && nodes[b].owner == b) &&
    (forall n :: n in all ==> n.owner in nodes && nodes[n.owner] == n)
  }

  lemma StoredWithout(nodes: map<nat, Node>, all: set<Node>, b: nat)
    requires Stored(nodes, all) && b in nodes
    ensures Stored(nodes - {b}, all - {nodes[b]})
  {
  }

  lemma StoredWith(nodes: map<nat, Node>, all: set<Node>, n: Node)
    requires Stored(nodes, all) && n.owner !in nodes
    ensures Stored(nodes[n.owner := n], all + {n})
  {
  }

  lemma OnListIff(nodes: map<nat, Node>, all: set<Node>, b: nat, q: seq<Node>)
    requires Stored(nodes, all) && Within(q, all) && b in nodes
    ensures nodes[b] in q <==> b in Owners(q)
  {
    if b in Owners(q) {
      var i :| 0 <= i < |q| && Owners(q)[i] == b;
      assert q[i] in all;
    }
    if nodes[b] in q {
      var i :| 0 <= i < |q| && q[i] == nodes[b];
      assert Owners(q)[i] == b;
    }
  }

  lemma UnknownIsUnlisted(nodes: map<nat, Node>, all: set<Node>, b: nat, q: seq<Node>)
    requires Stored(nodes, all) && Within(q, all) && b !in nodes
    ensures b !in Owners(q)
  {
    assert forall i :: 0 <= i < |q| ==> q[i] in all;
  }

  lemma {:induction false} WithoutAbsent(q: seq<BufferId>, b: BufferId)
    requires b !in q
    ensures Without(q, b) == q
  {
    if q != [] {
      WithoutAbsent(q[1..], b);
    }
  }

  lemma {:induction false} WithoutAt(q: seq<BufferId>, k: nat)
    requires k < |q| && forall i :: 0 <= i < |q| && i != k ==> q[i] != q[k]
    ensures Without(q, q[k]) == q[..k] + q[k + 1..]
  {
    if k == 0 {
      WithoutAbsent(q[1..], q[0]);
    } else {
      WithoutAt(q[1..], k - 1);
      assert q[..k] == [q[0]] + q[1..][..k - 1];
    }
  }

  /** Cutting a buffer's node out of a list takes the buffer out of it. */
  lemma CutIsWithout(nodes: map<nat, Node>, all: set<Node>, q: seq<Node>, k: nat, b: nat)
    requires Stored(nodes, all) && Within(q, all) && b in nodes && k <= |q|
    requires forall i, j :: 0 <= i < j < |q| ==> q[i] != q[j]
    requires if k < |q| then q[k] == nodes[b] else nodes[b] !in q
    ensures Owners(Cut(q, k)) == Without(Owners(q), b)
  {
    OnListIff(nodes, all, b, q);
    if k == |q| {
      WithoutAbsent(Owners(q), b);
    } else {
      forall i | 0 <= i < |q| && i != k ensures Owners(q)[i] != b {
        assert q[i] in all && q[i] != q[k];
      }
      WithoutAt(Owners(q), k);
      assert Owners(Cut(q, k)) == Owners(q)[..k] + Owners(q)[k + 1..];
    }
  }

  lemma OwnersPush(q: seq<Node>, n: Node)
    ensures Owners(q + [n]) == Owners(q) + [n.owner]
  {
  }

  lemma OwnersPop(q: seq<Node>)
    requires q != []
    ensures Owners(q[1..]) == Owners(q)[1..]
  {
  }

  class Links {
    const flightHead: Node
    const pendingHead: Node
    /** The node of every allocated buffer. */
    var nodes: map<nat, Node>
    ghost var all: set<Node>
    ghost var flight: seq<Node>
    ghost var waiting: seq<Node>
    /** The buffers on the two lists, in order. */
    ghost var inFlight: seq<nat>
    ghost var pending: seq<nat>
    /** A linked node was pushed again: the sentinels head no two rings any more. */
    ghost var broken: bool

    ghost predicate Valid()
      reads this, flightHead, pendingHead, all
    {
      Stored(nodes, all) && inFlight == Owners(flight) && pending == Owners(waiting) &&
      (!broken ==> TwoRings(flightHead, flight, pendingHead, waiting, all))
    }

    constructor ()
      ensures Valid() && !broken && nodes == map[] && inFlight == [] && pending == [] && all == {}
      ensures fresh(flightHead) && fresh(pendingHead)
    {
      flightHead := new Node(0);
      pendingHead := new Node(0);
      nodes, flight, waiting, inFlight, pending, broken, all := map[], [], [], [], [], false, {};
    }

    lemma ListedIff(b: nat)
      requires Valid() && !broken && b in nodes
      ensures nodes[b] in flight || nodes[b] in waiting <==> b in inFlight || b in pending
    {
      OnListIff(nodes, all, b, flight);
      OnListIff(nodes, all, b, waiting);
    }

    /** A new buffer comes with a self-linked node. */
    method Allocate(b: nat)
      requires Valid() && !broken && b !in nodes
      modifies this`nodes, this`all
      ensures Valid() && nodes.Keys == old(nodes.Keys) + {b} && fresh(all - old(all))
    {
      var n := new Node(b);
      StoredWith(nodes, all, n);
      nodes := nodes[b := n];
      all := all + {n};
    }

    /** remove: b's node leaves whatever list it is on and no longer belongs to the lists. */
    method Unlink(b: nat) returns (ghost i: nat, ghost j: nat)
      requires Stored(nodes, all) && TwoRings(flightHead, flight, pendingHead, waiting, all) && b in nodes
      modifies this`flight, this`waiting, this`all, flightHead, pendingHead, all
      ensures all == old(all) - {nodes[b]} && TwoRings(flightHead, flight, pendingHead, waiting, all)
      ensures i <= |old(flight)| && flight == Cut(old(flight), i)
      ensures if i < |old(flight)| then old(flight)[i] == nodes[b] else nodes[b] !in old(flight)
      ensures j <= |old(waiting)| && waiting == Cut(old(waiting), j)
      ensures if j < |old(waiting)| then old(waiting)[j] == nodes[b] else nodes[b] !in old(waiting)
    {
      i, j := Detach(nodes[b], flightHead, flight, pendingHead, waiting, all);
      flight, waiting, all := Cut(flight, i), Cut(waiting, j), all - {nodes[b]};
    }

    /** The same, seen as lists of buffers. */
    method UnlinkBuffer(b: nat)
      requires Stored(nodes, all) && TwoRings(flightHead, flight, pendingHead, waiting, all) && b in nodes
      modifies this`flight, this`waiting, this`all, flightHead, pendingHead, all
      ensures all == old(all) - {nodes[b]} && TwoRings(flightHead, flight, pendingHead, waiting, all)
      ensures Owners(flight) == Without(Owners(old(flight)), b) && Owners(waiting) == Without(Owners(old(waiting)), b)
    {
      ghost var i, j := Unlink(b);
      CutIsWithout(nodes, old(all), old(flight), i, b);
      CutIsWithout(nodes, old(all), old(waiting), j, b);
    }

    method Forget(b: nat)
      requires Stored(nodes - {b}, all) && TwoRings(flightHead, flight, pendingHead, waiting, all) && !broken
      modifies this`nodes, this`inFlight, this`pending
      ensures Valid() && nodes == old(nodes) - {b} && inFlight == Owners(flight) && pending == Owners(waiting)
      ensures b !in inFlight && b !in pending
    {
      UnknownIsUnlisted(nodes - {b}, all, b, flight);
      UnknownIsUnlisted(nodes - {b}, all, b, waiting);
      nodes, inFlight, pending := nodes - {b}, Owners(flight), Owners(waiting);
    }

    /** A buffer goes with its node. */
    method Free(b: nat)
      requires Valid() && !broken && b in nodes
      modifies this, flightHead, pendingHead, all
      ensures Valid() && !broken && nodes == old(nodes) - {b} && all <= old(all)
      ensures inFlight == Without(old(inFlight), b) && pending == Without(old(pending), b)
      ensures b !in inFlight && b !in pending
    {
      StoredWithout(nodes, all, b);
      UnlinkBuffer(b);
      Forget(b);
    }

    /** push_back of b's node onto the in-flight list. */
    method PushFlight(b: nat)
      requires Valid() && !broken && b in nodes
      modifies this`flight, this`inFlight, this`broken, flightHead, all
      ensures Valid() && inFlight == old(inFlight) + [b]
      ensures broken <==> b in old(inFlight) || b in pending
    {
      var n := nodes[b];
      ListedIff(b);
      broken := b in inFlight || b in pending;
      Push(flightHead, n, flight, pendingHead, waiting, all);
      OwnersPush(flight, n);
      flight, inFlight := flight + [n], inFlight + [b];
    }

    method PushPending(b: nat)
      requires Valid() && !broken && b in nodes
      modifies this`waiting, this`pending, this`broken, pendingHead, all
      ensures Valid() && pending == old(pending) + [b]
      ensures broken <==> b in inFlight || b in old(pending)
    {
      var n := nodes[b];
      ListedIff(b);
      broken := b in inFlight || b in pending;
      Swap(flightHead, flight, pendingHead, waiting, all);
      Push(pendingHead, n, waiting, flightHead, flight, all);
      OwnersPush(waiting, n);
      waiting, pending := waiting + [n], pending + [b];
      if !broken {
        Swap(pendingHead, waiting, flightHead, flight, all);
      }
    }

    /** pop_front of the in-flight list: the first buffer, which is on no list afterwards. */
    method PopFlight() returns (b: Option<nat>)
      requires Valid() && !broken
      modifies this`flight, this`inFlight, flightHead, all
      ensures Valid()
      ensures old(inFlight) == [] ==> b == None && inFlight == []
      ensures old(inFlight) != [] ==> b == Some(old(inFlight)[0]) && inFlight == old(inFlight)[1..]
      ensures b.Some? ==> b.value in nodes && b.value !in inFlight && b.value !in pending
    {
      var n := Pop(flightHead, flight, pendingHead, waiting, all);
      if n == null {
        return None;
      }
      OwnersPop(flight);
      flight, inFlight := flight[1..], inFlight[1..];
      ListedIff(n.owner);
      return Some(n.owner);
    }

    method PopPending() returns (b: Option<nat>)
      requires Valid() && !broken
      modifies this`waiting, this`pending, pendingHead, all
      ensures Valid()
      ensures old(pending) == [] ==> b == None && pending == []
      ensures old(pending) != [] ==> b == Some(old(pending)[0]) && pending == old(pending)[1..]
      ensures b.Some? ==> b.value in nodes && b.value !in inFlight && b.value !in pending
    {
      Swap(flightHead, flight, pendingHead, waiting, all);
      var n := Pop(pendingHead, waiting, flightHead, flight, all);
      if n == null {
        Swap(pendingHead, waiting, flightHead, flight, all);
        return None;
      }
      OwnersPop(waiting);
      waiting, pending := waiting[1..], pending[1..];
      Swap(pendingHead, waiting, flightHead, flight, all);
      ListedIff(n.owner);
      return Some(n.owner);
    }
  }
}
