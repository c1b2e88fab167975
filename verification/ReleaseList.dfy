/**
 The intrusive doubly-linked list with a sentinel head that both release lists use
 (src/util/isz_list.h). A buffer has one node for two lists, so what matters is exactly when a
 push, pop or remove turns well-formed rings into well-formed rings.
 */
module ReleaseList {

  /** A list node; `owner` names the buffer that it is embedded in. */
  class Node {
    const owner: nat
    var prev: Node
    var next: Node

    /** Self-linked: on no list. Also the state of an empty list's head. */
    constructor (owner: nat)
      ensures this.owner == owner && prev == this && next == this
    {
      this.owner := owner;
      prev, next := this, this;
    }
  }

  /** The links of the ring head, s[0], ..., s[|s| - 1], head in both directions, without repetition. */
  ghost predicate IsRing(head: Node, s: seq<Node>)
    reads head, s
  {
    head !in s &&
    (forall i, j :: 0 <= i < j < |s| ==> s[i] != s[j]) &&
    head.next == At(head, s, 0) && head.prev == At(head, s, |s| - 1) &&
    (forall i :: 0 <= i < |s| ==> Fits(head, s, i))
  }

  /** The node at i points at both of its neighbours. */
  ghost predicate Fits(head: Node, s: seq<Node>, i: int)
    requires 0 <= i < |s|
    reads s[i]
  {
    s[i].next == At(head, s, i + 1) && s[i].prev == At(head, s, i - 1)
  }

  /** The node at position i of the ring; the head stands before the first and after the last. */
  ghost function At(head: Node, s: seq<Node>, i: int): Node {
    if 0 <= i < |s| then s[i] else head
  }

  /** Two lists share no node. */
  ghost predicate Apart(head: Node, s: seq<Node>, other: Node, t: seq<Node>) {
    head != other && head !in t && other !in s && (forall i :: 0 <= i < |s| ==> s[i] !in t)
  }

  method Insert(n: Node, before: Node, after: Node)
    modifies n, before, after
    ensures before != n ==> before.next == n && (before != after ==> before.prev == old(before.prev))
    ensures after != n ==> after.prev == n && (before != after ==> after.next == old(after.next))
    ensures n.prev == before && n.next == after
  {
    before.next := n;
    after.prev := n;
    n.prev := before;
    n.next := after;
  }

  /**
   push_back. A free node extends the ring and leaves the other list alone. A node of the other list
   destroys that list, and a node of this list destroys this one: afterwards the head heads no ring.
   */
  method PushBack(head: Node, n: Node, ghost s: seq<Node>, ghost other: Node, ghost t: seq<Node>)
    requires IsRing(head, s) && IsRing(other, t) && Apart(head, s, other, t)
    requires n != head && n != other
    modifies head, head.prev, n
    ensures n !in s && n !in t ==> IsRing(head, s + [n]) && IsRing(other, t)
    ensures n in t ==> forall u: seq<Node> :: !IsRing(other, u)
    ensures n in s ==> forall u: seq<Node> :: !IsRing(head, u)
  {
    Insert(n, head.prev, head);
    if n in t {
      ghost var k :| 0 <= k < |t| && t[k] == n;
      forall i | 0 <= i < k ensures t[i].next == t[i + 1] {
        assert old(Fits(other, t, i)) && t[i] != n;
      }
      assert old(Fits(other, t, k));
      NoRing(other, t, k);
    } else if n in s {
      ghost var k :| 0 <= k < |s| && s[k] == n;
      forall i | 0 <= i < k ensures s[i].next == s[i + 1] {
        assert old(Fits(head, s, i)) && s[i] != n;
      }
      assert old(Fits(head, s, k));
      NoRing(head, s, k);
    } else {
      forall i | 0 <= i < |s| ensures s[i].next == At(n, s, i + 1) && s[i].prev == At(head, s, i - 1) {
        assert old(Fits(head, s, i));
      }
      ExtendRing(head, s, n);
    }
  }

  lemma NoRing(head: Node, s: seq<Node>, k: nat)
    requires k < |s| && head !in s
    requires head.next == s[0] && forall i :: 0 <= i < k ==> s[i].next == s[i + 1]
    requires s[k].prev != (if k == 0 then head else s[k - 1])
    ensures forall u: seq<Node> :: !IsRing(head, u)
  {
    forall u: seq<Node> ensures !IsRing(head, u) {
      NoRingPast(head, s, k, u);
    }
  }

  lemma ExtendRing(head: Node, s: seq<Node>, n: Node)
    requires n != head && n !in s && head !in s
    requires forall i, j :: 0 <= i < j < |s| ==> s[i] != s[j]
    requires head.next == At(n, s, 0) && head.prev == n && n.prev == At(head, s, |s| - 1) && n.next == head
    requires forall i :: 0 <= i < |s| ==> s[i].next == At(n, s, i + 1) && s[i].prev == At(head, s, i - 1)
    ensures IsRing(head, s + [n])
  {
  }

  /** If the forward links of s up to s[k] are intact but s[k] does not point back, no ring starts at head. */
  lemma NoRingPast(head: Node, s: seq<Node>, k: nat, u: seq<Node>)
    requires k < |s| && head !in s
    requires head.next == s[0] && forall i :: 0 <= i < k ==> s[i].next == s[i + 1]
    requires s[k].prev != (if k == 0 then head else s[k - 1])
    ensures !IsRing(head, u)
  {
    if IsRing(head, u) {
      FollowRing(head, s, k, u);
      assert Fits(head, u, k);
      if k > 0 {
        FollowRing(head, s, k - 1, u);
      }
    }
  }

  lemma {:induction false} FollowRing(head: Node, s: seq<Node>, k: nat, u: seq<Node>)
    requires k < |s| && head !in s && IsRing(head, u)
    requires head.next == s[0] && forall i :: 0 <= i < k ==> s[i].next == s[i + 1]
    ensures k < |u| && s[k] == u[k]
  {
    if k > 0 {
      FollowRing(head, s, k - 1, u);
      assert Fits(head, u, k - 1);
      assert s[k - 1].next == s[k] && s[k] in s;
    }
  }

  /** q without its element at k; k == |q| stands for no element. */
  ghost function Cut(q: seq<Node>, k: nat): seq<Node>
    requires k <= |q|
  {
    if k == |q| then q else q[..k] + q[k + 1..]
  }

  /** remove: the ring closes around the node at position k; a self-linked node stays as it is. */
  method Remove(n: Node, ghost head: Node, ghost s: seq<Node>, ghost k: nat)
    requires IsRing(head, s) && n != head && k <= |s|
    requires if k < |s| then s[k] == n else n !in s && n.prev == n && n.next == n
    modifies n, n.prev, n.next
    ensures n.prev == n && n.next == n && IsRing(head, Cut(s, k))
  {
    ghost var before, after := n.prev, n.next;
    assert k < |s| ==> Fits(head, s, k);
    n.prev.next := n.next;
    n.next.prev := n.prev;
    n.prev := n;
    n.next := n;
    if k < |s| {
      assert before == At(head, s, k - 1) && after == At(head, s, k + 1);
      forall i | 0 <= i < |s| && i != k ensures Skips(head, s, k, i) {
        assert old(Fits(head, s, i)) && s[i] != n && s[i] != head;
        assert s[i] == before <==> i == k - 1;
        assert s[i] == after <==> i == k + 1;
      }
      CloseRing(head, s, k);
    }
  }

  lemma CutAt(head: Node, s: seq<Node>, k: nat, i: int)
    requires k < |s|
    ensures At(head, Cut(s, k), i) == At(head, s, if i < k then i else i + 1)
  {
  }

  /** Every other node points past s[k]. */
  ghost predicate Skips(head: Node, s: seq<Node>, k: nat, i: int)
    requires 0 <= i < |s|
    reads s[i]
  {
    s[i].next == At(head, s, if i + 1 == k then k + 1 else i + 1) &&
    s[i].prev == At(head, s, if i - 1 == k then k - 1 else i - 1)
  }

  /** Without s[k], whose neighbours point at each other, s is a ring again. */
  lemma CloseRing(head: Node, s: seq<Node>, k: nat)
    requires k < |s| && head !in s && forall i, j :: 0 <= i < j < |s| ==> s[i] != s[j]
    requires head.next == At(head, s, if k == 0 then 1 else 0)
    requires head.prev == At(head, s, if k == |s| - 1 then k - 1 else |s| - 1)
    requires forall i :: 0 <= i < |s| && i != k ==> Skips(head, s, k, i)
    ensures IsRing(head, Cut(s, k))
  {
    var r := Cut(s, k);
    CutAt(head, s, k, 0);
    CutAt(head, s, k, |r| - 1);
    forall i | 0 <= i < |r|
      ensures r[i].next == At(head, r, i + 1) && r[i].prev == At(head, r, i - 1)
    {
      CutAt(head, s, k, i - 1);
      CutAt(head, s, k, i);
      CutAt(head, s, k, i + 1);
      assert Skips(head, s, k, if i < k then i else i + 1);
    }
    CutIsDistinct(s, k);
  }

  lemma CutIsDistinct(s: seq<Node>, k: nat)
    requires k < |s| && forall i, j :: 0 <= i < j < |s| ==> s[i] != s[j]
    ensures forall i, j :: 0 <= i < j < |Cut(s, k)| ==> Cut(s, k)[i] != Cut(s, k)[j]
  {
    var r := Cut(s, k);
    forall i, j | 0 <= i < j < |r| ensures r[i] != r[j] {
      assert r[i] == s[if i < k then i else i + 1] && r[j] == s[if j < k then j else j + 1];
    }
  }

  /** pop_front: the first node leaves self-linked, or nothing happens on an empty list. */
  method PopFront(head: Node, ghost s: seq<Node>) returns (n: Node?)
    requires IsRing(head, s)
    modifies head, s
    ensures s == [] ==> n == null && IsRing(head, s)
    ensures s != [] ==> n == s[0] && n.prev == n && n.next == n && IsRing(head, s[1..])
  {
    if head.next == head {
      return null;
    }
    n := head.next;
    assert Fits(head, s, 0);
    Remove(n, head, s, 0);
    assert Cut(s, 0) == s[1..];
  }
}
