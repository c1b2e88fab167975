/**
 DestroyWindow on the per-client window table (x11bridge/x11_client.c). The comments promise that every
 window whose parent chain leads to the destroyed one goes too; the loop as written removes the direct
 children only. Both are here, with the exact condition under which they agree. Nothing is assumed
 about the table: parents are whatever the client sent, so chains may dangle or run in circles.
 */
module WindowTree {
  import opened Options

  type Xid = nat

  datatype Window = Window(inUse: bool, xid: Xid, parent: Xid)

  type Table = seq<Window>

  // ---- lookup ----

  /** The first slot in use with this id, from slot i on. */
  function Find(t: Table, xid: Xid, i: nat): (r: Option<nat>)
    requires i <= |t|
    ensures r.Some? ==> i <= r.value < |t| && t[r.value].inUse && t[r.value].xid == xid
    ensures r.None? ==> forall k :: i <= k < |t| && t[k].inUse ==> t[k].xid != xid
    decreases |t| - i
  {
    if i == |t| then None
    else if t[i].inUse && t[i].xid == xid then Some(i)
    else Find(t, xid, i + 1)
  }

  // ---- the two meanings ----

  /** Slot i is in use and its parent chain reaches root in at most n links. */
  ghost predicate Reaches(t: Table, i: nat, root: Xid, n: nat)
    requires i < |t|
    decreases n
  {
    n > 0 && t[i].inUse &&
    (t[i].parent == root ||
     exists j :: 0 <= j < |t| && t[j].xid == t[i].parent && Reaches(t, j, root, n - 1))
  }

  ghost predicate Descends(t: Table, i: nat, root: Xid)
    requires i < |t|
  {
    exists n: nat :: Reaches(t, i, root, n)
  }

  /** u is t with exactly the given slots taken out of use. */
  ghost predicate Without(t: Table, u: Table, gone: set<nat>) {
    |u| == |t| && forall i :: 0 <= i < |t| ==> u[i] == if i in gone then t[i].(inUse := false) else t[i]
  }

  /** The window in slot f and its direct children. */
  ghost function Children(t: Table, f: nat, root: Xid): set<nat> {
    set i | 0 <= i < |t| && (i == f || (t[i].inUse && t[i].parent == root))
  }

  /** The window in slot f and everything whose parent chain reaches it. */
  ghost function Subtree(t: Table, f: nat, root: Xid): set<nat> {
    set i | 0 <= i < |t| && (i == f || Descends(t, i, root))
  }

  /** Nobody but the window itself or its children has one of its children as parent. */
  predicate NoGrandchildren(t: Table, f: nat, root: Xid) {
    forall i, j :: 0 <= i < |t| && 0 <= j < |t| && t[i].inUse && t[j].inUse &&
                   t[j].parent == root && t[i].parent == t[j].xid ==>
                   i == f || t[i].parent == root
  }

  lemma {:induction false} ChainsAreShort(t: Table, f: nat, root: Xid, i: nat, n: nat)
    requires f < |t| && t[f].xid == root && NoGrandchildren(t, f, root) && i < |t| && Reaches(t, i, root, n)
    ensures i == f || t[i].parent == root
    decreases n
  {
    if t[i].parent != root {
      var j :| 0 <= j < |t| && t[j].xid == t[i].parent && Reaches(t, j, root, n - 1);
      ChainsAreShort(t, f, root, j, n - 1);
    }
  }

  /** As written equals as meant exactly when the destroyed window has no grandchildren. */
  lemma ChildrenAreSubtreeIff(t: Table, f: nat, root: Xid)
    requires f < |t| && t[f].inUse && t[f].xid == root
    ensures Children(t, f, root) == Subtree(t, f, root) <==> NoGrandchildren(t, f, root)
  {
    var children, subtree := Children(t, f, root), Subtree(t, f, root);
    forall i | i in children ensures i in subtree {
      assert i != f ==> Reaches(t, i, root, 1);
    }
    if NoGrandchildren(t, f, root) {
      forall i | i in subtree ensures i in children {
        if i != f {
          var n: nat :| Reaches(t, i, root, n);
          ChainsAreShort(t, f, root, i, n);
        }
      }
    } else {
      var i, j :| 0 <= i < |t| && 0 <= j < |t| && t[i].inUse && t[j].inUse &&
                  t[j].parent == root && t[i].parent == t[j].xid && i != f && t[i].parent != root;
      assert Reaches(t, j, root, 1);
      assert Reaches(t, i, root, 2);
      assert i in subtree && i !in children;
    }
  }

  const CHAIN: Table := [Window(true, 10, 1), Window(true, 11, 10), Window(true, 12, 11)]

  /** A window with a child and a grandchild: the grandchild survives its destruction. */
  lemma GrandchildSurvives()
    ensures Children(CHAIN, 0, 10) == {0, 1} && Subtree(CHAIN, 0, 10) == {0, 1, 2}
  {
    assert Reaches(CHAIN, 1, 10, 1);
    assert Reaches(CHAIN, 2, 10, 2);
  }

  // ---- the code ----

  method FindWindow(table: array<Window>, xid: Xid) returns (r: Option<nat>)
    ensures r == Find(table[..], xid, 0)
  {
    for i := 0 to table.Length
      invariant Find(table[..], xid, 0) == Find(table[..], xid, i)
    {
      if table[i].inUse && table[i].xid == xid {
        return Some(i);
      }
    }
    return None;
  }

  /** One pass over the table as written. */
  method DropChildren(table: array<Window>, root: Xid) returns (changed: bool)
    modifies table
    ensures Without(old(table[..]), table[..],
                    set i | 0 <= i < table.Length && old(table[..])[i].inUse && old(table[..])[i].parent == root)
    ensures changed <==>
            exists i :: 0 <= i < table.Length && old(table[..])[i].inUse && old(table[..])[i].parent == root
  {
    ghost var t := table[..];
    changed := false;
    for k := 0 to table.Length
      invariant forall i :: 0 <= i < table.Length ==>
                  table[i] == if i < k && t[i].inUse && t[i].parent == root then t[i].(inUse := false) else t[i]
      invariant changed <==> exists i :: 0 <= i < k && t[i].inUse && t[i].parent == root
    {
      if table[k].inUse && table[k].parent == root {
        table[k] := table[k].(inUse := false);
        changed := true;
      }
    }
  }

  /** DestroyWindow as written; false is the BadWindow error, which changes nothing. */
  method DestroyAsWritten(table: array<Window>, root: Xid) returns (found: bool)
    modifies table
    ensures found <==> Find(old(table[..]), root, 0).Some?
    ensures !found ==> table[..] == old(table[..])
    ensures found ==>
              var f := Find(old(table[..]), root, 0).value;
              Without(old(table[..]), table[..], Children(old(table[..]), f, root)) &&
              (Without(old(table[..]), table[..], Subtree(old(table[..]), f, root)) <==>
               NoGrandchildren(old(table[..]), f, root))
  {
    ghost var t := table[..];
    var f := FindWindow(table, root);
    if f.None? {
      return false;
    }
    table[f.value] := table[f.value].(inUse := false);
    var changed := true;
    ghost var first := true;
    while changed
      invariant first ==> changed && table[..] == t[f.value := t[f.value].(inUse := false)]
      invariant !first ==> Without(t, table[..], Children(t, f.value, root))
      decreases changed, first
    {
      changed := DropChildren(table, root);
      first := false;
    }
    ChildrenAreSubtreeIff(t, f.value, root);
    SameWithout(t, table[..], Children(t, f.value, root), Subtree(t, f.value, root));
    return true;
  }

  lemma SameWithout(t: Table, u: Table, a: set<nat>, b: set<nat>)
    requires Without(t, u, a)
    requires forall i :: i in a || i in b ==> 0 <= i < |t| && t[i].inUse
    ensures Without(t, u, b) <==> a == b
  {
  }

  // ---- the teardown its comments describe ----

  /** The windows in use among the first n slots. */
  function Live(t: Table, n: nat): nat
    requires n <= |t|
  {
    if n == 0 then 0 else Live(t, n - 1) + (if t[n - 1].inUse then 1 else 0)
  }

  lemma {:induction false} LiveAfterDrop(t: Table, k: nat, n: nat)
    requires k < |t| && n <= |t| && t[k].inUse
    ensures Live(t[k := t[k].(inUse := false)], n) == if k < n then Live(t, n) - 1 else Live(t, n)
  {
    if n > 0 {
      LiveAfterDrop(t, k, n - 1);
    }
  }

  /** u is t after part of the teardown: only root's subtree is gone, and `dead` are the ids of what is gone. */
  ghost predicate Teardown(t: Table, u: Table, f: nat, root: Xid, dead: set<Xid>) {
    |u| == |t| && root in dead &&
    (forall i :: 0 <= i < |t| ==> u[i] == t[i] || u[i] == t[i].(inUse := false)) &&
    (forall i :: 0 <= i < |t| && u[i] != t[i] ==> i in Subtree(t, f, root) && t[i].xid in dead) &&
    (forall x :: x in dead ==> x == root || exists i :: 0 <= i < |t| && t[i].xid == x && Descends(t, i, root))
  }

  lemma ChildOfDeadDescends(t: Table, u: Table, f: nat, root: Xid, dead: set<Xid>, k: nat)
    requires Teardown(t, u, f, root, dead) && k < |t| && t[k].inUse && t[k].parent in dead
    ensures Descends(t, k, root)
  {
    if t[k].parent == root {
      assert Reaches(t, k, root, 1);
    } else {
      var i :| 0 <= i < |t| && t[i].xid == t[k].parent && Descends(t, i, root);
      var n: nat :| Reaches(t, i, root, n);
      assert Reaches(t, k, root, n + 1);
    }
  }

  lemma DropOne(t: Table, u: Table, f: nat, root: Xid, dead: set<Xid>, k: nat)
    requires Teardown(t, u, f, root, dead) && k < |u| && u[k].inUse && u[k].parent in dead
    ensures Teardown(t, u[k := u[k].(inUse := false)], f, root, dead + {u[k].xid})
    ensures Live(u[k := u[k].(inUse := false)], |u|) < Live(u, |u|)
  {
    ChildOfDeadDescends(t, u, f, root, dead, k);
    LiveAfterDrop(u, k, |u|);
  }

  /** Once no window in use has a dead parent, the whole subtree is gone. */
  lemma {:induction false} NothingLeft(t: Table, u: Table, f: nat, root: Xid, dead: set<Xid>, i: nat, n: nat)
    requires Teardown(t, u, f, root, dead) && i < |t| && Reaches(t, i, root, n)
    requires forall k :: 0 <= k < |u| && u[k].inUse ==> u[k].parent !in dead
    ensures !u[i].inUse
    decreases n
  {
    if t[i].parent != root {
      var j :| 0 <= j < |t| && t[j].xid == t[i].parent && Reaches(t, j, root, n - 1);
      NothingLeft(t, u, f, root, dead, j, n - 1);
      assert u[j] != t[j];
    }
  }

  /** DestroyWindow as meant: a fixpoint that removes exactly the window and its descendants. */
  method DestroyAsMeant(table: array<Window>, root: Xid) returns (found: bool)
    modifies table
    ensures found <==> Find(old(table[..]), root, 0).Some?
    ensures !found ==> table[..] == old(table[..])
    ensures found ==> Without(old(table[..]), table[..],
                              Subtree(old(table[..]), Find(old(table[..]), root, 0).value, root))
  {
    ghost var t := table[..];
    var slot := FindWindow(table, root);
    if slot.None? {
      return false;
    }
    var f := slot.value;
    table[f] := table[f].(inUse := false);
    var dead := {root};
    var changed := true;
    while changed
      invariant Teardown(t, table[..], f, root, dead) && !table[f].inUse
      invariant !changed ==> forall k :: 0 <= k < table.Length && table[k].inUse ==> table[k].parent !in dead
      decreases Live(table[..], table.Length), changed
    {
      changed, dead := DropOrphans(table, f, root, dead, t);
    }
    forall i | i in Subtree(t, f, root) && i != f ensures !table[i].inUse {
      var n: nat :| Reaches(t, i, root, n);
      NothingLeft(t, table[..], f, root, dead, i, n);
    }
    return true;
  }

  /** One pass: every window in use whose parent is dead goes. */
  method DropOrphans(table: array<Window>, f: nat, root: Xid, dead0: set<Xid>, ghost t: Table)
    returns (changed: bool, dead: set<Xid>)
    requires Teardown(t, table[..], f, root, dead0) && f < table.Length && !table[f].inUse
    modifies table
    ensures Teardown(t, table[..], f, root, dead) && !table[f].inUse
    ensures if changed then Live(table[..], table.Length) < Live(old(table[..]), table.Length)
            else table[..] == old(table[..])
    ensures !changed ==> forall k :: 0 <= k < table.Length && table[k].inUse ==> table[k].parent !in dead
  {
    changed, dead := false, dead0;
    for k := 0 to table.Length
      invariant Teardown(t, table[..], f, root, dead) && !table[f].inUse
      invariant if changed then Live(table[..], table.Length) < Live(old(table[..]), table.Length)
                else dead == dead0 && table[..] == old(table[..])
      invariant !changed ==> forall i :: 0 <= i < k && table[i].inUse ==> table[i].parent !in dead
    {
      if table[k].inUse && table[k].parent in dead {
        DropOne(t, table[..], f, root, dead, k);
        ghost var u := table[..];
        dead := dead + {table[k].xid};
        table[k] := table[k].(inUse := false);
        assert table[..] == u[k := u[k].(inUse := false)];
        changed := true;
      }
    }
  }
}
