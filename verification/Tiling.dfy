/**
 tinyisz, the example window manager: the window list with its focus, the master/stack layout and point
 lookup, as functions of the list (tinyisz/window.c, tinyisz/layout.c).
 */
module Tiling {
  import opened Options
  import Euclid

  const MAX_WINDOWS := 32

  datatype Win = Win(surface: nat, x: int, y: int, w: int, h: int, zpos: int, focused: bool)

  /** `focus` is -1 when no window has the focus. */
  datatype List = List(wins: seq<Win>, focus: int)

  datatype Layout = Layout(width: int, height: int, ratio: int)

  const NO_WINDOWS := List([], -1)

  function NewWindow(surface: nat): Win {
    Win(surface, 0, 0, 0, 0, 0, false)
  }

  // ---- the list ----

  /** The same windows with the flag on window i only. */
  function WithFocus(wins: seq<Win>, i: int): (r: seq<Win>)
    ensures |r| == |wins| && forall k :: 0 <= k < |wins| ==> r[k] == wins[k].(focused := k == i)
  {
    seq(|wins|, k requires 0 <= k < |wins| => wins[k].(focused := k == i))
  }

  function FocusIndex(l: List, i: nat): List {
    if l.wins == [] then l.(focus := -1)
    else
      var j := if i >= |l.wins| then |l.wins| - 1 else i;
      List(WithFocus(l.wins, j), j)
  }

  /** A new window becomes the master; the list refuses a 33rd. */
  function Add(l: List, surface: nat): List {
    if |l.wins| >= MAX_WINDOWS then l else FocusIndex(List([NewWindow(surface)] + l.wins, l.focus), 0)
  }

  function RemoveFocused(l: List): List {
    if l.wins == [] || l.focus < 0 || l.focus >= |l.wins| then l
    else
      var rest := l.wins[..l.focus] + l.wins[l.focus + 1..];
      FocusIndex(List(rest, if rest == [] then -1 else 0), 0)
  }

  function Cycle(l: List, dir: int): List {
    if l.wins == [] then l
    else FocusIndex(l, ((if l.focus < 0 then 0 else l.focus) + dir) % |l.wins|)
  }

  /** Exactly one window has the flag, the one at the focus index, unless there are no windows. */
  ghost predicate FocusOk(l: List) {
    |l.wins| <= MAX_WINDOWS &&
    (if l.wins == [] then l.focus == -1 else 0 <= l.focus < |l.wins|) &&
    forall k :: 0 <= k < |l.wins| ==> (l.wins[k].focused <==> k == l.focus)
  }

  function Surfaces(wins: seq<Win>): (r: seq<nat>)
    ensures |r| == |wins| && forall k :: 0 <= k < |wins| ==> r[k] == wins[k].surface
  {
    seq(|wins|, k requires 0 <= k < |wins| => wins[k].surface)
  }

  datatype ListOp = AddWindow(surface: nat) | RemoveWindow | Focus(index: nat) | CycleBy(dir: int)

  function AfterOp(l: List, op: ListOp): List {
    match op
    case AddWindow(surface) => Add(l, surface)
    case RemoveWindow => RemoveFocused(l)
    case Focus(i) => FocusIndex(l, i)
    case CycleBy(dir) => Cycle(l, dir)
  }

  function AfterOps(l: List, ops: seq<ListOp>): List
    decreases |ops|
  {
    if ops == [] then l else AfterOps(AfterOp(l, ops[0]), ops[1..])
  }

  lemma FocusIsKept(l: List, op: ListOp)
    requires FocusOk(l)
    ensures FocusOk(AfterOp(l, op))
  {
  }

  /** In every run exactly one window has the focus flag, the one at the focus index, or there is no window. */
  lemma {:induction false} OneFocusInEveryRun(l: List, ops: seq<ListOp>)
    requires FocusOk(l)
    ensures FocusOk(AfterOps(l, ops))
    decreases |ops|
  {
    if ops != [] {
      FocusIsKept(l, ops[0]);
      OneFocusInEveryRun(AfterOp(l, ops[0]), ops[1..]);
    }
  }

  /** Add puts the new window first, focuses it and keeps the others' order. */
  lemma AddPutsFirst(l: List, surface: nat)
    requires |l.wins| < MAX_WINDOWS
    ensures Surfaces(Add(l, surface).wins) == [surface] + Surfaces(l.wins) && Add(l, surface).focus == 0
  {
  }

  /** Remove drops only the focused window, and the master takes the focus. */
  lemma RemoveDropsFocused(l: List)
    requires FocusOk(l) && l.wins != []
    ensures Surfaces(RemoveFocused(l).wins) == Surfaces(l.wins)[..l.focus] + Surfaces(l.wins)[l.focus + 1..]
    ensures RemoveFocused(l).focus == if |l.wins| == 1 then -1 else 0
  {
  }

  /** Cycling by d moves the focus to (index + d) mod count, and by -d back again. */
  lemma CycleUndoes(l: List, d: int)
    requires FocusOk(l) && l.wins != []
    ensures Cycle(l, d).focus == (l.focus + d) % |l.wins| && Cycle(Cycle(l, d), -d) == l
  {
    var n, once := |l.wins|, Cycle(l, d);
    Euclid.ShiftAndBack(l.focus, d, n);
    var twice := Cycle(once, -d);
    assert twice.focus == l.focus;
    assert twice.wins == l.wins;
  }

  // ---- the layout ----

  /** Height above the k-th stack window, for windows of the same height. */
  function Top(each: nat, k: nat): nat {
    if k == 0 then 0 else Top(each, k - 1) + each
  }

  lemma {:induction false} TopIsProduct(each: nat, k: nat)
    ensures Top(each, k) == k * each
  {
    if k > 0 {
      TopIsProduct(each, k - 1);
    }
  }

  lemma {:induction false} TopGrows(each: nat, j: nat, k: nat)
    requires j < k
    ensures Top(each, j) + each <= Top(each, k)
  {
    if j + 1 < k {
      TopGrows(each, j, k - 1);
    }
  }

  datatype Rect = Rect(x: int, y: int, w: int, h: int)

  predicate Contains(r: Rect, px: int, py: int) {
    r.x <= px < r.x + r.w && r.y <= py < r.y + r.h
  }

  function MasterWidth(ly: Layout): int {
    ly.width * ly.ratio / 100
  }

  /** Height of every stack window but the last. */
  function StackHeight(ly: Layout, count: nat): nat
    requires ly.height >= 0
  {
    if count > 1 then ly.height / (count - 1) else 0
  }

  /** The place of window i of count: the master left, the stack right, the last one down to the edge. */
  function Place(ly: Layout, count: nat, i: nat): Rect
    requires i < count && ly.height >= 0
  {
    var master, each := MasterWidth(ly), StackHeight(ly, count);
    if i == 0 then Rect(0, 0, master, ly.height)
    else
      var y := Top(each, i - 1);
      Rect(master, y, ly.width - master, if i == count - 1 then ly.height - y else each)
  }

  function Depth(count: nat, i: nat, focused: bool): int {
    if focused then count + 1 else if i == 0 then count else count - i
  }

  predicate Ready(ly: Layout) {
    ly.width > 0 && ly.height > 0
  }

  function Arranged(ly: Layout, count: nat, i: nat, w: Win): Win
    requires i < count && ly.height >= 0
  {
    var r := Place(ly, count, i);
    w.(x := r.x, y := r.y, w := r.w, h := r.h, zpos := Depth(count, i, w.focused))
  }

  function Apply(ly: Layout, l: List): List {
    if l.wins == [] || !Ready(ly) then l
    else l.(wins := seq(|l.wins|, i requires 0 <= i < |l.wins| => Arranged(ly, |l.wins|, i, l.wins[i])))
  }

  // ---- the tiling theorem ----

  lemma MasterFits(ly: Layout)
    requires Ready(ly) && 0 <= ly.ratio <= 100
    ensures 0 <= MasterWidth(ly) <= ly.width
  {
    Euclid.PercentFits(ly.width, ly.ratio);
  }

  lemma StackFits(ly: Layout, count: nat)
    requires Ready(ly) && count > 1
    ensures Top(StackHeight(ly, count), count - 1) <= ly.height
  {
    TopIsProduct(StackHeight(ly, count), count - 1);
    Euclid.SharesFit(ly.height, count - 1);
  }

  /** The stack window that holds row py. */
  lemma {:induction false} StackRow(ly: Layout, count: nat, py: int, k: nat) returns (i: nat)
    requires Ready(ly) && count > 1 && 1 <= k < count && Top(StackHeight(ly, count), k - 1) <= py < ly.height
    ensures k <= i < count && Place(ly, count, i).y <= py < Place(ly, count, i).y + Place(ly, count, i).h
    decreases count - k
  {
    if k == count - 1 || py < Top(StackHeight(ly, count), k) {
      i := k;
    } else {
      i := StackRow(ly, count, py, k + 1);
    }
  }

  lemma StackRowsApart(ly: Layout, count: nat, i: nat, j: nat, py: int)
    requires Ready(ly) && 1 <= i < j < count
    requires Place(ly, count, i).y <= py < Place(ly, count, i).y + Place(ly, count, i).h
    ensures py < Place(ly, count, j).y
  {
    TopGrows(StackHeight(ly, count), i - 1, j - 1);
  }

  /** With at least two windows every point of the output lies in exactly one of them. */
  lemma ExactTiling(ly: Layout, count: nat, px: int, py: int) returns (i: nat)
    requires Ready(ly) && 0 <= ly.ratio <= 100 && count >= 2
    requires 0 <= px < ly.width && 0 <= py < ly.height
    ensures i < count && Contains(Place(ly, count, i), px, py)
    ensures forall j :: 0 <= j < count && Contains(Place(ly, count, j), px, py) ==> j == i
  {
    MasterFits(ly);
    if px < MasterWidth(ly) {
      i := 0;
    } else {
      i := StackRow(ly, count, py, 1);
      forall j | 0 <= j < count && Contains(Place(ly, count, j), px, py) ensures j == i {
        if 1 <= j < i {
          StackRowsApart(ly, count, j, i, py);
        } else if i < j {
          StackRowsApart(ly, count, i, j, py);
        }
      }
    }
  }

  /** The output is covered exactly when there are at least two windows: a single one gets the master part only. */
  lemma OutputCoveredIff(ly: Layout, count: nat)
    requires Ready(ly) && 20 <= ly.ratio <= 80 && count >= 1
    ensures (forall px, py :: 0 <= px < ly.width && 0 <= py < ly.height ==> Covered(ly, count, px, py)) <==> count >= 2
  {
    if count >= 2 {
      forall px, py | 0 <= px < ly.width && 0 <= py < ly.height ensures Covered(ly, count, px, py) {
        var i := ExactTiling(ly, count, px, py);
      }
    } else {
      Euclid.PercentLeavesRest(ly.width, ly.ratio);
      assert !Covered(ly, count, ly.width - 1, 0);
    }
  }

  ghost predicate Covered(ly: Layout, count: nat, px: int, py: int)
    requires ly.height >= 0
  {
    exists i :: 0 <= i < count && Contains(Place(ly, count, i), px, py)
  }

  /** No window reaches beyond the output. */
  lemma TilesStayInside(ly: Layout, count: nat, i: nat)
    requires Ready(ly) && 0 <= ly.ratio <= 100 && i < count
    ensures var r := Place(ly, count, i);
            0 <= r.x && 0 <= r.w && r.x + r.w <= ly.width && 0 <= r.y && 0 <= r.h && r.y + r.h <= ly.height
  {
    MasterFits(ly);
    if i > 0 {
      StackFits(ly, count);
      TopGrows(StackHeight(ly, count), i - 1, count - 1);
    }
  }

  /** z-positions are pairwise different and the focused window is strictly on top. */
  lemma FocusedOnTop(ly: Layout, l: List, i: nat, j: nat)
    requires Ready(ly) && FocusOk(l) && i < j < |l.wins|
    ensures var t := Apply(ly, l);
            t.wins[i].zpos != t.wins[j].zpos &&
            (i == l.focus ==> t.wins[i].zpos > t.wins[j].zpos) && (j == l.focus ==> t.wins[j].zpos > t.wins[i].zpos)
  {
  }

  // ---- point lookup ----

  predicate Hit(w: Win, px: int, py: int) {
    w.x <= px < w.x + w.w && w.y <= py < w.y + w.h
  }

  /** The first window under a point, from window i on. */
  function AtPoint(wins: seq<Win>, px: int, py: int, i: nat): (r: Option<nat>)
    requires i <= |wins|
    ensures r.Some? ==> i <= r.value < |wins| && Hit(wins[r.value], px, py)
    ensures r.None? ==> forall k :: i <= k < |wins| ==> !Hit(wins[k], px, py)
    decreases |wins| - i
  {
    if i == |wins| then None else if Hit(wins[i], px, py) then Some(i) else AtPoint(wins, px, py, i + 1)
  }

  /** Lookup in a tiled list returns the one window whose tile holds the point. */
  lemma LookupFindsTile(ly: Layout, l: List, px: int, py: int)
    requires Ready(ly) && 0 <= ly.ratio <= 100 && |l.wins| >= 2
    requires 0 <= px < ly.width && 0 <= py < ly.height
    ensures var r := AtPoint(Apply(ly, l).wins, px, py, 0);
            r.Some? && forall j :: 0 <= j < |l.wins| ==>
              (Contains(Place(ly, |l.wins|, j), px, py) <==> j == r.value)
  {
    var i := ExactTiling(ly, |l.wins|, px, py);
    var t := Apply(ly, l);
    assert forall j :: 0 <= j < |l.wins| ==> (Hit(t.wins[j], px, py) <==> Contains(Place(ly, |l.wins|, j), px, py));
  }
}
