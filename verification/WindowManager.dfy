/**
 The window manager in place: the array of windows that is rotated, compacted and scanned, and the
 handlers of the input events, each proved equal to its function on the desk.
 */
module WindowManager {
  import opened Options
  import opened Tiling
  import opened Desktop
  import Euclid

  class Manager {
    const wins: array<Win>
    var count: nat
    var focus: int
    var layout: Layout
    var x: int
    var y: int
    var outputs: nat
    var super: bool
    var shift: bool
    var quit: bool

    ghost predicate Valid()
      reads this
    {
      wins.Length == MAX_WINDOWS && count <= MAX_WINDOWS
    }

    ghost function Windows(): List
      requires Valid()
      reads this, wins
    {
      List(wins[..count], focus)
    }

    ghost function View(): Desk
      requires Valid()
      reads this, wins
    {
      Desk(Windows(), layout, x, y, outputs, super, shift, quit)
    }

    constructor (width: int, height: int)
      ensures Valid() && View() == Start(width, height) && fresh(wins)
    {
      wins := new Win[MAX_WINDOWS](i => NewWindow(0));
      count, focus, layout := 0, -1, Layout(width, height, 50);
      x, y, outputs, super, shift, quit := 0, 0, 0, false, false, false;
    }

    // ---- the list ----

    method FocusAt(i: nat)
      requires Valid()
      modifies this`focus, wins
      ensures Windows() == FocusIndex(old(Windows()), i)
    {
      if count == 0 {
        focus := -1;
        return;
      }
      var j := if i >= count then count - 1 else i;
      for k := 0 to count
        invariant forall m :: 0 <= m < k ==> wins[m] == old(wins[m]).(focused := false)
        invariant forall m :: k <= m < wins.Length ==> wins[m] == old(wins[m])
      {
        wins[k] := wins[k].(focused := false);
      }
      wins[j] := wins[j].(focused := true);
      focus := j;
      assert wins[..count] == WithFocus(old(wins[..count]), j);
    }

    /** Appends the new window and rotates it to the front; false when the list is full. */
    method AddWindow(surface: nat) returns (ok: bool)
      requires Valid()
      modifies this`count, this`focus, wins
      ensures Valid() && Windows() == Add(old(Windows()), surface) && ok == (old(count) < MAX_WINDOWS)
    {
      if count >= MAX_WINDOWS {
        return false;
      }
      ghost var before := wins[..count];
      wins[count] := NewWindow(surface);
      count := count + 1;
      RotateToFront(count - 1);
      assert wins[..count] == [NewWindow(surface)] + before;
      FocusAt(0);
      return true;
    }

    method RotateToFront(i: nat)
      requires Valid() && i < MAX_WINDOWS
      modifies wins
      ensures wins[..i + 1] == [old(wins[i])] + old(wins[..i])
      ensures forall m :: i < m < wins.Length ==> wins[m] == old(wins[m])
    {
      var moved := wins[i];
      var k := i;
      while k > 0
        invariant 0 <= k <= i
        invariant forall m :: 0 <= m <= k ==> wins[m] == old(wins[m])
        invariant forall m :: k < m <= i ==> wins[m] == old(wins[m - 1])
        invariant forall m :: i < m < wins.Length ==> wins[m] == old(wins[m])
      {
        wins[k] := wins[k - 1];
        k := k - 1;
      }
      wins[0] := moved;
    }

    /** Shifts the windows behind f down by one. */
    method Compact(f: nat)
      requires Valid() && f < count
      modifies wins
      ensures wins[..count - 1] == old(wins[..f]) + old(wins[f + 1..count])
    {
      for k := f to count - 1
        invariant forall m :: 0 <= m < f ==> wins[m] == old(wins[m])
        invariant forall m :: f <= m < k ==> wins[m] == old(wins[m + 1])
        invariant forall m :: k <= m < count ==> wins[m] == old(wins[m])
      {
        wins[k] := wins[k + 1];
      }
    }

    method RemoveFocusedWindow()
      requires Valid() && focus < count
      modifies this`count, this`focus, wins
      ensures Valid() && Windows() == RemoveFocused(old(Windows()))
    {
      if count == 0 || focus < 0 {
        return;
      }
      ghost var before := wins[..count];
      Compact(focus);
      assert wins[..count - 1] == before[..focus] + before[focus + 1..];
      count := count - 1;
      focus := if count > 0 then 0 else -1;
      if focus >= 0 {
        FocusAt(0);
      }
    }

    method CycleFocus(dir: int)
      requires Valid() && focus < count
      modifies this`focus, wins
      ensures Windows() == Cycle(old(Windows()), dir)
    {
      if count == 0 {
        return;
      }
      var next := (if focus < 0 then 0 else focus) + dir;
      ghost var target := next % count;
      while next < 0
        invariant Windows() == old(Windows()) && next % count == target
        decreases -next
      {
        Euclid.RemainderOfSum(next, count);
        next := next + count;
      }
      FocusAt(next % count);
    }

    method WindowAt(px: int, py: int) returns (r: Option<nat>)
      requires Valid()
      ensures r == AtPoint(wins[..count], px, py, 0)
    {
      for i := 0 to count
        invariant AtPoint(wins[..count], px, py, 0) == AtPoint(wins[..count], px, py, i)
      {
        var w := wins[i];
        if px >= w.x && px < w.x + w.w && py >= w.y && py < w.y + w.h {
          return Some(i);
        }
      }
      return None;
    }

    // ---- the layout ----

    /** One pass of the layout loop. */
    method ArrangeWindow(i: nat, master: int, each: nat)
      requires Valid() && i < count && layout.height > 0
      requires master == MasterWidth(layout) && each == StackHeight(layout, count)
      modifies wins
      ensures wins[i] == Arranged(layout, count, i, old(wins[i]))
      ensures forall m :: 0 <= m < wins.Length && m != i ==> wins[m] == old(wins[m])
    {
      var wx, wy, ww, wh := 0, 0, master, layout.height;
      if i > 0 {
        TopIsProduct(each, i - 1);
        wx, wy, ww := master, (i - 1) * each, layout.width - master;
        wh := if i == count - 1 then layout.height - wy else each;
      }
      var z := if wins[i].focused then count + 1 else if i == 0 then count else count - i;
      wins[i] := wins[i].(x := wx, y := wy, w := ww, h := wh, zpos := z);
    }

    method ShareOut() returns (master: int, each: nat)
      requires layout.height > 0
      ensures master == MasterWidth(layout) && each == StackHeight(layout, count)
    {
      master := layout.width * layout.ratio / 100;
      each := if count > 1 then layout.height / (count - 1) else 0;
    }

    /** The layout loop. */
    method ArrangeAll()
      requires Valid() && layout.height > 0
      modifies wins
      ensures forall m :: 0 <= m < count ==> wins[m] == Arranged(layout, count, m, old(wins[m]))
    {
      var master, each := ShareOut();
      for i := 0 to count
        invariant forall m :: 0 <= m < i ==> wins[m] == Arranged(layout, count, m, old(wins[m]))
        invariant forall m :: i <= m < wins.Length ==> wins[m] == old(wins[m])
      {
        ArrangeWindow(i, master, each);
      }
    }

    method Retile()
      requires Valid()
      modifies wins
      ensures Windows() == Apply(layout, old(Windows()))
    {
      if count == 0 || layout.width <= 0 || layout.height <= 0 {
        return;
      }
      ArrangeAll();
    }

    // ---- the handlers ----

    method ClientConnected(surface: Option<nat>)
      requires Valid()
      modifies this, wins
      ensures Valid() && View() == After(old(View()), Connect(surface))
    {
      if outputs == 0 {
        return;
      }
      if surface.Some? {
        var ok := AddWindow(surface.value);
      }
      Retile();
    }

    method ClientDisconnected()
      requires Valid() && focus < count
      modifies this, wins
      ensures Valid() && View() == After(old(View()), Disconnect)
    {
      RemoveFocusedWindow();
      Retile();
    }

    method KeyEvent(code: nat, press: bool)
      requires Valid() && focus < count
      modifies this, wins
      ensures Valid() && View() == After(old(View()), Key(code, press))
    {
      if !press || !super {
        return;
      }
      if shift {
        if code == KEY_Q {
          RemoveFocusedWindow();
          Retile();
        } else if code == KEY_ESC {
          quit := true;
        }
        return;
      }
      if code == KEY_J || code == KEY_K {
        CycleFocus(if code == KEY_J then 1 else -1);
        Retile();
      } else if code == KEY_H || code == KEY_L {
        AdjustMaster(if code == KEY_H then -5 else 5);
        Retile();
      } else if KEY_1 <= code <= KEY_9 {
        FocusAt(code - KEY_1);
        Retile();
      }
    }

    method AdjustMaster(delta: int)
      modifies this`layout
      ensures layout == Adjusted(old(layout), delta)
    {
      var v := layout.ratio + delta;
      layout := layout.(ratio := if v < 20 then 20 else if v > 80 then 80 else v);
    }

    method MovePointer(absolute: bool, ax: int, ay: int, dx: int, dy: int)
      modifies this`x, this`y
      ensures x == Clamped(if absolute then ax else old(x) + dx, layout.width)
      ensures y == Clamped(if absolute then ay else old(y) + dy, layout.height)
    {
      if absolute {
        x, y := ax, ay;
      } else {
        x, y := x + dx, y + dy;
      }
      if layout.width > 0 {
        x := if x < 0 then 0 else if x >= layout.width then layout.width - 1 else x;
      }
      if layout.height > 0 {
        y := if y < 0 then 0 else if y >= layout.height then layout.height - 1 else y;
      }
    }

    method FollowPointer()
      requires Valid()
      modifies this`focus, wins
      ensures Valid() && View() == Followed(old(View()))
    {
      var w := WindowAt(x, y);
      if w.Some? && !wins[w.value].focused {
        FocusAt(w.value);
        Retile();
      }
    }

    method PointerMotion(absolute: bool, ax: int, ay: int, dx: int, dy: int)
      requires Valid()
      modifies this, wins
      ensures Valid() && View() == After(old(View()), Motion(absolute, ax, ay, dx, dy))
    {
      MovePointer(absolute, ax, ay, dx, dy);
      FollowPointer();
    }
  }
}
