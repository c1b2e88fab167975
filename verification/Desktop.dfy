/**
 The window manager's context: every input event changes the list or the layout and retiles
 (tinyisz/input.c). The theorem is about whole runs: after any pointer motion over at least two
 windows the focus is on the tile under the pointer.
 */
module Desktop {
  import opened Options
  import opened Tiling

  datatype Desk = Desk(list: List, layout: Layout, x: int, y: int, outputs: nat, super: bool, shift: bool, quit: bool)

  /** Coordinates after truncation to whole pixels; `absolute` says the device supplied a position. */
  datatype Event =
    | Connect(surface: Option<nat>)
    | Disconnect
    | AddOutput
    | Modifiers(super: bool, shift: bool)
    | Key(code: nat, press: bool)
    | Motion(absolute: bool, ax: int, ay: int, dx: int, dy: int)

  const KEY_ESC := 1
  const KEY_1 := 2
  const KEY_9 := 10
  const KEY_Q := 16
  const KEY_H := 35
  const KEY_J := 36
  const KEY_K := 37
  const KEY_L := 38

  const MAX_OUTPUTS := 8

  function Start(width: int, height: int): Desk {
    Desk(NO_WINDOWS, Layout(width, height, 50), 0, 0, 0, false, false, false)
  }

  function Retiled(d: Desk): Desk {
    d.(list := Apply(d.layout, d.list))
  }

  /** The master's share, clamped to 20..80 percent. */
  function Adjusted(ly: Layout, delta: int): Layout {
    var v := ly.ratio + delta;
    ly.(ratio := if v < 20 then 20 else if v > 80 then 80 else v)
  }

  function Clamped(v: int, size: int): int {
    if size <= 0 then v else if v < 0 then 0 else if v >= size then size - 1 else v
  }

  function OnKey(d: Desk, code: nat): Desk {
    if !d.super then d
    else if d.shift then
      if code == KEY_Q then Retiled(d.(list := RemoveFocused(d.list)))
      else if code == KEY_ESC then d.(quit := true)
      else d
    else if code == KEY_J then Retiled(d.(list := Cycle(d.list, 1)))
    else if code == KEY_K then Retiled(d.(list := Cycle(d.list, -1)))
    else if code == KEY_H then Retiled(d.(layout := Adjusted(d.layout, -5)))
    else if code == KEY_L then Retiled(d.(layout := Adjusted(d.layout, 5)))
    else if KEY_1 <= code <= KEY_9 then Retiled(d.(list := FocusIndex(d.list, code - KEY_1)))
    else d
  }

  function Moved(d: Desk, e: Event): Desk
    requires e.Motion?
  {
    var x := if e.absolute then e.ax else d.x + e.dx;
    var y := if e.absolute then e.ay else d.y + e.dy;
    d.(x := Clamped(x, d.layout.width), y := Clamped(y, d.layout.height))
  }

  /** Focus follows the mouse. */
  function Followed(d: Desk): Desk {
    var w := AtPoint(d.list.wins, d.x, d.y, 0);
    if w.Some? && !d.list.wins[w.value].focused then Retiled(d.(list := FocusIndex(d.list, w.value))) else d
  }

  function After(d: Desk, e: Event): Desk {
    match e
    case Connect(surface) =>
      if d.outputs == 0 then d
      else Retiled(if surface.None? then d else d.(list := Add(d.list, surface.value)))
    case Disconnect => Retiled(d.(list := RemoveFocused(d.list)))
    case AddOutput =>
      if d.outputs >= MAX_OUTPUTS then d
      else if d.outputs == 0 then Retiled(d.(outputs := 1))
      else d.(outputs := d.outputs + 1)
    case Modifiers(super, shift) => d.(super := super, shift := shift)
    case Key(code, press) => if press then OnKey(d, code) else d
    case Motion(_, _, _, _, _) => Followed(Moved(d, e))
  }

  function Run(d: Desk, events: seq<Event>): Desk
    decreases |events|
  {
    if events == [] then d else Run(After(d, events[0]), events[1..])
  }

  // ---- the invariant ----

  /** One focused window, a sane ratio, and geometry that is up to date. */
  ghost predicate Tidy(d: Desk) {
    FocusOk(d.list) && 20 <= d.layout.ratio <= 80 && Apply(d.layout, d.list) == d.list
  }

  lemma RetilingTidies(d: Desk)
    requires FocusOk(d.list) && 20 <= d.layout.ratio <= 80
    ensures Tidy(Retiled(d)) && Retiled(d).list.focus == d.list.focus && |Retiled(d).list.wins| == |d.list.wins|
  {
  }

  lemma ListOpThenRetile(d: Desk, op: ListOp)
    requires Tidy(d)
    ensures Tidy(Retiled(d.(list := AfterOp(d.list, op))))
  {
    FocusIsKept(d.list, op);
    RetilingTidies(d.(list := AfterOp(d.list, op)));
  }

  lemma KeyKeepsTidy(d: Desk, code: nat)
    requires Tidy(d)
    ensures Tidy(OnKey(d, code))
  {
    if d.super && d.shift {
      ListOpThenRetile(d, RemoveWindow);
    } else if code == KEY_J {
      ListOpThenRetile(d, CycleBy(1));
    } else if code == KEY_K {
      ListOpThenRetile(d, CycleBy(-1));
    } else if code == KEY_H {
      RetilingTidies(d.(layout := Adjusted(d.layout, -5)));
    } else if code == KEY_L {
      RetilingTidies(d.(layout := Adjusted(d.layout, 5)));
    } else if KEY_1 <= code <= KEY_9 {
      ListOpThenRetile(d, Focus(code - KEY_1));
    }
  }

  lemma FollowingKeepsTidy(d: Desk)
    requires Tidy(d)
    ensures Tidy(Followed(d))
  {
    var w := AtPoint(d.list.wins, d.x, d.y, 0);
    if w.Some? {
      ListOpThenRetile(d, Focus(w.value));
    }
  }

  lemma EventKeepsTidy(d: Desk, e: Event)
    requires Tidy(d)
    ensures Tidy(After(d, e))
    ensures After(d, e).layout.width == d.layout.width && After(d, e).layout.height == d.layout.height
  {
    match e
    case Connect(surface) =>
      if surface.Some? {
        ListOpThenRetile(d, AddWindow(surface.value));
      }
    case Disconnect =>
      ListOpThenRetile(d, RemoveWindow);
    case AddOutput =>
    case Modifiers(_, _) =>
    case Key(code, press) => KeyKeepsTidy(d, code);
    case Motion(_, _, _, _, _) => FollowingKeepsTidy(Moved(d, e));
  }

  /** In every run the geometry on screen is the layout of the current list, with one focused window. */
  lemma {:induction false} EveryDeskIsTidy(d: Desk, events: seq<Event>)
    requires Tidy(d)
    ensures Tidy(Run(d, events))
    ensures Run(d, events).layout.width == d.layout.width && Run(d, events).layout.height == d.layout.height
    decreases |events|
  {
    if events != [] {
      EventKeepsTidy(d, events[0]);
      EveryDeskIsTidy(After(d, events[0]), events[1..]);
    }
  }

  lemma FollowingFocusesTile(d: Desk)
    requires Tidy(d) && Ready(d.layout) && |d.list.wins| >= 2
    requires 0 <= d.x < d.layout.width && 0 <= d.y < d.layout.height
    ensures var t := Followed(d);
            0 <= t.list.focus < |t.list.wins| && |t.list.wins| == |d.list.wins| &&
            t.layout == d.layout && t.x == d.x && t.y == d.y &&
            Contains(Place(t.layout, |t.list.wins|, t.list.focus), t.x, t.y)
  {
    LookupFindsTile(d.layout, d.list, d.x, d.y);
    var w := AtPoint(d.list.wins, d.x, d.y, 0);
    FocusIsKept(d.list, Focus(w.value));
    RetilingTidies(d.(list := FocusIndex(d.list, w.value)));
  }

  /**
   After any run from start-up that ends with a pointer motion, if there are at least two windows, the
   focused window is the one whose tile holds the pointer, and it is above every other window.
   */
  lemma FocusFollowsPointer(width: int, height: int, events: seq<Event>, e: Event)
    requires width > 0 && height > 0 && e.Motion?
    ensures var d := After(Run(Start(width, height), events), e);
            |d.list.wins| >= 2 ==>
              0 <= d.list.focus < |d.list.wins| && d.layout.height == height &&
              Contains(Place(d.layout, |d.list.wins|, d.list.focus), d.x, d.y) &&
              forall k :: 0 <= k < |d.list.wins| && k != d.list.focus ==>
                d.list.wins[k].zpos < d.list.wins[d.list.focus].zpos
  {
    EveryDeskIsTidy(Start(width, height), events);
    var before := Run(Start(width, height), events);
    EventKeepsTidy(before, e);
    var d := After(before, e);
    if |d.list.wins| >= 2 {
      FollowingFocusesTile(Moved(before, e));
      forall k | 0 <= k < |d.list.wins| && k != d.list.focus
        ensures d.list.wins[k].zpos < d.list.wins[d.list.focus].zpos
      {
        if k < d.list.focus {
          FocusedOnTop(d.layout, d.list, k, d.list.focus);
        } else {
          FocusedOnTop(d.layout, d.list, d.list.focus, k);
        }
      }
    }
  }
}
