/**
 What each input does, in the user's terms: which key moves what, where the pointer ends, where the
 windows lie. None of it mentions how the event is handled.
 */
module DeskOutcomes {
  import opened Options
  import opened Tiling
  import opened Desktop

  // ---- keys ----

  /** The same windows in the same order. */
  predicate SameWindows(d: Desk, t: Desk) {
    Surfaces(t.list.wins) == Surfaces(d.list.wins)
  }

  /** Nothing but the list and the layout can have changed. */
  predicate SameRest(d: Desk, t: Desk) {
    t.x == d.x && t.y == d.y && t.outputs == d.outputs && t.super == d.super && t.shift == d.shift &&
    t.layout.width == d.layout.width && t.layout.height == d.layout.height
  }

  lemma RetiledKeeps(d: Desk)
    ensures SameWindows(d, Retiled(d)) && Retiled(d).list.focus == d.list.focus &&
            Retiled(d) == d.(list := Retiled(d).list)
  {
    assert Surfaces(Apply(d.layout, d.list).wins) == Surfaces(d.list.wins);
  }

  lemma RefocusKeeps(l: List, i: nat)
    requires l.wins != []
    ensures FocusIndex(l, i).focus == (if i < |l.wins| then i else |l.wins| - 1)
    ensures Surfaces(FocusIndex(l, i).wins) == Surfaces(l.wins)
  {
  }

  /** Super+J and Super+K move the focus one window on and back, round the list. */
  lemma CycleKeys(d: Desk)
    requires Tidy(d) && d.super && !d.shift && d.list.wins != []
    ensures var n, t := |d.list.wins|, After(d, Key(36, true));
            t.list.focus == (if d.list.focus == n - 1 then 0 else d.list.focus + 1) &&
            SameWindows(d, t) && SameRest(d, t) && t.layout == d.layout && t.quit == d.quit
    ensures var n, t := |d.list.wins|, After(d, Key(37, true));
            t.list.focus == (if d.list.focus == 0 then n - 1 else d.list.focus - 1) &&
            SameWindows(d, t) && SameRest(d, t) && t.layout == d.layout && t.quit == d.quit
  {
    var n, f := |d.list.wins|, d.list.focus;
    OneOn(f, n);
    OneBack(f, n);
    RetiledKeeps(d.(list := Cycle(d.list, 1)));
    RetiledKeeps(d.(list := Cycle(d.list, -1)));
    RefocusKeeps(d.list, (f + 1) % n);
    RefocusKeeps(d.list, (f - 1) % n);
  }

  lemma OneOn(f: nat, n: nat)
    requires f < n
    ensures (f + 1) % n == if f == n - 1 then 0 else f + 1
  {
  }

  lemma OneBack(f: nat, n: nat)
    requires f < n
    ensures (f - 1) % n == if f == 0 then n - 1 else f - 1
  {
    if f == 0 {
      assert -1 == n * -1 + (n - 1);
    }
  }

  /** Super+H and Super+L take and give the master five percent, down to 20 and up to 80. */
  lemma RatioKeys(d: Desk)
    requires Tidy(d) && d.super && !d.shift
    ensures var t := After(d, Key(35, true));
            t.layout.ratio == (if d.layout.ratio < 25 then 20 else d.layout.ratio - 5) &&
            SameWindows(d, t) && t.list.focus == d.list.focus && SameRest(d, t) && t.quit == d.quit
    ensures var t := After(d, Key(38, true));
            t.layout.ratio == (if d.layout.ratio > 75 then 80 else d.layout.ratio + 5) &&
            SameWindows(d, t) && t.list.focus == d.list.focus && SameRest(d, t) && t.quit == d.quit
  {
    RetiledKeeps(d.(layout := Adjusted(d.layout, -5)));
    RetiledKeeps(d.(layout := Adjusted(d.layout, 5)));
  }

  /** Super+1 to Super+9 focus the window of that number, or the last one. */
  lemma NumberKeys(d: Desk, number: nat)
    requires Tidy(d) && d.super && !d.shift && 1 <= number <= 9 && d.list.wins != []
    ensures var t := After(d, Key(number + 1, true));
            t.list.focus == (if number <= |d.list.wins| then number - 1 else |d.list.wins| - 1) &&
            SameWindows(d, t) && SameRest(d, t) && t.layout == d.layout && t.quit == d.quit
  {
    RefocusKeeps(d.list, number - 1);
    RetiledKeeps(d.(list := FocusIndex(d.list, number - 1)));
  }

  /** Super+Shift+Q closes the focused window and focuses the first; Super+Shift+Esc asks to quit. */
  lemma ShiftKeys(d: Desk)
    requires Tidy(d) && d.super && d.shift
    ensures After(d, Key(1, true)) == d.(quit := true)
    ensures d.list.wins != [] ==>
              var s, f, t := Surfaces(d.list.wins), d.list.focus, After(d, Key(16, true));
              Surfaces(t.list.wins) == s[..f] + s[f + 1..] &&
              t.list.focus == (if |s| == 1 then -1 else 0) && SameRest(d, t) && t.layout == d.layout && t.quit == d.quit
  {
    if d.list.wins != [] {
      RemovalOutcome(d);
    }
  }

  /** Without Super, on release, and for every other key nothing happens. */
  lemma OtherKeys(d: Desk, code: nat, press: bool)
    requires !press || !d.super || (d.shift && code != 16 && code != 1) ||
             (!d.shift && code !in {35, 36, 37, 38} && !(2 <= code <= 10))
    ensures After(d, Key(code, press)) == d
  {
  }

  // ---- the pointer ----

  /** An absolute position or the old one moved, brought to the nearest point of the output. */
  lemma PointerEnds(d: Desk, e: Event)
    requires e.Motion? && d.layout.width > 0 && d.layout.height > 0
    ensures var x, t := (if e.absolute then e.ax else d.x + e.dx), After(d, e);
            t.x == (if x < 0 then 0 else if x > d.layout.width - 1 then d.layout.width - 1 else x)
    ensures var y, t := (if e.absolute then e.ay else d.y + e.dy), After(d, e);
            t.y == (if y < 0 then 0 else if y > d.layout.height - 1 then d.layout.height - 1 else y)
    ensures SameWindows(d, After(d, e)) && After(d, e).layout == d.layout
  {
    var m := Moved(d, e);
    var w := AtPoint(m.list.wins, m.x, m.y, 0);
    if w.Some? {
      RetiledKeeps(m.(list := FocusIndex(m.list, w.value)));
      RefocusKeeps(m.list, w.value);
    }
  }

  // ---- clients and outputs ----

  /** A client's window comes first and has the focus; without an output, or with 32 windows, there is none. */
  lemma ConnectOutcome(d: Desk, surface: nat)
    requires Tidy(d)
    ensures d.outputs == 0 ==> After(d, Connect(Some(surface))) == d
    ensures d.outputs > 0 && |d.list.wins| < 32 ==>
              var t := After(d, Connect(Some(surface)));
              Surfaces(t.list.wins) == [surface] + Surfaces(d.list.wins) && t.list.focus == 0 && SameRest(d, t)
    ensures d.outputs > 0 && |d.list.wins| >= 32 ==> SameWindows(d, After(d, Connect(Some(surface))))
  {
    RetiledKeeps(d.(list := Add(d.list, surface)));
    if |d.list.wins| < 32 {
      AddPutsFirst(d.list, surface);
    }
  }

  /** A client that goes takes the focused window with it. */
  lemma DisconnectOutcome(d: Desk)
    requires Tidy(d) && d.list.wins != []
    ensures var s, f, t := Surfaces(d.list.wins), d.list.focus, After(d, Disconnect);
            Surfaces(t.list.wins) == s[..f] + s[f + 1..] && t.list.focus == (if |s| == 1 then -1 else 0) &&
            SameRest(d, t) && t.layout == d.layout && t.quit == d.quit
  {
    RemovalOutcome(d);
  }

  lemma RemovalOutcome(d: Desk)
    requires Tidy(d) && d.list.wins != []
    ensures var s, f, t := Surfaces(d.list.wins), d.list.focus, Retiled(d.(list := RemoveFocused(d.list)));
            Surfaces(t.list.wins) == s[..f] + s[f + 1..] && t.list.focus == (if |s| == 1 then -1 else 0) &&
            SameRest(d, t) && t.layout == d.layout && t.quit == d.quit
  {
    var f := d.list.focus;
    RetiledKeeps(d.(list := RemoveFocused(d.list)));
    var rest := d.list.wins[..f] + d.list.wins[f + 1..];
    assert Surfaces(rest) == Surfaces(d.list.wins)[..f] + Surfaces(d.list.wins)[f + 1..];
    if rest != [] {
      RefocusKeeps(List(rest, 0), 0);
    }
  }

  lemma OutputOutcome(d: Desk)
    ensures After(d, AddOutput).outputs == (if d.outputs < 8 then d.outputs + 1 else d.outputs)
    ensures SameWindows(d, After(d, AddOutput)) && After(d, AddOutput).list.focus == d.list.focus
  {
    RetiledKeeps(d.(outputs := 1));
  }

  lemma ModifierOutcome(d: Desk, super: bool, shift: bool)
    ensures After(d, Modifiers(super, shift)) == d.(super := super, shift := shift)
  {
  }

  // ---- where the windows lie ----

  /** The master: the left edge, full height, its percentage of the width. */
  lemma MasterPlace(ly: Layout, count: nat)
    requires count >= 1 && ly.height >= 0
    ensures Place(ly, count, 0) == Rect(0, 0, ly.width * ly.ratio / 100, ly.height)
  {
  }

  /** The stack: right of the master to the edge, equal heights from the top, the last one down to the bottom. */
  lemma StackPlace(ly: Layout, count: nat, i: nat)
    requires ly.height >= 0 && 1 <= i < count
    ensures var r := Place(ly, count, i);
            r.x == ly.width * ly.ratio / 100 && r.x + r.w == ly.width &&
            r.y == (i - 1) * (ly.height / (count - 1)) &&
            r.y + r.h == if i == count - 1 then ly.height else i * (ly.height / (count - 1))
  {
    TopIsProduct(StackHeight(ly, count), i - 1);
    TopIsProduct(StackHeight(ly, count), i);
  }

  /** A retile puts every window in its place, the focused one on top, then the master, then down the stack. */
  lemma RetilePlaces(ly: Layout, l: List, i: nat)
    requires Ready(ly) && i < |l.wins|
    ensures var n, w, r := |l.wins|, Apply(ly, l).wins[i], Place(ly, |l.wins|, i);
            w.x == r.x && w.y == r.y && w.w == r.w && w.h == r.h && w.surface == l.wins[i].surface &&
            w.focused == l.wins[i].focused && w.zpos == if w.focused then n + 1 else n - i
  {
  }
}
