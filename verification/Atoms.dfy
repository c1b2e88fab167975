/**
 The bridge-global atom table (x11bridge/x11_atoms.c): predefined names, then names interned on demand
 with ids that count up behind them. `base` is the predefined list; `Predefined` is the one of the
 protocol, and the results hold for it because its 68 names are pairwise different.
 */
module Atoms {
  import opened Options
  import opened AtomNames

  /** Names that are nonempty and pairwise different. */
  predicate Proper(names: seq<string>) {
    (forall i :: 0 <= i < |names| ==> names[i] != "") &&
    (forall i, j :: 0 <= i < j < |names| ==> names[i] != names[j])
  }

  /** Atoms have 32 bits, and the counter behind them wraps. */
  const ATOM_LIMIT := 0x1_0000_0000

  type Base = names: seq<string> | Proper(names) && |names| < ATOM_LIMIT - 1 witness []

  /** The predefined names; atom i + 1 is entry i, and dynamic atoms start at 69. */
  function Predefined(): (names: Base)
    ensures |names| == 68 && forall i :: 0 <= i < 68 ==> names[i] == Name(i)
  {
    AllNamesAreProper();
    AllNames()
  }

  function AllNames(): (names: seq<string>)
    ensures |names| == 68 && forall i :: 0 <= i < 68 ==> names[i] == Name(i)
  {
    seq(68, i requires 0 <= i < 68 => Name(i))
  }

  lemma AllNamesAreProper()
    ensures Proper(AllNames())
  {
    var names := AllNames();
    forall i | 0 <= i < |names| ensures names[i] != "" {
      NamesHaveLength(i);
    }
    forall i, j | 0 <= i < j < |names| ensures names[i] != names[j] {
      NamesAreDistinct(i, j);
    }
  }

  datatype Entry = Entry(id: nat, name: string)

  datatype Table = Table(entries: seq<Entry>, next: nat)

  datatype Request = Request(name: string, onlyIfExists: bool)

  function Start(base: Base): Table {
    Table([], |base| + 1)
  }

  /** The first predefined name equal to this one, from name i on. */
  function FindName(base: Base, name: string, i: nat): (r: Option<nat>)
    requires i <= |base|
    ensures r.Some? ==> i <= r.value < |base| && base[r.value] == name
    ensures r.None? ==> forall k :: i <= k < |base| ==> base[k] != name
    decreases |base| - i
  {
    if i == |base| then None else if base[i] == name then Some(i) else FindName(base, name, i + 1)
  }

  function FindEntry(t: seq<Entry>, name: string, i: nat): (r: Option<nat>)
    requires i <= |t|
    ensures r.Some? ==> i <= r.value < |t| && t[r.value].name == name
    ensures r.None? ==> forall k :: i <= k < |t| ==> t[k].name != name
    decreases |t| - i
  {
    if i == |t| then None else if t[i].name == name then Some(i) else FindEntry(t, name, i + 1)
  }

  function FindId(t: seq<Entry>, id: nat, i: nat): (r: Option<nat>)
    requires i <= |t|
    ensures r.Some? ==> i <= r.value < |t| && t[r.value].id == id
    ensures forall k :: i <= k < (if r.Some? then r.value else |t|) ==> t[k].id != id
    decreases |t| - i
  {
    if i == |t| then None else if t[i].id == id then Some(i) else FindId(t, id, i + 1)
  }

  /** The atom of a name that is already known; 0 is None. */
  function Known(base: Base, t: Table, name: string): nat {
    if name == "" then 0
    else if FindName(base, name, 0).Some? then FindName(base, name, 0).value + 1
    else if FindEntry(t.entries, name, 0).Some? then t.entries[FindEntry(t.entries, name, 0).value].id
    else 0
  }

  predicate IsNew(base: Base, t: Table, name: string) {
    name != "" && FindName(base, name, 0).None? && FindEntry(t.entries, name, 0).None?
  }

  function Intern(base: Base, t: Table, r: Request): (Table, nat) {
    if IsNew(base, t, r.name) && !r.onlyIfExists then
      (Extended(t, r.name), t.next)
    else (t, Known(base, t, r.name))
  }

  function NameOf(base: Base, t: Table, atom: nat): Option<string> {
    if 1 <= atom <= |base| then Some(base[atom - 1])
    else match FindId(t.entries, atom, 0)
      case None => None
      case Some(i) => Some(t.entries[i].name)
  }

  function Run(base: Base, t: Table, rs: seq<Request>): Table
    decreases |rs|
  {
    if rs == [] then t else Run(base, Intern(base, t, rs[0]).0, rs[1..])
  }

  /** The id of the dynamic entry at position i. */
  function IdAt(base: Base, i: nat): nat {
    (|base| + 1 + i) % ATOM_LIMIT
  }

  /** How many dynamic atoms there are before the counter wraps. */
  function Capacity(base: Base): nat {
    ATOM_LIMIT - 1 - |base|
  }

  /** Ids count up from 69 in 32 bits; names are nonempty, new and pairwise different. */
  ghost predicate WellFormed(base: Base, t: Table) {
    t.next == IdAt(base, |t.entries|) &&
    (forall i :: 0 <= i < |t.entries| ==>
       t.entries[i].id == IdAt(base, i) && t.entries[i].name != "" && FindName(base, t.entries[i].name, 0).None?) &&
    (forall i, j :: 0 <= i < j < |t.entries| ==> t.entries[i].name != t.entries[j].name)
  }

  /** What a new name does to the table. */
  function Extended(t: Table, name: string): Table {
    Table(t.entries + [Entry(t.next, name)], (t.next + 1) % ATOM_LIMIT)
  }

  lemma NextId(base: Base, i: nat)
    ensures (IdAt(base, i) + 1) % ATOM_LIMIT == IdAt(base, i + 1)
  {
  }

  lemma ExtendedIsWellFormed(base: Base, t: Table, name: string)
    requires WellFormed(base, t) && IsNew(base, t, name)
    ensures WellFormed(base, Extended(t, name)) && t.entries <= Extended(t, name).entries
  {
    NextId(base, |t.entries|);
  }

  /** In every run the table stays well formed and only grows, so an atom once given never changes. */
  lemma {:induction false} TablesOnlyGrow(base: Base, t: Table, rs: seq<Request>)
    requires WellFormed(base, t)
    ensures WellFormed(base, Run(base, t, rs)) && t.entries <= Run(base, t, rs).entries
    decreases |rs|
  {
    if rs != [] {
      if IsNew(base, t, rs[0].name) {
        ExtendedIsWellFormed(base, t, rs[0].name);
      }
      TablesOnlyGrow(base, Intern(base, t, rs[0]).0, rs[1..]);
    }
  }

  lemma IdAtIs(base: Base, i: nat)
    ensures i < Capacity(base) ==> IdAt(base, i) == |base| + 1 + i
    ensures IdAt(base, i) > |base| ==> IdAt(base, IdAt(base, i) - |base| - 1) == IdAt(base, i)
  {
  }

  /** The id of an entry leads back to its name exactly for the entries before the counter wrapped. */
  lemma PlaceDecides(base: Base, t: Table, i: nat)
    requires WellFormed(base, t) && i < |t.entries|
    ensures var e := t.entries[i];
            e.id != 0 && NameOf(base, t, e.id) == Some(e.name) <==> i < Capacity(base)
  {
    var id := t.entries[i].id;
    IdAtIs(base, i);
    if i < Capacity(base) {
      var k := FindId(t.entries, id, 0).value;
      IdAtIs(base, k);
    } else if id > |base| {
      var j := id - |base| - 1;
      assert t.entries[j].id == id;
      assert FindId(t.entries, id, 0).value < i;
    }
  }

  /** Where a name stands: None for a predefined one, else its position, or the end for a new one. */
  function Place(base: Base, t: Table, name: string): Option<nat> {
    if FindName(base, name, 0).Some? then None
    else if FindEntry(t.entries, name, 0).Some? then FindEntry(t.entries, name, 0)
    else Some(|t.entries|)
  }

  /** The name is predefined or its place comes before the counter wraps. */
  predicate Fits(base: Base, t: Table, name: string) {
    Place(base, t, name).None? || Place(base, t, name).value < Capacity(base)
  }

  /** Interning gives an atom whose name is the name again, exactly while the 32 bits last. */
  lemma InternThenName(base: Base, t: Table, r: Request)
    requires WellFormed(base, t) && r.name != "" && !r.onlyIfExists
    ensures var (u, atom) := Intern(base, t, r);
            WellFormed(base, u) && t.entries <= u.entries &&
            (atom != 0 && NameOf(base, u, atom) == Some(r.name) <==> Fits(base, t, r.name))
  {
    if IsNew(base, t, r.name) {
      ExtendedIsWellFormed(base, t, r.name);
      PlaceDecides(base, Extended(t, r.name), |t.entries|);
    } else if FindName(base, r.name, 0).None? {
      PlaceDecides(base, t, FindEntry(t.entries, r.name, 0).value);
    }
  }

  /** Interning the name of an atom gives the atom back and adds nothing. */
  lemma NameThenIntern(base: Base, t: Table, atom: nat, onlyIfExists: bool)
    requires WellFormed(base, t) && NameOf(base, t, atom).Some?
    ensures Intern(base, t, Request(NameOf(base, t, atom).value, onlyIfExists)) == (t, atom)
  {
  }

  lemma NameOfGrows(base: Base, t: Table, u: Table, atom: nat)
    requires WellFormed(base, t) && WellFormed(base, u) && t.entries <= u.entries && NameOf(base, t, atom).Some?
    ensures NameOf(base, u, atom) == NameOf(base, t, atom)
  {
  }

  /** A name keeps its atom over any run. */
  lemma SameNameSameAtom(base: Base, t: Table, name: string, between: seq<Request>)
    requires WellFormed(base, t) && name != ""
    ensures var (u, first) := Intern(base, t, Request(name, false));
            Intern(base, Run(base, u, between), Request(name, false)) == (Run(base, u, between), first)
  {
    var (u, first) := Intern(base, t, Request(name, false));
    InternThenName(base, t, Request(name, false));
    TablesOnlyGrow(base, u, between);
    if FindName(base, name, 0).None? {
      var i := FindEntry(u.entries, name, 0).value;
      assert Run(base, u, between).entries[i] == u.entries[i];
    }
  }

  /**
   Two interns, with any run between them, give the same atom for the same name; and for different names
   different atoms while both fit the counter's 32 bits.
   */
  lemma SameAtomIffSameName(base: Base, t: Table, a: string, between: seq<Request>, b: string)
    requires WellFormed(base, t) && a != "" && b != ""
    ensures var (u, first) := Intern(base, t, Request(a, false));
            var v := Run(base, u, between);
            var second := Intern(base, v, Request(b, false)).1;
            (a == b ==> second == first) &&
            (Fits(base, t, a) && Fits(base, v, b) ==> (second == first <==> a == b))
  {
    var (u, first) := Intern(base, t, Request(a, false));
    var v := Run(base, u, between);
    SameNameSameAtom(base, t, a, between);
    InternThenName(base, t, Request(a, false));
    TablesOnlyGrow(base, u, between);
    InternThenName(base, v, Request(b, false));
    if Fits(base, t, a) && Fits(base, v, b) {
      NameOfGrows(base, u, v, first);
      NameOfGrows(base, v, Intern(base, v, Request(b, false)).0, first);
    }
  }

  // ---- what a request is answered ----

  /** Asking only for what exists adds nothing; a name nobody interned has no atom. */
  lemma OnlyIfExists(base: Base, t: Table, name: string)
    ensures Intern(base, t, Request(name, true)).0 == t
    ensures IsNew(base, t, name) ==> Intern(base, t, Request(name, true)).1 == 0
    ensures Intern(base, t, Request("", false)) == (t, 0)
  {
  }

  /** A new name is added behind the others, with the next number. */
  lemma NewNameIsAdded(base: Base, t: Table, name: string)
    requires WellFormed(base, t) && name != "" && name !in base
    requires forall i :: 0 <= i < |t.entries| ==> t.entries[i].name != name
    requires |t.entries| < Capacity(base)
    ensures var (u, atom) := Intern(base, t, Request(name, false));
            atom == |base| + 1 + |t.entries| && u.entries == t.entries + [Entry(atom, name)]
  {
    IdAtIs(base, |t.entries|);
  }

  /** A predefined name has its number in every table. */
  lemma PredefinedAtom(t: Table, i: nat)
    requires i < 68
    ensures Known(Predefined(), t, Name(i)) == i + 1
  {
    NamesHaveLength(i);
    var r := FindName(Predefined(), Name(i), 0);
    assert Predefined()[i] == Name(i);
    assert r.Some?;
    NamesAreDistinct(i, r.value);
  }

  // ---- where the atoms run out ----

  function Pow2(n: nat): (r: nat)
    ensures r >= 1
  {
    if n == 0 then 1 else 2 * Pow2(n - 1)
  }

  /** The last n binary digits of i. */
  function Digits(i: nat, n: nat): (s: string)
    ensures |s| == n
  {
    if n == 0 then "" else Digits(i / 2, n - 1) + [if i % 2 == 1 then '1' else '0']
  }

  lemma {:induction false} DigitsTellApart(i: nat, j: nat, n: nat)
    requires i < Pow2(n) && j < Pow2(n) && Digits(i, n) == Digits(j, n)
    ensures i == j
  {
    if n > 0 {
      var p, q := Digits(i / 2, n - 1), Digits(j / 2, n - 1);
      assert Digits(i, n)[..n - 1] == p && Digits(j, n)[..n - 1] == q;
      assert Digits(i, n)[n - 1] == Digits(j, n)[n - 1];
      DigitsTellApart(i / 2, j / 2, n - 1);
    }
  }

  lemma LimitIsPow2()
    ensures Pow2(32) == ATOM_LIMIT
  {
    assert Pow2(8) == 256;
    assert Pow2(16) == 256 * Pow2(8);
    assert Pow2(24) == 256 * Pow2(16);
    assert Pow2(32) == 256 * Pow2(24);
  }

  const PREFIX := "xxxxxxxxxxxxxxxxxxxx"

  /** Twenty letters and n digits: longer than every predefined name. */
  function Long(i: nat, n: nat): (s: string)
    ensures |s| == 20 + n
  {
    PREFIX + Digits(i, n)
  }

  lemma LongTellsApart(i: nat, j: nat, n: nat)
    requires i < Pow2(n) && j < Pow2(n) && Long(i, n) == Long(j, n)
    ensures i == j
  {
    assert Long(i, n)[20..] == Digits(i, n) && Long(j, n)[20..] == Digits(j, n);
    DigitsTellApart(i, j, n);
  }

  /** Interning the first k long names. */
  function Fresh(k: nat, n: nat): seq<Request> {
    if k == 0 then [] else Fresh(k - 1, n) + [Request(Long(k - 1, n), false)]
  }

  lemma {:induction false} FreshNames(k: nat, n: nat)
    ensures |Fresh(k, n)| == k && forall i :: 0 <= i < k ==> |Fresh(k, n)[i].name| == 20 + n
  {
    if k > 0 {
      FreshNames(k - 1, n);
    }
  }

  lemma {:induction false} RunSnoc(base: Base, t: Table, rs: seq<Request>, r: Request)
    ensures Run(base, t, rs + [r]) == Intern(base, Run(base, t, rs), r).0
    decreases |rs|
  {
    if rs != [] {
      RunSnoc(base, Intern(base, t, rs[0]).0, rs[1..], r);
      assert (rs + [r])[1..] == rs[1..] + [r];
    } else {
      assert (rs + [r])[1..] == [];
    }
  }

  predicate Short(base: Base) {
    forall i :: 0 <= i < |base| ==> |base[i]| < 20
  }

  lemma PredefinedIsShort()
    ensures Short(Predefined())
  {
    forall i | 0 <= i < 68 ensures |Predefined()[i]| < 20 {
      NamesHaveLength(i);
    }
  }

  /** The table holds the first k long names. */
  ghost predicate HoldsLong(base: Base, t: Table, k: nat, n: nat) {
    WellFormed(base, t) && |t.entries| == k && forall i :: 0 <= i < k ==> t.entries[i].name == Long(i, n)
  }

  lemma LongIsNew(base: Base, t: Table, k: nat, n: nat)
    requires Short(base) && HoldsLong(base, t, k, n) && k < Pow2(n)
    ensures IsNew(base, t, Long(k, n))
  {
    forall i | 0 <= i < k ensures t.entries[i].name != Long(k, n) {
      if Long(i, n) == Long(k, n) {
        LongTellsApart(i, k, n);
      }
    }
  }

  lemma OneMoreLong(base: Base, t: Table, k: nat, n: nat)
    requires Short(base) && HoldsLong(base, t, k, n) && k < Pow2(n)
    ensures HoldsLong(base, Intern(base, t, Request(Long(k, n), false)).0, k + 1, n)
  {
    LongIsNew(base, t, k, n);
    ExtendedIsWellFormed(base, t, Long(k, n));
  }

  lemma RunFresh(base: Base, k: nat, n: nat)
    requires k > 0
    ensures Run(base, Start(base), Fresh(k, n)) ==
            Intern(base, Run(base, Start(base), Fresh(k - 1, n)), Request(Long(k - 1, n), false)).0
  {
    RunSnoc(base, Start(base), Fresh(k - 1, n), Request(Long(k - 1, n), false));
  }

  lemma StartHoldsNone(base: Base, n: nat)
    ensures HoldsLong(base, Run(base, Start(base), Fresh(0, n)), 0, n)
  {
  }

  lemma {:induction false} AfterFresh(base: Base, k: nat, n: nat)
    requires Short(base) && k <= Pow2(n)
    ensures HoldsLong(base, Run(base, Start(base), Fresh(k, n)), k, n)
  {
    if k == 0 {
      StartHoldsNone(base, n);
    } else {
      AfterFresh(base, k - 1, n);
      OneMoreLong(base, Run(base, Start(base), Fresh(k - 1, n)), k - 1, n);
      RunFresh(base, k, n);
    }
  }

  lemma NextAfterFresh(base: Base, n: nat)
    requires Short(base) && Capacity(base) < Pow2(n)
    ensures var t := Run(base, Start(base), Fresh(Capacity(base), n));
            var (u, atom) := Intern(base, t, Request(Long(Capacity(base), n), false));
            atom == 0 && |u.entries| == Capacity(base) + 1
  {
    var t := Run(base, Start(base), Fresh(Capacity(base), n));
    AfterFresh(base, Capacity(base), n);
    LongIsNew(base, t, Capacity(base), n);
  }

  /** After 2^32 - 69 new names of 52 characters the next one is stored, but its atom is 0, which means none. */
  lemma AtomsRunOut(n: nat)
    requires n == 32
    ensures var rs := Fresh(Capacity(Predefined()), n);
            |rs| == 0xFFFF_FFBB && forall i :: 0 <= i < |rs| ==> |rs[i].name| == 52
    ensures var base := Predefined();
            var t := Run(base, Start(base), Fresh(Capacity(base), n));
            var (u, atom) := Intern(base, t, Request(Long(Capacity(base), n), false));
            atom == 0 && |u.entries| == Capacity(base) + 1
  {
    LimitIsPow2();
    FreshNames(Capacity(Predefined()), n);
    PredefinedIsShort();
    NextAfterFresh(Predefined(), n);
  }

  // ---- the table in place ----

  class Registry {
    const base: Base
    var atoms: array<Entry>
    var count: nat
    var next: nat

    ghost predicate Valid()
      reads this, atoms
    {
      count <= atoms.Length && WellFormed(base, View())
    }

    ghost function View(): Table
      requires count <= atoms.Length
      reads this, atoms
    {
      Table(atoms[..count], next)
    }

    constructor ()
      ensures Valid() && base == Predefined() && View() == Start(base) && fresh(atoms)
    {
      base := Predefined();
      atoms := new Entry[0];
      count, next := 0, 69;
    }

    method Search(name: string) returns (r: Option<nat>)
      requires Valid()
      ensures r == FindEntry(atoms[..count], name, 0)
    {
      for i := 0 to count
        invariant FindEntry(atoms[..count], name, 0) == FindEntry(atoms[..count], name, i)
      {
        if atoms[i].name == name {
          return Some(i);
        }
      }
      return None;
    }

    method SearchPredefined(name: string) returns (r: Option<nat>)
      ensures r == FindName(base, name, 0)
    {
      for i := 0 to |base|
        invariant FindName(base, name, 0) == FindName(base, name, i)
      {
        if base[i] == name {
          return Some(i);
        }
      }
      return None;
    }

    /** Grows the array geometrically, keeping the entries. */
    method Grow()
      requires Valid()
      modifies this`atoms
      ensures Valid() && View() == old(View()) && fresh(atoms) && count < atoms.Length
    {
      var capacity := if atoms.Length == 0 then 16 else atoms.Length * 2;
      var grown := new Entry[capacity](i => Entry(0, ""));
      for i := 0 to count
        invariant atoms == old(atoms) && grown[..i] == atoms[..i]
      {
        grown[i] := atoms[i];
      }
      atoms := grown;
      assert atoms[..count] == old(atoms[..count]);
    }

    method InternAtom(name: string, onlyIfExists: bool) returns (atom: nat)
      requires Valid()
      modifies this, atoms
      ensures Valid() && (View(), atom) == Intern(base, old(View()), Request(name, onlyIfExists))
      ensures atoms == old(atoms) || fresh(atoms)
    {
      if |name| == 0 {
        return 0;
      }
      var p := SearchPredefined(name);
      if p.Some? {
        return p.value + 1;
      }
      var d := Search(name);
      if d.Some? {
        return atoms[d.value].id;
      }
      if onlyIfExists {
        return 0;
      }
      atom := AddEntry(name);
    }

    /** Allocates the next atom for a new name. */
    method AddEntry(name: string) returns (atom: nat)
      requires Valid() && IsNew(base, View(), name)
      modifies this, atoms
      ensures Valid() && View() == Extended(old(View()), name) && atom == old(next)
      ensures atoms == old(atoms) || fresh(atoms)
    {
      ExtendedIsWellFormed(base, View(), name);
      if count == atoms.Length {
        Grow();
      }
      atom := next;
      atoms[count] := Entry(atom, name);
      count, next := count + 1, (next + 1) % ATOM_LIMIT;
      assert atoms[..count] == old(atoms[..count]) + [Entry(atom, name)];
    }

    method SearchId(atom: nat) returns (r: Option<nat>)
      requires Valid()
      ensures r == FindId(atoms[..count], atom, 0)
    {
      for i := 0 to count
        invariant FindId(atoms[..count], atom, 0) == FindId(atoms[..count], atom, i)
      {
        if atoms[i].id == atom {
          return Some(i);
        }
      }
      return None;
    }

    /** The true length, and as much of the name as fits the caller's buffer before its terminator. */
    method GetName(atom: nat, capacity: nat) returns (length: nat, text: string)
      requires Valid()
      ensures var r := NameOf(base, View(), atom);
              if capacity == 0 || r.None? then length == 0 && text == ""
              else length == |r.value| && text == if |r.value| < capacity then r.value else r.value[..capacity - 1]
    {
      if capacity == 0 {
        return 0, "";
      }
      var name;
      if 1 <= atom <= |base| {
        name := base[atom - 1];
      } else {
        var i := SearchId(atom);
        if i.None? {
          return 0, "";
        }
        name := atoms[i.value].name;
      }
      return |name|, if |name| + 1 > capacity then name[..capacity - 1] else name;
    }
  }
}
