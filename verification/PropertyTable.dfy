/**
 The 16 property slots of a window, changed in place, and the GetProperty reply as bytes. Each handler is
 proved against the map it stands for.
 */
module PropertyTable {
  import opened Bytes
  import opened Options
  import opened Properties

  // ---- the value buffer ----

  /** memmove: the bytes of a range, moved as if through a copy, also when source and target overlap. */
  method MemMove(a: array<byte>, dst: nat, src: nat, n: nat)
    requires src <= dst && dst + n <= a.Length
    modifies a
    ensures a[dst..dst + n] == old(a[src..src + n])
    ensures forall k :: 0 <= k < a.Length && !(dst <= k < dst + n) ==> a[k] == old(a[k])
  {
    var i := n;
    while i > 0
      invariant 0 <= i <= n
      invariant a[dst + i..dst + n] == old(a[src + i..src + n])
      invariant forall k :: 0 <= k < a.Length && !(dst + i <= k < dst + n) ==> a[k] == old(a[k])
    {
      i := i - 1;
      a[dst + i] := a[src + i];
    }
  }

  /** memcpy from a request. */
  method MemCpy(a: array<byte>, dst: nat, data: seq<byte>)
    requires dst + |data| <= a.Length
    modifies a
    ensures a[dst..dst + |data|] == data
    ensures forall k :: 0 <= k < a.Length && !(dst <= k < dst + |data|) ==> a[k] == old(a[k])
  {
    for i := 0 to |data|
      invariant forall k :: 0 <= k < i ==> a[dst + k] == data[k]
      invariant forall k :: 0 <= k < a.Length && !(dst <= k < dst + i) ==> a[k] == old(a[k])
    {
      a[dst + i] := data[i];
    }
  }

  /** Prepend or append in a buffer grown by realloc. */
  method Extend(value: seq<byte>, data: seq<byte>, prepend: bool) returns (joined: seq<byte>)
    ensures joined == if prepend then data + value else value + data
  {
    var grown := new byte[|value| + |data|](i => 0);
    MemCpy(grown, 0, value);
    if prepend {
      MemMove(grown, |data|, 0, |value|);
      MemCpy(grown, 0, data);
      assert grown[..] == grown[..|data|] + grown[|data|..|data| + |value|];
    } else {
      MemCpy(grown, |value|, data);
      assert grown[..] == grown[..|value|] + grown[|value|..|value| + |data|];
    }
    joined := grown[..];
  }

  // ---- slots ----

  datatype Slot = Free | Used(atom: U32, property: Property)

  /** The slots hold exactly the pairs of m, each atom once. */
  ghost predicate Holds(t: seq<Slot>, m: Store) {
    (forall i, j :: 0 <= i < j < |t| && t[i].Used? && t[j].Used? ==> t[i].atom != t[j].atom) &&
    (forall i :: 0 <= i < |t| && t[i].Used? ==> t[i].atom in m && m[t[i].atom] == t[i].property) &&
    (forall atom :: atom in m ==> exists i :: 0 <= i < |t| && t[i].Used? && t[i].atom == atom)
  }

  function Atoms(t: seq<Slot>, n: nat): set<U32>
    requires n <= |t|
  {
    if n == 0 then {} else Atoms(t, n - 1) + if t[n - 1].Used? then {t[n - 1].atom} else {}
  }

  function UsedSlots(t: seq<Slot>, n: nat): nat
    requires n <= |t|
  {
    if n == 0 then 0 else UsedSlots(t, n - 1) + if t[n - 1].Used? then 1 else 0
  }

  lemma {:induction false} AtomsAreSlotAtoms(t: seq<Slot>, n: nat, atom: U32)
    requires n <= |t|
    ensures atom in Atoms(t, n) <==> exists i :: 0 <= i < n && t[i].Used? && t[i].atom == atom
  {
    if n > 0 {
      AtomsAreSlotAtoms(t, n - 1, atom);
    }
  }

  lemma {:induction false} AtomsCount(t: seq<Slot>, n: nat, m: Store)
    requires n <= |t| && Holds(t, m)
    ensures |Atoms(t, n)| == UsedSlots(t, n)
  {
    if n > 0 {
      AtomsCount(t, n - 1, m);
      if t[n - 1].Used? {
        AtomsAreSlotAtoms(t, n - 1, t[n - 1].atom);
      }
    }
  }

  lemma {:induction false} AllUsed(t: seq<Slot>, n: nat)
    requires n <= |t|
    ensures UsedSlots(t, n) <= n
    ensures UsedSlots(t, n) == n <==> forall i :: 0 <= i < n ==> t[i].Used?
  {
    if n > 0 {
      AllUsed(t, n - 1);
    }
  }

  /** The table is full exactly when the map has as many entries as there are slots. */
  lemma FullIffAllUsed(t: seq<Slot>, m: Store)
    requires Holds(t, m)
    ensures |m| <= |t| && (|m| == |t| <==> forall i :: 0 <= i < |t| ==> t[i].Used?)
  {
    forall atom ensures atom in Atoms(t, |t|) <==> atom in m.Keys {
      AtomsAreSlotAtoms(t, |t|, atom);
    }
    assert Atoms(t, |t|) == m.Keys;
    AtomsCount(t, |t|, m);
    AllUsed(t, |t|);
  }

  lemma StoreHolds(t: seq<Slot>, m: Store, i: nat, atom: U32, p: Property)
    requires Holds(t, m) && i < |t|
    requires if atom in m then t[i].Used? && t[i].atom == atom else t[i].Free?
    ensures Holds(t[i := Used(atom, p)], m[atom := p])
  {
    var u, m' := t[i := Used(atom, p)], m[atom := p];
    forall x | x in m' ensures exists k :: 0 <= k < |u| && u[k].Used? && u[k].atom == x {
      if x == atom {
        assert u[i].Used?;
      } else {
        var k :| 0 <= k < |t| && t[k].Used? && t[k].atom == x;
        assert u[k] == t[k];
      }
    }
  }

  lemma ClearHolds(t: seq<Slot>, m: Store, i: nat)
    requires Holds(t, m) && i < |t| && t[i].Used?
    ensures Holds(t[i := Free], m - {t[i].atom})
  {
    var u := t[i := Free];
    forall x | x in m - {t[i].atom} ensures exists k :: 0 <= k < |u| && u[k].Used? && u[k].atom == x {
      var k :| 0 <= k < |t| && t[k].Used? && t[k].atom == x;
      assert u[k] == t[k];
    }
  }

  class Window {
    const slots: array<Slot>
    ghost var store: Store

    ghost predicate Valid()
      reads this, slots
    {
      slots.Length == MAX_PROPS && Holds(slots[..], store) && WellFormed(store)
    }

    constructor ()
      ensures Valid() && store == map[] && fresh(slots)
    {
      slots := new Slot[MAX_PROPS](i => Free);
      store := map[];
    }

    method Find(atom: U32) returns (r: Option<nat>)
      requires Valid()
      ensures r.Some? <==> atom in store
      ensures r.Some? ==> r.value < MAX_PROPS && slots[r.value] == Used(atom, store[atom])
    {
      for i := 0 to MAX_PROPS
        invariant forall k :: 0 <= k < i && slots[k].Used? ==> slots[k].atom != atom
      {
        if slots[i].Used? && slots[i].atom == atom {
          return Some(i);
        }
      }
      return None;
    }

    method Allocate() returns (r: Option<nat>)
      requires Valid()
      ensures r.Some? <==> |store| < MAX_PROPS
      ensures r.Some? ==> r.value < MAX_PROPS && slots[r.value].Free?
    {
      FullIffAllUsed(slots[..], store);
      for i := 0 to MAX_PROPS
        invariant forall k :: 0 <= k < i ==> slots[k].Used?
      {
        if slots[i].Free? {
          return Some(i);
        }
      }
      return None;
    }

    /** What the handler writes into the slot it found or allocated. */
    method Recompute(slot: Slot, c: ChangeRequest) returns (e: ErrorCode, p: Property)
      requires Screen(c) == NoError
      ensures var r := Revise(if slot.Used? then Some(slot.property) else None, c);
              e == r.0 && (e == NoError ==> r.1 == Some(p))
    {
      var data := c.data[..Stated(c)];
      p := Property(c.kind, c.format, data);
      if c.mode == REPLACE || slot.Free? {
        return NoError, p;
      }
      if c.mode != PREPEND && c.mode != APPEND {
        return ValueError, p;
      }
      if slot.property.kind != c.kind || slot.property.format != c.format {
        return MatchError, p;
      }
      if |slot.property.value| + |data| > MAX_BYTES {
        return AllocError, p;
      }
      var joined := Extend(slot.property.value, data, c.mode == PREPEND);
      return NoError, slot.property.(value := joined);
    }

    method ChangeProperty(c: ChangeRequest) returns (e: ErrorCode)
      requires Valid()
      modifies this, slots
      ensures Valid() && e == ChangeError(old(store), c) && store == AfterChange(old(store), c)
    {
      ChangeKeepsWellFormed(store, c);
      e := Screen(c);
      if e != NoError {
        return;
      }
      var at := Find(c.atom);
      if at.None? {
        at := Allocate();
        if at.None? {
          return AllocError;
        }
      }
      var i := at.value;
      var p;
      e, p := Recompute(slots[i], c);
      if e == NoError {
        StoreHolds(slots[..], store, i, c.atom, p);
        ghost var t := slots[..];
        slots[i] := Used(c.atom, p);
        assert slots[..] == t[i := Used(c.atom, p)];
        store := store[c.atom := p];
      }
    }

    method Clear(i: nat)
      requires Valid() && i < MAX_PROPS && slots[i].Used?
      modifies this, slots
      ensures Valid() && store == old(store) - {old(slots[i]).atom}
    {
      ClearHolds(slots[..], store, i);
      DeleteKeepsWellFormed(store, slots[i].atom);
      ghost var t := slots[..];
      store := store - {slots[i].atom};
      slots[i] := Free;
      assert slots[..] == t[i := Free];
    }

    method DeleteProperty(atom: U32) returns (e: ErrorCode)
      requires Valid()
      modifies this, slots
      ensures Valid() && e == (if atom == 0 then AtomError else NoError)
      ensures store == old(store) - {atom}
    {
      assert atom !in store ==> store - {atom} == store;
      if atom == 0 {
        return AtomError;
      }
      var at := Find(atom);
      if at.Some? {
        Clear(at.value);
      }
      return NoError;
    }

    method GetProperty(atom: U32, kind: U32, offset: U32, length: U32, delete: bool) returns (r: Option<Slice>)
      requires Valid()
      modifies this, slots
      ensures Valid() && r == Query(old(store), atom, kind, offset, length)
      ensures store == AfterQuery(old(store), atom, kind, offset, length, delete)
    {
      var at := Find(atom);
      if at.None? || (kind != 0 && slots[at.value].property.kind != kind) {
        return None;
      }
      var part := Part(slots[at.value].property, offset, length);
      if delete && part.after == 0 {
        Clear(at.value);
      }
      return Some(part);
    }
  }

  // ---- the reply on the wire ----

  /** x11_build_get_property_reply behind its first four bytes: four fields, the value and zero padding. */
  function ReplyFields(s: Slice, order: byte): seq<byte>
    requires |s.value| <= MAX_BYTES && s.after <= MAX_BYTES && s.units <= MAX_BYTES
  {
    PutU32(Pad4(|s.value|) / 4, order) + (PutU32(s.kind, order) +
    (PutU32(s.after, order) + (PutU32(s.units, order) + ReplyTail(s))))
  }

  function ReplyTail(s: Slice): seq<byte> {
    seq(12, i => 0) + (s.value + seq(Pad4(|s.value|) - |s.value|, i => 0))
  }

  /** The whole reply. */
  function ReplyBytes(s: Slice, sequence: U16, order: byte): (b: seq<byte>)
    requires s.format < 256 && |s.value| <= MAX_BYTES && s.after <= MAX_BYTES && s.units <= MAX_BYTES
    ensures |b| == 32 + Pad4(|s.value|)
  {
    [1, s.format] + PutU16(sequence, order) + ReplyFields(s, order)
  }

  lemma FrontField(v: U32, rest: seq<byte>, order: byte)
    ensures GetU32(PutU32(v, order) + rest, order) == v
    ensures (PutU32(v, order) + rest)[4..] == rest
  {
    RoundTrip32(v, order);
    var p := PutU32(v, order);
    assert (p + rest)[0] == p[0] && (p + rest)[1] == p[1] && (p + rest)[2] == p[2] && (p + rest)[3] == p[3];
  }

  /** What a client finds in the fields of a reply. */
  lemma FieldsReadBack(s: Slice, order: byte)
    requires |s.value| <= MAX_BYTES && s.after <= MAX_BYTES && s.units <= MAX_BYTES
    ensures var f := ReplyFields(s, order);
            |f| == 28 + Pad4(|s.value|) &&
            GetU32(f, order) * 4 == Pad4(|s.value|) && GetU32(f[4..], order) == s.kind &&
            GetU32(f[8..], order) == s.after && GetU32(f[12..], order) == s.units &&
            f[28..28 + |s.value|] == s.value
  {
    var tail := ReplyTail(s);
    var units := PutU32(s.units, order) + tail;
    var after := PutU32(s.after, order) + units;
    var kind := PutU32(s.kind, order) + after;
    var f := PutU32(Pad4(|s.value|) / 4, order) + kind;
    FrontField(Pad4(|s.value|) / 4, kind, order);
    FrontField(s.kind, after, order);
    FrontField(s.after, units, order);
    FrontField(s.units, tail, order);
    assert f[8..] == f[4..][4..] && f[12..] == f[8..][4..] && f[16..] == f[12..][4..];
    assert tail[12..12 + |s.value|] == s.value;
    assert f[28..28 + |s.value|] == f[16..][12..12 + |s.value|];
  }

  /** Bytes of so many units of a format. */
  function UnitBytes(format: nat, units: nat): nat {
    if format == 32 then units * 4 else if format == 16 then units * 2 else units
  }

  /** A client's reading of a reply, None if it is not as long as it says. */
  function ReadReply(b: seq<byte>, order: byte): Option<Slice> {
    if |b| < 32 || b[0] != 1 || 32 + GetU32(b[4..], order) * 4 != |b| then None
    else
      var units := GetU32(b[16..], order);
      var n := UnitBytes(b[1], units);
      if 32 + n > |b| then None
      else Some(Slice(b[1], GetU32(b[8..], order), GetU32(b[12..], order), units, b[32..32 + n]))
  }

  lemma BytesReadBack(s: Slice, sequence: U16, order: byte)
    requires s.format < 256 && |s.value| <= MAX_BYTES && s.after <= MAX_BYTES && s.units <= MAX_BYTES
    requires UnitBytes(s.format, s.units) == |s.value|
    ensures ReadReply(ReplyBytes(s, sequence, order), order) == Some(s)
  {
    var b, f := ReplyBytes(s, sequence, order), ReplyFields(s, order);
    FieldsReadBack(s, order);
    assert b[4..] == f;
    assert b[8..] == f[4..] && b[12..] == f[8..] && b[16..] == f[12..];
    assert b[32..32 + |s.value|] == f[28..28 + |s.value|];
  }

  /** The fixed part of a reply: kind 1, the format, and the sequence number. */
  lemma ReplyHead(s: Slice, sequence: U16, order: byte)
    requires s.format < 256 && |s.value| <= MAX_BYTES && s.after <= MAX_BYTES && s.units <= MAX_BYTES
    ensures var b := ReplyBytes(s, sequence, order);
            b[0] == 1 && b[1] == s.format && GetU16(b[2..], order) == sequence
  {
    var b := ReplyBytes(s, sequence, order);
    RoundTrip16(sequence, order);
    assert b[2..][0] == PutU16(sequence, order)[0] && b[2..][1] == PutU16(sequence, order)[1];
  }

  /** The reply to a part of a sound property fits its 4128-byte buffer and reads back as that part. */
  lemma ReplyReadsBack(p: Property, offset: U32, length: U32, sequence: U16, order: byte)
    requires Sound(p)
    ensures var s := Part(p, offset, length);
            s.after <= MAX_BYTES && s.units <= MAX_BYTES && |s.value| <= MAX_BYTES &&
            |ReplyBytes(s, sequence, order)| <= 32 + MAX_BYTES &&
            ReadReply(ReplyBytes(s, sequence, order), order) == Some(s)
  {
    PartIsExact(p, offset, length);
    BytesReadBack(Part(p, offset, length), sequence, order);
  }

  /** Writes the next piece of a reply behind what is already there. */
  method Emit(out: array<byte>, at: nat, piece: seq<byte>) returns (next: nat)
    requires at + |piece| <= out.Length
    modifies out
    ensures next == at + |piece| && out[..next] == old(out[..at]) + piece
    ensures forall k :: next <= k < out.Length ==> out[k] == old(out[k])
  {
    MemCpy(out, at, piece);
    next := at + |piece|;
    assert out[..next] == out[..at] + out[at..next];
  }

  /** The builder: 0 when the buffer is too small, else the length of the reply it wrote. */
  method BuildReply(out: array<byte>, s: Slice, sequence: U16, order: byte) returns (n: nat)
    requires s.format < 256 && |s.value| <= MAX_BYTES && s.after <= MAX_BYTES && s.units <= MAX_BYTES
    modifies out
    ensures n == if out.Length < 32 + Pad4(|s.value|) then 0 else 32 + Pad4(|s.value|)
    ensures n == 0 ==> out[..] == old(out[..])
    ensures n > 0 ==> out[..n] == ReplyBytes(s, sequence, order) && out[n..] == old(out[n..])
  {
    if out.Length < 32 + Pad4(|s.value|) {
      return 0;
    }
    n := Emit(out, 0, [1, s.format] + PutU16(sequence, order));
    n := EmitFields(out, n, s, order);
    assert out[..n] == ReplyBytes(s, sequence, order);
  }

  method EmitFields(out: array<byte>, at: nat, s: Slice, order: byte) returns (n: nat)
    requires |s.value| <= MAX_BYTES && s.after <= MAX_BYTES && s.units <= MAX_BYTES
    requires at + 28 + Pad4(|s.value|) <= out.Length
    modifies out
    ensures n == at + 28 + Pad4(|s.value|)
    ensures out[..n] == old(out[..at]) + ReplyFields(s, order)
    ensures forall k :: n <= k < out.Length ==> out[k] == old(out[k])
  {
    ghost var start := out[..at];
    n := Emit(out, at, PutU32(Pad4(|s.value|) / 4, order));
    n := Emit(out, n, PutU32(s.kind, order));
    n := Emit(out, n, PutU32(s.after, order));
    n := Emit(out, n, PutU32(s.units, order));
    n := Emit(out, n, ReplyTail(s));
    Regroup(start, PutU32(Pad4(|s.value|) / 4, order), PutU32(s.kind, order), PutU32(s.after, order),
            PutU32(s.units, order), ReplyTail(s));
  }

  lemma Regroup(a: seq<byte>, b: seq<byte>, c: seq<byte>, d: seq<byte>, e: seq<byte>, f: seq<byte>)
    ensures a + b + c + d + e + f == a + (b + (c + (d + (e + f))))
  {
  }
}
