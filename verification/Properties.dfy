/**
 Window properties (x11bridge/x11_client.c): what ChangeProperty, DeleteProperty and GetProperty do to the
 map from atom to (type, format, bytes) that a window's 16 slots stand for, and what reading a
 property in pieces gives. Section 9 of the X Window System Protocol, X Version 11.
 */
module Properties {
  import opened Bytes
  import opened Options

  const MAX_PROPS := 16

  const MAX_BYTES := 4096

  const REPLACE := 0

  const PREPEND := 1

  const APPEND := 2

  datatype ErrorCode = NoError | LengthError | ValueError | AtomError | AllocError | MatchError

  datatype Property = Property(kind: U32, format: nat, value: seq<byte>)

  type Store = map<U32, Property>

  /** A ChangeProperty request, after its fixed part was decoded; data is everything behind it. */
  datatype ChangeRequest = ChangeRequest(mode: nat, atom: U32, kind: U32, format: nat, units: U32, data: seq<byte>)

  predicate KnownFormat(format: nat) {
    format == 8 || format == 16 || format == 32
  }

  function Stated(c: ChangeRequest): nat {
    c.units * (c.format / 8)
  }

  /** Errors that do not depend on what is stored. */
  function Screen(c: ChangeRequest): ErrorCode {
    if !KnownFormat(c.format) then ValueError
    else if c.atom == 0 then AtomError
    else if Stated(c) > |c.data| then LengthError
    else if Stated(c) > MAX_BYTES then AllocError
    else NoError
  }

  /** What a change does to the value of its atom, if it has one. */
  function Revise(old0: Option<Property>, c: ChangeRequest): (ErrorCode, Option<Property>)
    requires Screen(c) == NoError
  {
    var data := c.data[..Stated(c)];
    if old0.None? || c.mode == REPLACE then (NoError, Some(Property(c.kind, c.format, data)))
    else if c.mode != PREPEND && c.mode != APPEND then (ValueError, old0)
    else if old0.value.kind != c.kind || old0.value.format != c.format then (MatchError, old0)
    else if |old0.value.value| + |data| > MAX_BYTES then (AllocError, old0)
    else
      var joined := if c.mode == PREPEND then data + old0.value.value else old0.value.value + data;
      (NoError, Some(old0.value.(value := joined)))
  }

  function Stored(m: Store, atom: U32): Option<Property> {
    if atom in m then Some(m[atom]) else None
  }

  function ChangeError(m: Store, c: ChangeRequest): ErrorCode {
    if Screen(c) != NoError then Screen(c)
    else if c.atom !in m && |m| >= MAX_PROPS then AllocError
    else Revise(Stored(m, c.atom), c).0
  }

  function AfterChange(m: Store, c: ChangeRequest): Store {
    if ChangeError(m, c) != NoError then m else m[c.atom := Revise(Stored(m, c.atom), c).1.value]
  }

  // ---- the answer to every change ----

  /** Bytes of one unit. */
  lemma UnitBytes(c: ChangeRequest)
    ensures c.format == 8 ==> Stated(c) == c.units
    ensures c.format == 16 ==> Stated(c) == 2 * c.units
    ensures c.format == 32 ==> Stated(c) == 4 * c.units
  {
  }

  /** What the request itself can be refused for, in this order; n is the number of data bytes. */
  lemma ScreenOutcome(m: Store, c: ChangeRequest, n: nat)
    requires n == if c.format == 8 then c.units else if c.format == 16 then 2 * c.units else 4 * c.units
    ensures c.format != 8 && c.format != 16 && c.format != 32 ==> ChangeError(m, c) == ValueError
    ensures c.format in {8, 16, 32} && c.atom == 0 ==> ChangeError(m, c) == AtomError
    ensures c.format in {8, 16, 32} && c.atom != 0 && n > |c.data| ==> ChangeError(m, c) == LengthError
    ensures c.format in {8, 16, 32} && c.atom != 0 && 4096 < n <= |c.data| ==> ChangeError(m, c) == AllocError
  {
    UnitBytes(c);
  }

  /** Any request that passes those is answered by what is stored. */
  predicate Passes(c: ChangeRequest, n: nat) {
    c.atom != 0 && n <= |c.data| && n <= 4096 &&
    ((c.format == 8 && n == c.units) || (c.format == 16 && n == 2 * c.units) || (c.format == 32 && n == 4 * c.units))
  }

  lemma ChangeOutcome(m: Store, c: ChangeRequest, n: nat)
    requires Passes(c, n)
    ensures c.atom !in m ==> ChangeError(m, c) == if |m| >= 16 then AllocError else NoError
    ensures c.atom in m && c.mode == 0 ==> ChangeError(m, c) == NoError
    ensures c.atom in m && c.mode > 2 ==> ChangeError(m, c) == ValueError
    ensures c.atom in m && 1 <= c.mode <= 2 ==>
              ChangeError(m, c) == if m[c.atom].kind != c.kind || m[c.atom].format != c.format then MatchError
                                   else if |m[c.atom].value| + n > 4096 then AllocError else NoError
    ensures ChangeError(m, c) != NoError ==> AfterChange(m, c) == m
    ensures ChangeError(m, c) == NoError ==>
              AfterChange(m, c) ==
              m[c.atom := Property(c.kind, c.format,
                                   if c.atom !in m || c.mode == 0 then c.data[..n]
                                   else if c.mode == 1 then c.data[..n] + m[c.atom].value
                                   else m[c.atom].value + c.data[..n])]
  {
    UnitBytes(c);
  }

  // ---- the invariant ----

  ghost predicate WellFormed(m: Store) {
    |m| <= MAX_PROPS &&
    forall atom :: atom in m ==>
      atom != 0 && Sound(m[atom])
  }

  /** A whole number of units, within the cap. */
  predicate Sound(p: Property) {
    KnownFormat(p.format) && |p.value| <= MAX_BYTES && |p.value| % (p.format / 8) == 0
  }

  lemma StatedIsWhole(c: ChangeRequest)
    requires KnownFormat(c.format)
    ensures Stated(c) % (c.format / 8) == 0
  {
    if c.format == 16 {
      Doubled(c.units);
    } else if c.format == 32 {
      Quadrupled(c.units);
    }
  }

  lemma Doubled(n: nat)
    ensures n * 2 % 2 == 0
  {
  }

  lemma Quadrupled(n: nat)
    ensures n * 4 % 4 == 0
  {
  }

  lemma UnitsAddUp(a: nat, b: nat, format: nat)
    requires KnownFormat(format) && a % (format / 8) == 0 && b % (format / 8) == 0
    ensures (a + b) % (format / 8) == 0
  {
    if format == 16 {
      EvenSum(a, b);
    } else if format == 32 {
      WordSum(a, b);
    }
  }

  lemma EvenSum(a: nat, b: nat)
    requires a % 2 == 0 && b % 2 == 0
    ensures (a + b) % 2 == 0
  {
  }

  lemma WordSum(a: nat, b: nat)
    requires a % 4 == 0 && b % 4 == 0
    ensures (a + b) % 4 == 0
  {
  }

  lemma RevisionIsSound(before: Option<Property>, c: ChangeRequest)
    requires Screen(c) == NoError && Revise(before, c).0 == NoError
    requires before.Some? ==> Sound(before.value)
    ensures Revise(before, c).1.Some? && Sound(Revise(before, c).1.value)
  {
    StatedIsWhole(c);
    if before.Some? && before.value.format == c.format {
      UnitsAddUp(|before.value.value|, Stated(c), c.format);
    }
  }

  /** Stored lengths stay whole numbers of units and within the cap. */
  lemma ChangeKeepsWellFormed(m: Store, c: ChangeRequest)
    requires WellFormed(m)
    ensures WellFormed(AfterChange(m, c))
  {
    if ChangeError(m, c) == NoError {
      RevisionIsSound(Stored(m, c.atom), c);
      assert AfterChange(m, c).Keys == m.Keys + {c.atom};
    }
  }

  lemma DeleteKeepsWellFormed(m: Store, atom: U32)
    requires WellFormed(m)
    ensures WellFormed(m - {atom})
  {
  }

  datatype Request =
    | Change(change: ChangeRequest)
    | Delete(atom: U32)
    | Get(atom: U32, kind: U32, offset: U32, length: U32, delete: bool)

  function AfterRequest(m: Store, r: Request): Store {
    match r
    case Change(c) => AfterChange(m, c)
    case Delete(atom) => m - {atom}
    case Get(atom, kind, offset, length, delete) => AfterQuery(m, atom, kind, offset, length, delete)
  }

  /** A delete takes exactly its property; a read takes it only with the delete flag and nothing left behind. */
  lemma RemovalOutcome(m: Store, atom: U32, kind: U32, offset: U32, length: U32, delete: bool)
    ensures AfterRequest(m, Delete(atom)) == m - {atom}
    ensures AfterRequest(m, Get(atom, kind, offset, length, delete)) ==
            if delete && atom in m && (kind == 0 || kind == m[atom].kind) &&
               4 * offset + 4 * length >= |m[atom].value| then m - {atom} else m
  {
  }

  function AfterRequests(m: Store, rs: seq<Request>): Store
    decreases |rs|
  {
    if rs == [] then m else AfterRequests(AfterRequest(m, rs[0]), rs[1..])
  }

  /** Whatever the client sends, at most 16 properties, each a whole number of units and at most 4096 bytes. */
  lemma {:induction false} EveryStoreIsWellFormed(m: Store, rs: seq<Request>)
    requires WellFormed(m)
    ensures WellFormed(AfterRequests(m, rs))
    decreases |rs|
  {
    if rs != [] {
      match rs[0] {
        case Change(c) => ChangeKeepsWellFormed(m, c);
        case Delete(atom) => DeleteKeepsWellFormed(m, atom);
        case Get(atom, kind, offset, length, delete) => DeleteKeepsWellFormed(m, atom);
      }
      EveryStoreIsWellFormed(AfterRequest(m, rs[0]), rs[1..]);
    }
  }

  // ---- reading ----

  datatype Slice = Slice(format: nat, kind: U32, after: nat, units: nat, value: seq<byte>)

  /** The part of a value that GetProperty returns for an offset and a length in 4-byte units. */
  function Part(p: Property, offset: U32, length: U32): Slice {
    var start, limit := offset * 4, length * 4;
    var available := if start < |p.value| then |p.value| - start else 0;
    var count := if available < limit then available else limit;
    var value := if count > 0 then p.value[start..start + count] else [];
    Slice(p.format, p.kind, available - count, if p.format / 8 > 0 then count / (p.format / 8) else 0, value)
  }

  lemma PartAddsUp(p: Property, offset: U32, length: U32)
    ensures var r := Part(p, offset, length);
            (if offset * 4 < |p.value| then offset * 4 else |p.value|) + |r.value| + r.after == |p.value|
    ensures |p.value| % 2 == 0 ==> |Part(p, offset, length).value| % 2 == 0
    ensures |p.value| % 4 == 0 ==> |Part(p, offset, length).value| % 4 == 0
  {
    Doubled(length * 2);
    Quadrupled(length);
    EvenRest(|p.value|, offset * 2);
    WordRest(|p.value|, offset);
  }

  /** What is left behind a whole number of units is a whole number of units. */
  lemma EvenRest(n: nat, k: nat)
    ensures n % 2 == 0 ==> (n - k * 2) % 2 == 0
  {
  }

  lemma WordRest(n: nat, k: nat)
    ensures n % 4 == 0 ==> (n - k * 4) % 4 == 0
  {
  }

  lemma PartUnits(p: Property, offset: U32, length: U32)
    ensures var r := Part(p, offset, length); r.units == if p.format / 8 > 0 then |r.value| / (p.format / 8) else 0
  {
  }

  lemma PaddedFits(n: nat)
    requires n <= MAX_BYTES
    ensures 32 + Pad4(n) <= 32 + MAX_BYTES
  {
  }

  /** Skipped, returned and remaining bytes make up the value, and the unit count is exact. */
  lemma PartIsExact(p: Property, offset: U32, length: U32)
    requires Sound(p)
    ensures var r := Part(p, offset, length);
            (if offset * 4 < |p.value| then offset * 4 else |p.value|) + |r.value| + r.after == |p.value| &&
            r.units * (p.format / 8) == |r.value| &&
            32 + Pad4(|r.value|) <= 32 + MAX_BYTES
  {
    PartAddsUp(p, offset, length);
    PartUnits(p, offset, length);
    PaddedFits(|Part(p, offset, length).value|);
    if p.format == 16 {
      Halves(|Part(p, offset, length).value|);
    } else if p.format == 32 {
      Quarters(|Part(p, offset, length).value|);
    }
  }

  lemma Halves(n: nat)
    requires n % 2 == 0
    ensures n / 2 * 2 == n
  {
  }

  lemma Quarters(n: nat)
    requires n % 4 == 0
    ensures n / 4 * 4 == n
  {
  }

  /** GetProperty for one atom; None is the reply that says there is no such property of that type. */
  function Query(m: Store, atom: U32, kind: U32, offset: U32, length: U32): Option<Slice> {
    if atom in m && (kind == 0 || m[atom].kind == kind) then Some(Part(m[atom], offset, length)) else None
  }

  /** With the delete flag, the property goes with the reply that leaves nothing behind. */
  function AfterQuery(m: Store, atom: U32, kind: U32, offset: U32, length: U32, delete: bool): Store {
    var r := Query(m, atom, kind, offset, length);
    if delete && r.Some? && r.value.after == 0 then m - {atom} else m
  }

  /** A property is read if the type asked for is 0 or its own, with its own type and format. */
  lemma QueryOutcome(m: Store, atom: U32, kind: U32, offset: U32, length: U32)
    ensures Query(m, atom, kind, offset, length).Some? <==> atom in m && (kind == 0 || kind == m[atom].kind)
    ensures Query(m, atom, kind, offset, length).Some? ==>
              var r := Query(m, atom, kind, offset, length).value;
              r.kind == m[atom].kind && r.format == m[atom].format &&
              (4 * offset <= |m[atom].value| ==> r.value <= m[atom].value[4 * offset..]) &&
              (4 * offset > |m[atom].value| ==> r.value == []) &&
              |r.value| <= 4 * length && (r.after > 0 ==> |r.value| == 4 * length)
  {
  }

  /** A client reading in chunks until nothing is left: the bytes it got and the store it leaves. */
  function ReadAll(m: Store, atom: U32, kind: U32, offset: U32, length: U32, delete: bool): (seq<byte>, Store)
    requires WellFormed(m) && length > 0 && offset * 4 <= MAX_BYTES
    decreases MAX_BYTES - offset * 4
  {
    var r, n := Query(m, atom, kind, offset, length), AfterQuery(m, atom, kind, offset, length, delete);
    if r.None? then ([], n)
    else if r.value.after == 0 then (r.value.value, n)
    else
      var rest := ReadAll(n, atom, kind, offset + length, length, delete);
      (r.value.value + rest.0, rest.1)
  }

  /** A part is the rest of the value, or a full chunk with more to come. */
  lemma PartIsChunkOrRest(p: Property, offset: U32, length: U32)
    requires offset * 4 <= |p.value|
    ensures var r, end := Part(p, offset, length), (offset + length) * 4;
            if r.after == 0 then r.value == p.value[offset * 4..]
            else end < |p.value| && r.value == p.value[offset * 4..end]
  {
  }

  lemma SplitAt<T>(s: seq<T>, i: nat, j: nat)
    requires i <= j <= |s|
    ensures s[i..] == s[i..j] + s[j..]
  {
  }

  lemma {:induction false} ReadAllFrom(m: Store, atom: U32, kind: U32, offset: U32, length: U32, delete: bool)
    requires WellFormed(m) && length > 0 && atom in m && (kind == 0 || m[atom].kind == kind)
    requires offset * 4 <= |m[atom].value|
    ensures ReadAll(m, atom, kind, offset, length, delete) ==
            (m[atom].value[offset * 4..], if delete then m - {atom} else m)
    decreases MAX_BYTES - offset * 4
  {
    PartIsChunkOrRest(m[atom], offset, length);
    if Part(m[atom], offset, length).after > 0 {
      ReadAllFrom(m, atom, kind, offset + length, length, delete);
      SplitAt(m[atom].value, offset * 4, (offset + length) * 4);
    }
  }

  /**
   For every stored value and positive chunk length, reading successive offsets until nothing is left
   concatenates to the value; with the delete flag on every read, exactly that property is then gone.
   */
  lemma ChunksReassemble(m: Store, atom: U32, kind: U32, length: U32, delete: bool)
    requires WellFormed(m) && length > 0 && atom in m && (kind == 0 || m[atom].kind == kind)
    ensures ReadAll(m, atom, kind, 0, length, delete) == (m[atom].value, if delete then m - {atom} else m)
  {
    ReadAllFrom(m, atom, kind, 0, length, delete);
    assert m[atom].value[0..] == m[atom].value;
  }

  /** A successful change reads back as the data, alone or before or behind the old value; nothing else moves. */
  lemma ChangedReadsBack(m: Store, c: ChangeRequest, length: U32)
    requires WellFormed(m) && length > 0 && ChangeError(m, c) == NoError
    ensures WellFormed(AfterChange(m, c)) && AfterChange(m, c) - {c.atom} == m - {c.atom}
    ensures ReadAll(AfterChange(m, c), c.atom, c.kind, 0, length, false).0 ==
            var data := c.data[..Stated(c)];
            if c.atom !in m || c.mode == REPLACE then data
            else if c.mode == PREPEND then data + m[c.atom].value
            else m[c.atom].value + data
  {
    ChangeKeepsWellFormed(m, c);
    ChunksReassemble(AfterChange(m, c), c.atom, c.kind, length, false);
  }

  /** An unknown mode is refused exactly when the property exists; a new one is stored like a replacement. */
  lemma UnknownModeRefusedIff(m: Store, c: ChangeRequest)
    requires Screen(c) == NoError && c.mode > APPEND
    ensures ChangeError(m, c) == ValueError <==> c.atom in m
  {
  }

  /** Mode 7 on a window without properties is no error: the byte is stored. */
  lemma UnknownModeStores()
    ensures var c := ChangeRequest(7, 1, 31, 8, 1, [65]);
            ChangeError(map[], c) == NoError && AfterChange(map[], c) == map[1 := Property(31, 8, [65])]
  {
    var c := ChangeRequest(7, 1, 31, 8, 1, [65]);
    assert Stated(c) == 1 && c.data[..1] == [65];
  }
}
