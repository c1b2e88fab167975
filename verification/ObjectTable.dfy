/**
 The per-connection object-id table (src/protocol/isz_conn.c): ids count up from 1 in 32 bits, skipping 0;
 removal moves the last entry into the gap; lookup is a linear scan.
 */
module ObjectTable {
  import opened Options

  const ID_LIMIT := 0x1_0000_0000

  datatype Object = Object(handle: nat, kind: int)

  datatype Entry = Entry(id: nat, item: Object)

  datatype State = State(entries: seq<Entry>, nextId: nat)

  datatype Op = Register(item: Object) | Unregister(id: nat)

  const START := State([], 1)

  // ---- the table ----

  /** The first entry with this id, from entry i on. */
  function Find(t: seq<Entry>, id: nat, i: nat): (r: Option<nat>)
    requires i <= |t|
    ensures r.Some? ==> i <= r.value < |t| && t[r.value].id == id
    ensures r.None? ==> forall k :: i <= k < |t| ==> t[k].id != id
    decreases |t| - i
  {
    if i == |t| then None else if t[i].id == id then Some(i) else Find(t, id, i + 1)
  }

  function Lookup(t: seq<Entry>, id: nat, kind: int): Option<nat> {
    if id == 0 then None
    else match Find(t, id, 0)
      case None => None
      case Some(i) => if t[i].item.kind == kind then Some(t[i].item.handle) else None
  }

  /** One more in 32 bits, skipping the sentinel 0. */
  function Successor(id: nat): nat {
    var n := (id + 1) % ID_LIMIT;
    if n == 0 then 1 else n
  }

  function SwapRemove(t: seq<Entry>, i: nat): seq<Entry>
    requires i < |t|
  {
    t[i := t[|t| - 1]][..|t| - 1]
  }

  function Next(s: State, op: Op): State {
    match op
    case Register(o) => State(s.entries + [Entry(s.nextId, o)], Successor(s.nextId))
    case Unregister(id) =>
      if id == 0 then s
      else match Find(s.entries, id, 0)
        case None => s
        case Some(i) => s.(entries := SwapRemove(s.entries, i))
  }

  function Run(ops: seq<Op>): State {
    if ops == [] then START else Next(Run(ops[..|ops| - 1]), ops[|ops| - 1])
  }

  // ---- the history ----

  /** How many registrations there were; the n-th one is promised the id n. */
  function Registrations(ops: seq<Op>): nat {
    if ops == [] then 0
    else Registrations(ops[..|ops| - 1]) + (if ops[|ops| - 1].Register? then 1 else 0)
  }

  /** The objects registered and not unregistered since, by the number of their registration. */
  function Live(ops: seq<Op>): map<nat, Object> {
    if ops == [] then map[]
    else
      var before := Live(ops[..|ops| - 1]);
      match ops[|ops| - 1]
      case Register(o) => before[Registrations(ops) := o]
      case Unregister(id) => before - {id}
  }

  /** The entries are exactly the pairs of m, each id once and none of them 0. */
  ghost predicate Refines(t: seq<Entry>, m: map<nat, Object>) {
    (forall i, j :: 0 <= i < j < |t| ==> t[i].id != t[j].id) &&
    (forall i :: 0 <= i < |t| ==> t[i].id != 0 && t[i].id in m && m[t[i].id] == t[i].item) &&
    (forall id :: id in m ==> exists i :: 0 <= i < |t| && t[i].id == id)
  }

  lemma LookupIsMapLookup(t: seq<Entry>, m: map<nat, Object>, id: nat, kind: int)
    requires Refines(t, m)
    ensures Lookup(t, id, kind) == if id in m && m[id].kind == kind then Some(m[id].handle) else None
  {
  }

  /** A registration is safe exactly when its id is not in use. */
  lemma RegisterRefinesIff(s: State, m: map<nat, Object>, o: Object)
    requires Refines(s.entries, m) && s.nextId != 0
    ensures Refines(Next(s, Register(o)).entries, m[s.nextId := o]) <==> s.nextId !in m
  {
    var t, u, m' := s.entries, s.entries + [Entry(s.nextId, o)], m[s.nextId := o];
    if s.nextId in m {
      var i :| 0 <= i < |t| && t[i].id == s.nextId;
      assert u[i].id == u[|t|].id;
    } else {
      forall id | id in m' ensures exists i :: 0 <= i < |u| && u[i].id == id {
        if id == s.nextId {
          assert u[|t|].id == id;
        } else {
          var i :| 0 <= i < |t| && t[i].id == id;
          assert u[i].id == id;
        }
      }
    }
  }

  lemma SwapRemoveRefines(t: seq<Entry>, m: map<nat, Object>, i: nat)
    requires Refines(t, m) && i < |t|
    ensures Refines(SwapRemove(t, i), m - {t[i].id})
  {
    var u, n := SwapRemove(t, i), |t| - 1;
    assert forall k :: 0 <= k < n ==> u[k] == if k == i then t[n] else t[k];
    forall id | id in m - {t[i].id} ensures exists k :: 0 <= k < |u| && u[k].id == id {
      var k :| 0 <= k < |t| && t[k].id == id;
      assert u[if k == n then i else k].id == id;
    }
  }

  lemma UnregisterRefines(s: State, m: map<nat, Object>, id: nat)
    requires Refines(s.entries, m)
    ensures Refines(Next(s, Unregister(id)).entries, m - {id})
  {
    var i := Find(s.entries, id, 0);
    if i.Some? {
      SwapRemoveRefines(s.entries, m, i.value);
    } else {
      assert m - {id} == m;
    }
  }

  lemma {:induction false} LiveIdsWereGiven(ops: seq<Op>, id: nat)
    requires id in Live(ops)
    ensures 1 <= id <= Registrations(ops)
  {
    var before := ops[..|ops| - 1];
    if id in Live(before) {
      LiveIdsWereGiven(before, id);
    }
  }

  lemma RegistrationRefines(before: seq<Op>, o: Object)
    requires Registrations(before) < ID_LIMIT - 1 && Refines(Run(before).entries, Live(before))
    ensures Refines(Next(Run(before), Register(o)).entries, Live(before)[Registrations(before) + 1 := o])
  {
    var id := Run(before).nextId;
    NextIdIs(before);
    if id in Live(before) {
      LiveIdsWereGiven(before, id);
    }
    RegisterRefinesIff(Run(before), Live(before), o);
  }

  /** In every run of fewer than 2^32 registrations the table is the map of live objects by registration number. */
  lemma {:induction false} TableIsLiveMap(ops: seq<Op>)
    requires Registrations(ops) < ID_LIMIT
    ensures Refines(Run(ops).entries, Live(ops))
  {
    if ops != [] {
      var before, op := ops[..|ops| - 1], ops[|ops| - 1];
      TableIsLiveMap(before);
      assert Run(ops) == Next(Run(before), op);
      match op
      case Register(o) => RegistrationRefines(before, o);
      case Unregister(id) => UnregisterRefines(Run(before), Live(before), id);
    }
  }

  /**
   The n-th registration gets the id n, which no earlier registration had, and lookup finds exactly the
   live objects, with their kind.
   */
  lemma IdsAreNeverReused(ops: seq<Op>, id: nat, kind: int)
    requires Registrations(ops) < ID_LIMIT - 1
    ensures Run(ops).nextId == Registrations(ops) + 1 && Run(ops).nextId !in Live(ops)
    ensures Lookup(Run(ops).entries, id, kind) ==
            if id in Live(ops) && Live(ops)[id].kind == kind then Some(Live(ops)[id].handle) else None
  {
    TableIsLiveMap(ops);
    IdsIncreaseIff(ops);
    LookupIsMapLookup(Run(ops).entries, Live(ops), id, kind);
    if Run(ops).nextId in Live(ops) {
      LiveIdsWereGiven(ops, Run(ops).nextId);
    }
  }

  // ---- where the ids run out ----

  /** The id that the next registration gets, in every run: the counter wraps from 2^32 - 1 to 1. */
  lemma {:induction false} NextIdIs(ops: seq<Op>)
    ensures Run(ops).nextId == Registrations(ops) % (ID_LIMIT - 1) + 1
  {
    if ops != [] {
      NextIdIs(ops[..|ops| - 1]);
      WrappedSuccessor(Registrations(ops[..|ops| - 1]));
    }
  }

  lemma WrappedSuccessor(n: nat)
    ensures Successor(n % (ID_LIMIT - 1) + 1) == (n + 1) % (ID_LIMIT - 1) + 1
  {
    var m := ID_LIMIT - 1;
    var q, r := n / m, n % m;
    assert n == q * m + r;
    if r + 1 < m {
      assert n + 1 == q * m + (r + 1);
      Remainder(q, r + 1);
    } else {
      assert n + 1 == (q + 1) * m + 0;
      Remainder(q + 1, 0);
    }
  }

  lemma Remainder(q: nat, r: nat)
    requires r < ID_LIMIT - 1
    ensures (q * (ID_LIMIT - 1) + r) % (ID_LIMIT - 1) == r
  {
  }

  /** Ids are registration numbers, and so never repeat, exactly while there are fewer than 2^32 - 1 of them. */
  lemma IdsIncreaseIff(ops: seq<Op>)
    ensures Run(ops).nextId == Registrations(ops) + 1 <==> Registrations(ops) < 0xFFFF_FFFF
  {
    NextIdIs(ops);
  }

  const KEPT := Object(7, 1)

  const PASSING := Object(8, 1)

  /** One object stays registered while n others come and go, one after the other. */
  function Churn(n: nat): seq<Op> {
    if n == 0 then [Register(KEPT)] else Churn(n - 1) + [Register(PASSING), Unregister(n + 1)]
  }

  lemma Snoc(ops: seq<Op>, op: Op)
    ensures Registrations(ops + [op]) == Registrations(ops) + if op.Register? then 1 else 0
    ensures Live(ops + [op]) ==
            if op.Register? then Live(ops)[Registrations(ops) + 1 := op.item] else Live(ops) - {op.id}
  {
    assert (ops + [op])[..|ops|] == ops;
  }

  /** An object that comes and goes leaves only its number behind. */
  lemma ComeAndGo(ops: seq<Op>, o: Object)
    ensures var after := ops + [Register(o), Unregister(Registrations(ops) + 1)];
            Registrations(after) == Registrations(ops) + 1 && Live(after) == Live(ops)
  {
    var id := Registrations(ops) + 1;
    Snoc(ops, Register(o));
    Snoc(ops + [Register(o)], Unregister(id));
    assert ops + [Register(o), Unregister(id)] == ops + [Register(o)] + [Unregister(id)];
    if id in Live(ops) {
      LiveIdsWereGiven(ops, id);
    }
    assert Live(ops)[id := o] - {id} == Live(ops);
  }

  lemma FirstOfChurn()
    ensures Registrations(Churn(0)) == 1 && Live(Churn(0)) == map[1 := KEPT]
  {
    Snoc([], Register(KEPT));
    assert [] + [Register(KEPT)] == Churn(0);
  }

  lemma {:induction false} AfterChurn(n: nat)
    ensures Registrations(Churn(n)) == n + 1 && Live(Churn(n)) == map[1 := KEPT]
  {
    if n == 0 {
      FirstOfChurn();
    } else {
      AfterChurn(n - 1);
      ComeAndGo(Churn(n - 1), PASSING);
    }
  }

  lemma FirstTwoDiffer(t: seq<Entry>, m: map<nat, Object>)
    requires Refines(t, m) && |t| > 1
    ensures t[0].id != t[1].id && t[0].id in m && t[1].id in m
  {
  }

  lemma OneLiveObject(t: seq<Entry>, o: Object)
    requires Refines(t, map[1 := o])
    ensures t == [Entry(1, o)]
  {
    var m := map[1 := o];
    assert 1 in m;
    if |t| > 1 {
      FirstTwoDiffer(t, m);
      assert false;
    }
  }

  /**
   With one object registered throughout and never more than two, the counter comes round to its id:
   the next registration makes a second entry 1, which lookup does not reach.
   */
  lemma WrapReusesLiveId()
    ensures var s := Run(Churn(ID_LIMIT - 2));
            s == State([Entry(1, KEPT)], 1) &&
            Next(s, Register(PASSING)).entries == [Entry(1, KEPT), Entry(1, PASSING)] &&
            Lookup(Next(s, Register(PASSING)).entries, 1, 1) == Some(KEPT.handle)
  {
    var ops := Churn(ID_LIMIT - 2);
    AfterChurn(ID_LIMIT - 2);
    NextIdIs(ops);
    TableIsLiveMap(ops);
    OneLiveObject(Run(ops).entries, KEPT);
  }

  // ---- the array ----

  class Objects {
    var objects: array<Entry>
    var count: nat
    var nextId: nat

    ghost predicate Valid()
      reads this
    {
      count <= objects.Length && 1 <= nextId < ID_LIMIT
    }

    ghost function View(): State
      requires Valid()
      reads this, objects
    {
      State(objects[..count], nextId)
    }

    constructor ()
      ensures Valid() && View() == START && fresh(objects)
    {
      objects := new Entry[0];
      count, nextId := 0, 1;
    }

    /** Doubles the capacity, keeping the entries. */
    method Grow()
      requires Valid()
      modifies this`objects
      ensures Valid() && View() == old(View()) && fresh(objects) && count < objects.Length
    {
      var capacity := if objects.Length > 0 then objects.Length * 2 else 8;
      var grown := new Entry[capacity](i => Entry(0, Object(0, 0)));
      for i := 0 to count
        invariant objects == old(objects) && grown[..i] == objects[..i]
      {
        grown[i] := objects[i];
      }
      objects := grown;
    }

    /** Returns 0, and changes nothing, when the table has to grow and there is no memory. */
    method RegisterObject(o: Object, memory: bool) returns (id: nat)
      requires Valid()
      modifies this, objects
      ensures Valid() && (objects == old(objects) || fresh(objects))
      ensures id == 0 <==> old(count) == old(objects.Length) && !memory
      ensures id == 0 ==> View() == old(View())
      ensures id != 0 ==> id == old(nextId) && View() == Next(old(View()), Register(o))
    {
      if count == objects.Length {
        if !memory {
          return 0;
        }
        Grow();
      }
      id := nextId;
      nextId := (nextId + 1) % ID_LIMIT;
      if nextId == 0 {
        nextId := 1;
      }
      objects[count] := Entry(id, o);
      count := count + 1;
    }

    method LookupObject(id: nat, kind: int) returns (r: Option<nat>)
      requires Valid()
      ensures r == Lookup(objects[..count], id, kind)
    {
      if id == 0 {
        return None;
      }
      for i := 0 to count
        invariant Find(objects[..count], id, 0) == Find(objects[..count], id, i)
      {
        if objects[i].id == id {
          return if objects[i].item.kind != kind then None else Some(objects[i].item.handle);
        }
      }
      return None;
    }

    method UnregisterObject(id: nat)
      requires Valid()
      modifies this`count, objects
      ensures Valid() && View() == Next(old(View()), Unregister(id))
    {
      if id == 0 {
        return;
      }
      for i := 0 to count
        invariant View() == old(View())
        invariant Find(objects[..count], id, 0) == Find(objects[..count], id, i)
      {
        if objects[i].id == id {
          count := count - 1;
          if i != count {
            objects[i] := objects[count];
          }
          assert objects[..count] == SwapRemove(old(objects[..count]), i);
          return;
        }
      }
    }
  }
}
