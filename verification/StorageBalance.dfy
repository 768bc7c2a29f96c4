/** Runtime storage over a run: what the cleanup slots hold, and what the frees before a return release. */
module StorageBalance {
  import opened Prelude
  import opened IR
  import opened Certificate
  import opened Target
  import opened LoweringSpec
  import opened LoweringExact

  /** Every pointer the allocator returned is freed exactly once, after it was allocated; nothing else but
      null is freed; and no store overwrites a slot that holds a pointer. */
  ghost predicate StorageBalanced(trace: seq<Event>) {
    && (forall k: nat :: multiset(trace)[Freed(Ptr(k))] == multiset(trace)[Allocated(Ptr(k))] <= 1)
    && (forall j :: 0 <= j < |trace| && trace[j].Freed? ==> trace[j].p != Garbage)
    && (forall j :: 0 <= j < |trace| && trace[j].Freed? && trace[j].p.Ptr? ==>
          exists i :: 0 <= i < j && trace[i] == Allocated(trace[j].p))
    && (forall j :: 0 <= j < |trace| && trace[j].Stored? ==> !trace[j].before.Ptr?)
  }

  ghost predicate Held(slots: seq<ValueId>, m: Machine, p: Pointer) {
    exists s :: s in slots && s in m.slots && m.slots[s] == p
  }

  /** No two slots hold the same pointer. */
  ghost predicate Unshared(slots: seq<ValueId>, m: Machine) {
    forall s, t ::
      s in slots && t in slots && s in m.slots && t in m.slots && m.slots[s] == m.slots[t] && m.slots[s].Ptr? ==> s == t
  }

  /** Every slot is initialised, and holds a pointer only if its declaration has run. */
  ghost predicate SlotsOk(slots: seq<ValueId>, c: Cert, m: Machine, b: nat, i: nat) {
    forall s :: s in slots ==>
      s in m.slots && m.slots[s] != Garbage && (m.slots[s].Ptr? ==> m.slots[s].call < m.calls && IsEarlier(c, s, b, i))
  }

  /** So far nothing was freed, no pointer was overwritten, and the live pointers are those the slots hold. */
  ghost predicate TraceOk(slots: seq<ValueId>, m: Machine) {
    && (forall j :: 0 <= j < |m.trace| ==> !m.trace[j].Freed? && (m.trace[j].Stored? ==> !m.trace[j].before.Ptr?))
    && (forall k: nat :: multiset(m.trace)[Allocated(Ptr(k))] == if Held(slots, m, Ptr(k)) then 1 else 0)
  }

  ghost predicate HeapOk(slots: seq<ValueId>, c: Cert, m: Machine, b: nat, i: nat) {
    SlotsOk(slots, c, m, b, i) && Unshared(slots, m) && TraceOk(slots, m)
  }

  lemma HeapLater(slots: seq<ValueId>, c: Cert, m: Machine, b: nat, i: nat, b': nat, i': nat)
    requires HeapOk(slots, c, m, b, i) && (b < b' || (b == b' && i <= i'))
    ensures HeapOk(slots, c, m, b', i')
  {
  }

  lemma HeapRegs(slots: seq<ValueId>, c: Cert, m: Machine, b: nat, i: nat, regs: map<ValueId, TVal>)
    requires HeapOk(slots, c, m, b, i)
    ensures HeapOk(slots, c, m.(regs := regs), b, i)
  {
    assert forall p :: Held(slots, m, p) <==> Held(slots, m.(regs := regs), p);
  }

  /** The machine after a tensor declaration has allocated `p` and recorded it in its own slot. */
  function AfterDeclaration(m: Machine, s: ValueId, p: Pointer): Machine
    requires s in m.slots
  {
    Machine(m.regs[s := TPointer(p)], m.slots[s := p], m.calls + 1, m.trace + [Allocated(p)]
            + [Stored(s, m.slots[s], p)])
  }

  lemma DeclarationKeepsHeap(slots: seq<ValueId>, c: Cert, m: Machine, b: nat, i: nat, s: ValueId, p: Pointer)
    requires HeapOk(slots, c, m, b, i) && s in slots && s < |c.at| && c.at[s] == Position(b, i)
    requires p == Null || p == Ptr(m.calls)
    ensures HeapOk(slots, c, AfterDeclaration(m, s, p), b, i + 1)
  {
    var m' := AfterDeclaration(m, s, p);
    assert !IsEarlier(c, s, b, i) && m.slots[s] == Null;
    forall k: nat ensures Held(slots, m', Ptr(k)) <==> Held(slots, m, Ptr(k)) || p == Ptr(k) {
      if Held(slots, m, Ptr(k)) {
        var t :| t in slots && t in m.slots && m.slots[t] == Ptr(k);
        assert t != s && m'.slots[t] == Ptr(k);
      }
      if p == Ptr(k) {
        assert m'.slots[s] == p;
      }
    }
    DeclarationCounts(slots, m, s, p);
  }

  lemma DeclarationCounts(slots: seq<ValueId>, m: Machine, s: ValueId, p: Pointer)
    requires s in m.slots && m.slots[s] == Null && TraceOk(slots, m)
    requires p == Null || (p == Ptr(m.calls) && !Held(slots, m, p))
    requires var m' := AfterDeclaration(m, s, p);
      forall k: nat :: Held(slots, m', Ptr(k)) <==> Held(slots, m, Ptr(k)) || p == Ptr(k)
    ensures TraceOk(slots, AfterDeclaration(m, s, p))
  {
    var m' := AfterDeclaration(m, s, p);
    var added := [Allocated(p)] + [Stored(s, Null, p)];
    assert m'.trace == m.trace + added;
    assert multiset(m'.trace) == multiset(m.trace) + multiset(added);
  }

  /** The prologue leaves every slot null. */
  function AfterPrologue(slots: seq<ValueId>, m: Machine): Machine {
    if slots == [] then m
    else AfterPrologue(slots[1..], StoreTo(m.(slots := m.slots[slots[0] := Garbage]), slots[0], Null))
  }

  lemma {:induction false} PrologueHeap(slots: seq<ValueId>, m: Machine)
    requires forall s :: s in m.slots ==> m.slots[s] == Null
    requires forall j :: 0 <= j < |m.trace| ==> m.trace[j].Stored? && m.trace[j].before == Garbage
    ensures var m' := AfterPrologue(slots, m);
      && (forall s :: s in slots || s in m.slots ==> s in m'.slots)
        && (forall s :: s in m'.slots ==> m'.slots[s] == Null)
      && (forall j :: 0 <= j < |m'.trace| ==> m'.trace[j].Stored? && m'.trace[j].before == Garbage)
      && m'.calls == m.calls && m'.regs == m.regs
    decreases |slots|
  {
    if slots != [] {
      PrologueHeap(slots[1..], StoreTo(m.(slots := m.slots[slots[0] := Garbage]), slots[0], Null));
    }
  }

  lemma StartHeap(slots: seq<ValueId>, c: Cert)
    ensures HeapOk(slots, c, AfterPrologue(slots, START), 0, 0) && AfterPrologue(slots, START).regs == map[]
  {
    PrologueHeap(slots, START);
    var m := AfterPrologue(slots, START);
    forall k: nat ensures multiset(m.trace)[Allocated(Ptr(k))] == 0 {
      assert Allocated(Ptr(k)) !in m.trace;
    }
  }

  function FreeEvents(order: seq<ValueId>, m: Machine): seq<Event>
    requires forall s :: s in order ==> s in m.slots
  {
    if order == [] then [] else [Freed(m.slots[order[0]])] + FreeEvents(order[1..], m)
  }

  lemma FreeEventsOnly(order: seq<ValueId>, m: Machine)
    requires forall s :: s in order ==> s in m.slots && m.slots[s] != Garbage
    ensures forall e :: e in FreeEvents(order, m) ==> e.Freed? && e.p != Garbage && Held(order, m, e.p)
  {
    if order != [] {
      FreeEventsOnly(order[1..], m);
      assert Held(order, m, m.slots[order[0]]);
      forall p | Held(order[1..], m, p) ensures Held(order, m, p) {
        var s :| s in order[1..] && s in m.slots && m.slots[s] == p;
        assert s in order;
      }
    }
  }

  lemma {:induction false} FreesOnce(order: seq<ValueId>, m: Machine, p: Pointer)
    requires forall s :: s in order ==> s in m.slots
    requires (forall i, j :: 0 <= i < j < |order| ==> order[i] != order[j]) && Unshared(order, m) && p.Ptr?
    ensures multiset(FreeEvents(order, m))[Freed(p)] == if Held(order, m, p) then 1 else 0
    decreases |order|
  {
    if order != [] {
      var rest := order[1..];
      FreesOnce(rest, m, p);
      assert order[0] !in rest;
      assert multiset(FreeEvents(order, m)) == multiset{Freed(m.slots[order[0]])} + multiset(FreeEvents(rest, m));
      if Held(rest, m, p) {
        var s :| s in rest && s in m.slots && m.slots[s] == p;
        assert s in order && order[0] in order;
      } else if m.slots[order[0]] == p {
        assert order[0] in order;
      }
    }
  }

  /** What the frees add to the number of times each pointer was allocated and freed. */
  lemma FreesCount(slots: seq<ValueId>, c: Cert, m: Machine, b: nat, i: nat, order: seq<ValueId>)
    requires HeapOk(slots, c, m, b, i) && IsEnumeration(order, SlotSet(slots))
    requires forall s :: s in order ==> s in m.slots
    ensures var trace := m.trace + FreeEvents(order, m);
      forall k: nat :: multiset(trace)[Freed(Ptr(k))] == multiset(trace)[Allocated(Ptr(k))] <= 1
  {
    assert forall s :: s in order <==> s in slots;
    var frees := FreeEvents(order, m);
    var trace := m.trace + frees;
    FreeEventsOnly(order, m);
    assert multiset(trace) == multiset(m.trace) + multiset(frees);
    forall k: nat
      ensures multiset(trace)[Freed(Ptr(k))] == multiset(trace)[Allocated(Ptr(k))] <= 1
    {
      FreesOnce(order, m, Ptr(k));
      assert Held(order, m, Ptr(k)) <==> Held(slots, m, Ptr(k));
      assert Freed(Ptr(k)) !in m.trace && Allocated(Ptr(k)) !in frees;
    }
  }

  /** Freeing every slot once, in any order, balances the run. */
  lemma FreesBalance(slots: seq<ValueId>, c: Cert, m: Machine, b: nat, i: nat, order: seq<ValueId>)
    requires HeapOk(slots, c, m, b, i) && IsEnumeration(order, SlotSet(slots))
    ensures forall s :: s in order ==> s in m.slots && m.slots[s] != Garbage
    ensures StorageBalanced(m.trace + FreeEvents(order, m))
  {
    assert forall s :: s in order <==> s in slots;
    var frees := FreeEvents(order, m);
    var trace := m.trace + frees;
    FreeEventsOnly(order, m);
    FreesCount(slots, c, m, b, i, order);
    forall j | 0 <= j < |trace| && trace[j].Freed? && trace[j].p.Ptr?
      ensures exists i :: 0 <= i < j && trace[i] == Allocated(trace[j].p)
    {
      assert |m.trace| <= j && trace[j] in frees && Held(order, m, trace[j].p);
      assert Held(slots, m, trace[j].p);
      assert Allocated(trace[j].p) in multiset(m.trace);
      var i :| 0 <= i < |m.trace| && m.trace[i] == Allocated(trace[j].p);
      assert trace[i] == m.trace[i];
    }
    forall j | 0 <= j < |trace|
      ensures trace[j].Freed? ==> trace[j].p != Garbage
      ensures trace[j].Stored? ==> !trace[j].before.Ptr?
    {
      if |m.trace| <= j {
        assert trace[j] in frees;
      }
    }
  }
}
