/** _Block_release, its cascade and scope exits keep the counting invariant. */
module BlockReleasing {
  import opened BlockMemory
  import opened BlockCounting
  import opened BlockCopying

  lemma {:induction false} ReferencesAtLeastBelow(m: Memory, n: nat, a: Addr, p: Addr)
    requires a < n
    ensures ReferencesBelow(m, n, p) >= HeldAt(m, a)[p]
  {
    if a < n - 1 {
      ReferencesAtLeastBelow(m, n - 1, a, p);
    }
  }

  /** An object without references is held by nobody. */
  lemma UnreferencedIsNotHeld(m: Memory, p: Addr)
    requires Shape(m) && References(m, p) == 0
    ensures forall a :: p !in HeldAt(m, a)
  {
    forall a
      ensures p !in HeldAt(m, a)
    {
      if a in m.objects {
        ReferencesAtLeastBelow(m, m.next, a, p);
      }
    }
  }

  lemma {:induction false} FieldIsTarget(fields: seq<Field>, i: nat)
    requires i < |fields| && fields[i].kind != FIELD_IS_OBJECT
    ensures fields[i].ptr in Targets(fields)
  {
    if i > 0 {
      FieldIsTarget(fields[1..], i - 1);
    }
  }

  /** Fields of live blocks and forwarding pointers stay good when an unreferenced object changes. */
  lemma UntouchedObject(m: Memory, m': Memory, p: Addr, x: Addr)
    requires Shape(m) && References(m, p) == 0
    requires x != p && x in m.objects && x in m'.objects && m'.objects[x] == m.objects[x]
    requires forall y :: y != p && y in m.objects ==> y in m'.objects && m'.objects[y] == m.objects[y]
    ensures GoodObject(m', x)
  {
    assert GoodObject(m, x);
    UnreferencedIsNotHeld(m, p);
    assert p !in HeldAt(m, x);
    match m.objects[x]
    case Block(_, literal, fields) =>
      if Live(m.objects[x]) {
        forall i | 0 <= i < |fields|
          ensures GoodField(m', fields[i], literal)
        {
          assert GoodField(m, fields[i], literal);
          if fields[i].kind != FIELD_IS_OBJECT {
            FieldIsTarget(fields, i);
          }
        }
      }
    case Byref(_, forwarding, _, _) =>
      assert forwarding != p;
  }

  /** Any change confined to an unreferenced object keeps the shape of the rest. */
  lemma UnreferencedChange(m: Memory, m': Memory, p: Addr)
    requires Shape(m) && References(m, p) == 0 && m'.next == m.next && p in m.objects
    requires forall y :: y != p && y in m.objects ==> y in m'.objects && m'.objects[y] == m.objects[y]
    requires forall y :: y in m'.objects ==> y in m.objects
    requires p in m'.objects ==> m'.objects[p].Block? && GoodObject(m', p)
    ensures Shape(m')
  {
    forall x | x in m'.objects
      ensures GoodObject(m', x)
    {
      if x != p {
        UntouchedObject(m, m', p, x);
      }
    }
  }

  // ------------------------------------------------------ what releasing does

  /**
   * Releasing only lowers counts and takes live objects away; no object it
   * leaves behind is without a reference unless it already was.
   */
  ghost predicate Shrinks(m: Memory, m': Memory) {
    && m'.next == m.next
    && (forall x :: x in m'.objects ==>
          && x in m.objects
          && m'.objects[x] == WithFlags(m.objects[x], m.objects[x].flags.(count := m'.objects[x].flags.count))
          && m'.objects[x].flags.count <= m.objects[x].flags.count
          && (m'.objects[x].flags.count == 0 ==> m.objects[x].flags.count == 0))
    && (forall x :: x in m.objects ==> x in m'.objects || Live(m.objects[x]))
  }

  lemma ShrinksTransitive(m: Memory, m1: Memory, m2: Memory)
    requires Shrinks(m, m1) && Shrinks(m1, m2)
    ensures Shrinks(m, m2)
  {
  }

  /** An outside reference given up while others remain, or the count is latched. */
  lemma DecrementInv(m: Memory, outside: multiset<Addr>, a: Addr)
    requires Inv(m, outside) && a in outside && a in m.objects && Live(m.objects[a])
    requires LatchingDecr(m.objects[a].flags).1 > 0
    ensures var m' := Put(m, a, WithFlags(m.objects[a], LatchingDecr(m.objects[a].flags).0));
      Inv(m', outside - multiset{a}) && Shrinks(m, m')
  {
    var count := LatchingDecr(m.objects[a].flags).0.count;
    assert GoodObject(m, a);
    assert Put(m, a, WithFlags(m.objects[a], LatchingDecr(m.objects[a].flags).0)) == Recount(m, a, count);
    RecountShape(m, a, count);
    RecountShrinks(m, a, count);
    assert forall p :: p in outside - multiset{a} ==> p in outside;
  }

  lemma RecountShrinks(m: Memory, a: Addr, count: nat)
    requires a in m.objects && 0 < count <= m.objects[a].flags.count
    ensures Shrinks(m, Recount(m, a, count))
  {
  }

  lemma LastReference(m: Memory, outside: multiset<Addr>, a: Addr)
    requires Inv(m, outside) && a in outside && a in m.objects && Live(m.objects[a])
    requires m.objects[a].flags.count == 1
    ensures References(m, a) == 0 && outside[a] == 1
  {
  }

  /** The last reference is gone: what the dying block held is now held by its disposer. */
  lemma LastReleaseInv(m: Memory, outside: multiset<Addr>, a: Addr)
    requires Inv(m, outside) && a in outside && IsBlock(m, a) && Live(m.objects[a])
    requires m.objects[a].flags.count == 1
    ensures Inv(Recount(m, a, 0), outside - multiset{a} + Targets(m.objects[a].fields))
  {
    var m1 := Recount(m, a, 0);
    LastReference(m, outside, a);
    assert GoodObject(m, a);
    UnreferencedChange(m, m1, a);
    LastReleaseCounted(m, outside, a);
    LastReleaseRefs(m, outside, a);
  }

  lemma LastReleaseCounted(m: Memory, outside: multiset<Addr>, a: Addr)
    requires Inv(m, outside) && a in outside && IsBlock(m, a) && Live(m.objects[a])
    requires m.objects[a].flags.count == 1
    ensures Counted(Recount(m, a, 0), outside - multiset{a} + Targets(m.objects[a].fields))
  {
    var m1 := Recount(m, a, 0);
    LastReference(m, outside, a);
    UnreferencedIsNotHeld(m, a);
    ReferencesUpdate(m, m1, a);
    assert HeldAt(m, a) == Targets(m.objects[a].fields) && HeldAt(m1, a) == multiset{};
  }

  lemma LastReleaseRefs(m: Memory, outside: multiset<Addr>, a: Addr)
    requires Inv(m, outside) && a in outside && IsBlock(m, a) && Live(m.objects[a])
    requires m.objects[a].flags.count == 1
    ensures GoodRefs(Recount(m, a, 0), outside - multiset{a} + Targets(m.objects[a].fields))
  {
    LastReference(m, outside, a);
    UnreferencedIsNotHeld(m, a);
    forall p | p in outside - multiset{a} + Targets(m.objects[a].fields)
      ensures GoodRef(Recount(m, a, 0), p)
    {
      if p in Targets(m.objects[a].fields) {
        assert p in HeldAt(m, a);
        HeldIsGood(m, a, p);
        assert p != a;
      } else {
        assert p in outside && p != a;
      }
    }
  }

  /** Taking an object away that nothing refers to. */
  lemma FreeInv(m: Memory, outside: multiset<Addr>, a: Addr)
    requires Inv(m, outside) && a in m.objects && !m.objects[a].flags.isGlobal
    requires References(m, a) == 0 && a !in outside && HeldAt(m, a) == multiset{}
    ensures Inv(Free(m, a), outside)
  {
    var m' := Free(m, a);
    ReferencesSame(m, m', a);
    UnreferencedChange(m, m', a);
    forall p | p in outside
      ensures GoodRef(m', p)
    {
      assert GoodRef(m, p);
    }
  }

  // -------------------------------------------------------------- byrefs

  lemma ByrefReleaseInv(m: Memory, outside: multiset<Addr>, a: Addr)
    requires Inv(m, outside) && a in outside && IsByref(m, a)
    ensures Inv(ByrefRelease(m, a), outside - multiset{a}) && Shrinks(m, ByrefRelease(m, a))
  {
    assert GoodRef(m, a) && GoodObject(m, a);
    if m.objects[a].flags.count == 1 {
      ByrefLastRelease(m, outside, a);
    } else {
      DecrementInv(m, outside, a);
    }
  }

  /**
   * A byref is released through any holder of the variable, on the stack or the
   * heap: the shared cell loses one reference, and is freed exactly when it was
   * the last one.
   */
  lemma ReleaseThroughHolder(m: Memory, outside: multiset<Addr>, x: Addr)
    requires Inv(m, outside) && IsByref(m, x) && m.objects[x].forwarding in outside
    ensures var d, m' := m.objects[x].forwarding, ByrefRelease(m, x);
      && IsByref(m, d) && Inv(m', outside - multiset{d}) && Shrinks(m, m')
      && (d !in m'.objects <==> m.objects[d].flags.count != MASK && References(m, d) + outside[d] == 1)
      && (d in m'.objects ==>
            m'.objects[d].flags.count == m.objects[d].flags.count - if m.objects[d].flags.count == MASK then 0 else 1)
  {
    var d := m.objects[x].forwarding;
    assert GoodObject(m, x) && GoodRef(m, d) && GoodObject(m, d);
    assert ByrefRelease(m, x) == ByrefRelease(m, d);
    ByrefReleaseInv(m, outside, d);
  }

  lemma ByrefLastResult(m: Memory, a: Addr)
    requires IsByref(m, a) && GoodObject(m, a) && Live(m.objects[a]) && m.objects[a].flags.count == 1
    ensures ByrefRelease(m, a) == Free(m, a)
  {
    var o := m.objects[a];
    assert Free(Put(m, a, WithFlags(o, LatchingDecr(o.flags).0)), a) == Free(m, a);
  }

  lemma FreeShrinks(m: Memory, a: Addr)
    requires a in m.objects && Live(m.objects[a])
    ensures Shrinks(m, Free(m, a))
  {
  }

  lemma ByrefLastShape(m: Memory, outside: multiset<Addr>, a: Addr)
    requires Inv(m, outside) && a in outside && IsByref(m, a) && m.objects[a].flags.count == 1
    ensures Live(m.objects[a]) && GoodObject(m, a) && References(m, a) == 0 && outside[a] == 1
    ensures Shape(Free(m, a)) && HeldAt(m, a) == HeldAt(Free(m, a), a)
  {
    assert GoodObject(m, a) && GoodRef(m, a);
    LastReference(m, outside, a);
    UnreferencedChange(m, Free(m, a), a);
  }

  lemma FreeRefs(m: Memory, outside: multiset<Addr>, a: Addr)
    requires GoodRefs(m, outside) && outside[a] == 1
    ensures GoodRefs(Free(m, a), outside - multiset{a})
  {
    forall p | p in outside - multiset{a}
      ensures GoodRef(Free(m, a), p)
    {
      assert p in outside && GoodRef(m, p);
    }
  }

  lemma ByrefLastRelease(m: Memory, outside: multiset<Addr>, a: Addr)
    requires Inv(m, outside) && a in outside && IsByref(m, a) && m.objects[a].flags.count == 1
    ensures ByrefRelease(m, a) == Free(m, a)
    ensures Inv(Free(m, a), outside - multiset{a}) && Shrinks(m, Free(m, a))
  {
    hide ByrefRelease, Shrinks, Shape, GoodObject, GoodRefs, References, Held;
    var m' := Free(m, a);
    ByrefLastShape(m, outside, a);
    ByrefLastResult(m, a);
    FreeShrinks(m, a);
    ShapeAddressed(m);
    ReferencesSame(m, m', a);
    FreeRefs(m, outside, a);
  }

  lemma ShapeAddressed(m: Memory)
    requires Shape(m)
    ensures Addressed(m)
  {
  }

  // -------------------------------------------------------------- the cascade

  /** The fields name what their kinds say. */
  ghost predicate Typed(m: Memory, fields: seq<Field>) {
    forall i :: 0 <= i < |fields| ==>
      && BlockHelperKind(fields[i].kind)
      && (IsByrefKind(fields[i].kind) ==> IsByref(m, fields[i].ptr))
      && (fields[i].kind == FIELD_IS_BLOCK ==> fields[i].ptr == 0 || IsBlock(m, fields[i].ptr))
  }

  lemma TypedShrinks(m: Memory, m': Memory, outside: multiset<Addr>, fields: seq<Field>)
    requires Typed(m, fields) && Shrinks(m, m') && GoodRefs(m', outside + Targets(fields))
    requires Addressed(m)
    ensures Typed(m', fields)
  {
    forall i | 0 <= i < |fields| && fields[i].kind != FIELD_IS_OBJECT
      ensures fields[i].ptr == 0 || fields[i].ptr in m'.objects
    {
      FieldIsTarget(fields, i);
      assert fields[i].ptr in outside + Targets(fields);
    }
  }

  /** _Block_release gives up one counted reference; whatever it was the last reference to goes too. */
  lemma {:induction false} ReleaseBlockInv(m: Memory, outside: multiset<Addr>, a: Addr)
    requires Inv(m, outside) && a in outside && (a == 0 || IsBlock(m, a))
    ensures Inv(ReleaseBlock(m, a), outside - multiset{a}) && Shrinks(m, ReleaseBlock(m, a))
    decreases NonZero(m), 0
  {
    assert GoodRef(m, a);
    if a == 0 || m.objects[a].flags.isGlobal {
      assert forall p :: p in outside - multiset{a} ==> p in outside;
      if a != 0 {
        assert GoodObject(m, a);
        assert Put(m, a, m.objects[a]) == m;
      } else {
        assert a !in m.objects;
      }
    } else if m.objects[a].flags.count > 1 {
      DecrementInv(m, outside, a);
    } else {
      LastReleaseInv(m, outside, a);
      var m1 := Recount(m, a, 0);
      var fields := m.objects[a].fields;
      assert GoodObject(m, a);
      assert a in NonZero(m) && a !in NonZero(m1);
      TypedByLife(m, a);
      DisposeFieldsInv(m1, outside - multiset{a}, fields);
      CascadeResult(m, a);
      FinishRelease(m, outside, a, DisposeFields(m1, fields));
    }
  }

  lemma TypedByLife(m: Memory, a: Addr)
    requires Shape(m) && IsBlock(m, a) && Live(m.objects[a])
    ensures Typed(Recount(m, a, 0), m.objects[a].fields)
  {
    assert GoodObject(m, a);
    var fields, literal := m.objects[a].fields, m.objects[a].literal;
    forall i | 0 <= i < |fields|
      ensures GoodField(m, fields[i], literal) && BlockHelperKind(fields[i].kind)
    {
    }
  }

  lemma CascadeResult(m: Memory, a: Addr)
    requires a != 0 && IsBlock(m, a) && GoodObject(m, a) && Live(m.objects[a]) && m.objects[a].flags.count == 1
    ensures ReleaseBlock(m, a) == Free(DisposeFields(Recount(m, a, 0), m.objects[a].fields), a)
  {
  }

  lemma FinishShrinks(m: Memory, a: Addr, m2: Memory)
    requires a in m.objects && Live(m.objects[a]) && Shrinks(Recount(m, a, 0), m2)
    ensures Shrinks(m, Free(m2, a))
    ensures a in m2.objects && m2.objects[a] == Recount(m, a, 0).objects[a]
  {
    assert a in Recount(m, a, 0).objects;
  }

  lemma FinishRelease(m: Memory, outside: multiset<Addr>, a: Addr, m2: Memory)
    requires Inv(m, outside) && a in outside && IsBlock(m, a) && Live(m.objects[a])
    requires m.objects[a].flags.count == 1
    requires Inv(m2, outside - multiset{a}) && Shrinks(Recount(m, a, 0), m2)
    ensures Inv(Free(m2, a), outside - multiset{a}) && Shrinks(m, Free(m2, a))
  {
    FinishShrinks(m, a, m2);
    assert outside[a] == 1 by {
      LastReference(m, outside, a);
    }
    assert Recount(m, a, 0).objects[a].flags.needsFree;
    assert GoodObject(m2, a);
    FreeInv(m2, outside - multiset{a}, a);
  }

  lemma ShrinksNot(m: Memory)
    ensures Shrinks(m, m)
  {
  }

  lemma {:induction false} ObjectDisposeInv(m: Memory, outside: multiset<Addr>, f: Field)
    requires Typed(m, [f]) && Inv(m, outside + Targets([f]))
    ensures Inv(ObjectDispose(m, f), outside) && Shrinks(m, ObjectDispose(m, f))
    decreases NonZero(m), 1
  {
    hide Inv, Shrinks, ByrefRelease, ReleaseBlock;
    assert [f][0] == f && [f][1..] == [];
    assert Targets([f]) == (if f.kind == FIELD_IS_OBJECT then multiset{} else multiset{f.ptr}) + Targets([]);
    var held := outside + Targets([f]);
    if f.kind == FIELD_IS_OBJECT {
      assert held == outside;
      ShrinksNot(m);
    } else {
      assert held - multiset{f.ptr} == outside;
      if IsByrefKind(f.kind) {
        ByrefReleaseInv(m, held, f.ptr);
      } else {
        ReleaseBlockInv(m, held, f.ptr);
      }
    }
  }

  lemma FirstTarget(outside: multiset<Addr>, fields: seq<Field>)
    requires fields != []
    ensures outside + Targets(fields) == outside + Targets(fields[1..]) + Targets([fields[0]])
  {
    assert [fields[0]][1..] == [];
  }

  lemma {:induction false} DisposeFieldsInv(m: Memory, outside: multiset<Addr>, fields: seq<Field>)
    requires Typed(m, fields) && Inv(m, outside + Targets(fields))
    ensures Inv(DisposeFields(m, fields), outside) && Shrinks(m, DisposeFields(m, fields))
    decreases NonZero(m), |fields| + 2
  {
    hide Inv, Typed, Shrinks, ObjectDispose;
    if fields == [] {
      ShrinksNot(m);
      assert outside + multiset{} == outside;
    } else {
      var f, rest := fields[0], fields[1..];
      var m1 := ObjectDispose(m, f);
      FirstTarget(outside, fields);
      TypedSplit(m, fields);
      ObjectDisposeInv(m, outside + Targets(rest), f);
      InvParts(m, outside + Targets(fields));
      InvParts(m1, outside + Targets(rest));
      TypedShrinks(m, m1, outside, rest);
      DisposeFieldsInv(m1, outside, rest);
      ShrinksTransitive(m, m1, DisposeFields(m1, rest));
    }
  }

  lemma InvParts(m: Memory, outside: multiset<Addr>)
    requires Inv(m, outside)
    ensures Addressed(m) && GoodRefs(m, outside)
  {
  }

  lemma TypedSplit(m: Memory, fields: seq<Field>)
    requires Typed(m, fields) && fields != []
    ensures Typed(m, [fields[0]]) && Typed(m, fields[1..])
  {
    assert [fields[0]][0] == fields[0];
  }
}
