/** _Block_copy and what it pulls onto the heap keep the counting invariant. */
module BlockCopying {
  import opened BlockMemory
  import opened BlockCounting

  lemma {:induction false} TargetOfField(fields: seq<Field>, p: Addr) returns (i: nat)
    requires p in Targets(fields)
    ensures i < |fields| && fields[i].ptr == p && fields[i].kind != FIELD_IS_OBJECT
  {
    if fields[0].kind != FIELD_IS_OBJECT && fields[0].ptr == p {
      i := 0;
    } else {
      i := TargetOfField(fields[1..], p);
      i := i + 1;
    }
  }

  lemma HeldIsGood(m: Memory, a: Addr, p: Addr)
    requires Shape(m) && p in HeldAt(m, a)
    ensures GoodRef(m, p)
  {
    assert GoodObject(m, a);
    match m.objects[a]
    case Block(_, literal, fields) =>
      var i := TargetOfField(fields, p);
      assert GoodField(m, fields[i], literal);
    case Byref(_, forwarding, _, _) =>
      assert GoodObject(m, forwarding);
  }

  lemma {:induction false} NothingHolds(m: Memory, n: nat, x: Addr)
    requires forall a :: x !in HeldAt(m, a)
    ensures ReferencesBelow(m, n, x) == 0
  {
    if n > 0 {
      NothingHolds(m, n - 1, x);
    }
  }

  /** Nothing in memory refers to an address that is not there. */
  lemma NoDangling(m: Memory, x: Addr)
    requires Shape(m) && !GoodRef(m, x)
    ensures References(m, x) == 0
  {
    forall a
      ensures x !in HeldAt(m, a)
    {
      if x in HeldAt(m, a) {
        HeldIsGood(m, a, x);
      }
    }
    NothingHolds(m, m.next, x);
  }

  // -------------------------------------------------------- a new heap block

  function Publish(m: Memory, r: Addr, flags: Flags, literal: nat, fields: seq<Field>): Memory {
    Put(m, r, Block(flags.(count := 1, needsFree := true), literal, fields))
  }

  /** m' is m with one more object, at r. */
  ghost predicate Adds(m: Memory, m': Memory, r: Addr) {
    && r > 0 && r !in m.objects && r in m'.objects && r < m'.next && m.next <= m'.next
    && m'.objects == m.objects[r := m'.objects[r]]
    && (m'.objects[r].Byref? ==>
        && m'.objects[r].forwarding == r
        && forall y :: IsByref(m, y) ==> m.objects[y].variable != m'.objects[r].variable)
  }

  lemma AddsObjects(m: Memory, m': Memory, r: Addr)
    requires Shape(m) && Adds(m, m', r) && GoodObject(m', r)
    ensures Extends(m, m') && GoodObjects(m')
  {
    assert Extends(m, m');
    forall x | x in m'.objects
      ensures GoodObject(m', x)
    {
      if x != r {
        assert GoodObject(m, x);
        if m.objects[x].Block? && Live(m.objects[x]) {
          GoodFieldsExtend(m, m', m.objects[x].fields, m.objects[x].literal);
        }
      }
    }
  }

  lemma AddsCells(m: Memory, m': Memory, r: Addr)
    requires Adds(m, m', r) && OneCell(m)
    ensures OneCell(m') && SameReadings(m, m')
  {
  }

  lemma PublishGood(m: Memory, r: Addr, flags: Flags, literal: nat, fields: seq<Field>)
    requires Shape(m) && r !in m.objects && 0 < r < m.next
    requires GoodFields(m, fields, literal) && HelperKinds(fields) && literal <= r
    requires !flags.isGlobal && (fields != [] ==> flags.hasHelpers)
    ensures GoodObject(Publish(m, r, flags, literal, fields), r)
  {
    GoodFieldsExtend(m, Publish(m, r, flags, literal, fields), fields, literal);
  }

  /** The references its fields took over pass from the copier to the new block. */
  lemma PublishInv(m: Memory, outside: multiset<Addr>, r: Addr, flags: Flags, literal: nat, fields: seq<Field>)
    requires Inv(m, outside + Targets(fields)) && 0 < r && r !in m.objects && r < m.next
    requires GoodFields(m, fields, literal) && HelperKinds(fields) && literal <= r
    requires !flags.isGlobal && (fields != [] ==> flags.hasHelpers)
    ensures var m' := Publish(m, r, flags, literal, fields);
      Inv(m', outside + multiset{r}) && Extends(m, m') && SameReadings(m, m')
  {
    var m' := Publish(m, r, flags, literal, fields);
    PublishGood(m, r, flags, literal, fields);
    AddsObjects(m, m', r);
    AddsCells(m, m', r);
    ReferencesUpdate(m, m', r);
    NoDangling(m, r);
    assert r !in outside + Targets(fields);
    forall p | p in outside
      ensures GoodRef(m', p)
    {
      assert p in outside + Targets(fields);
      assert GoodRef(m, p);
    }
    forall x | x in m'.objects && m'.objects[x].flags.needsFree
      ensures m'.objects[x].flags.count == MASK
        || m'.objects[x].flags.count == References(m', x) + (outside + multiset{r})[x]
    {
      assert (outside + Targets(fields))[x] == outside[x] + Targets(fields)[x];
    }
  }

  // ------------------------------------------------------ promoting a byref

  function Promote(m: Memory, src: Addr): Memory
    requires IsByref(m, src)
  {
    var s := m.objects[src];
    var copy := m.next;
    var promoted := Byref(s.flags.(count := 2, needsFree := true), copy, s.variable, s.value);
    Memory(m.objects[copy := promoted][src := Byref(s.flags, copy, s.variable, s.value)], copy + 1)
  }

  /** Before its promotion only the stack byref itself forwards to it. */
  lemma SoleForwarder(m: Memory, src: Addr, x: Addr)
    requires Shape(m) && IsByref(m, src) && OnStack(m.objects[src])
    requires IsByref(m, x) && m.objects[x].forwarding == src
    ensures x == src
  {
    assert GoodObject(m, x);
  }

  lemma PromoteExtends(m: Memory, src: Addr)
    requires Addressed(m) && IsByref(m, src) && OnStack(m.objects[src]) && m.objects[src].forwarding == src
    ensures Extends(m, Promote(m, src))
  {
  }

  lemma PromoteObjects(m: Memory, src: Addr)
    requires Shape(m) && IsByref(m, src) && OnStack(m.objects[src]) && m.objects[src].forwarding == src
    ensures GoodObjects(Promote(m, src))
  {
    var m' := Promote(m, src);
    assert GoodObject(m, src);
    PromoteExtends(m, src);
    forall x | x in m'.objects
      ensures GoodObject(m', x)
    {
      if x != src && x in m.objects {
        assert GoodObject(m, x);
        if IsByref(m, x) {
          if m.objects[x].forwarding == src {
            SoleForwarder(m, src, x);
          }
        } else if Live(m.objects[x]) {
          GoodFieldsExtend(m, m', m.objects[x].fields, m.objects[x].literal);
        }
      }
    }
  }

  lemma PromoteCells(m: Memory, src: Addr)
    requires Shape(m) && IsByref(m, src) && OnStack(m.objects[src]) && m.objects[src].forwarding == src
    ensures OneCell(Promote(m, src)) && SameReadings(m, Promote(m, src))
  {
    forall x | IsByref(m, x) && m.objects[x].forwarding == src
      ensures x == src
    {
      SoleForwarder(m, src, x);
    }
  }

  lemma PromoteReferences(m: Memory, outside: multiset<Addr>, src: Addr)
    requires Inv(m, outside) && IsByref(m, src) && OnStack(m.objects[src]) && m.objects[src].forwarding == src
    ensures m.next !in outside && References(m, m.next) == 0
    ensures forall x :: References(Promote(m, src), x) == References(m, x) + if x == m.next then 1 else 0
  {
    var m' := Promote(m, src);
    NoDangling(m, m.next);
    hide GoodObjects, OneCell;
    ReferencesUpdate(m, m', src) by {
      forall a | a != src
        ensures HeldAt(m, a) == HeldAt(m', a)
      {
      }
    }
  }

  lemma PromoteRefs(m: Memory, outside: multiset<Addr>, src: Addr)
    requires GoodRefs(m, outside) && Addressed(m) && IsByref(m, src) && OnStack(m.objects[src])
    ensures GoodRefs(Promote(m, src), outside + multiset{m.next})
  {
    forall p | p in outside
      ensures GoodRef(Promote(m, src), p)
    {
      assert GoodRef(m, p);
    }
  }

  /** A promoted byref starts with two references: the caller's and its stack frame's. */
  lemma PromoteInv(m: Memory, outside: multiset<Addr>, src: Addr)
    requires Inv(m, outside) && IsByref(m, src) && OnStack(m.objects[src]) && m.objects[src].forwarding == src
    ensures var m' := Promote(m, src);
      Inv(m', outside + multiset{m.next}) && Extends(m, m') && SameReadings(m, m')
  {
    assert Addressed(m);
    hide GoodObjects, OneCell, Extends, SameReadings, GoodRefs, References;
    PromoteObjects(m, src);
    PromoteCells(m, src);
    PromoteExtends(m, src);
    PromoteReferences(m, outside, src);
    PromoteRefs(m, outside, src);
  }

  /** What a `__block` variable contains is neither copied nor retained, and never released. */
  lemma ContentsNotRetained(m: Memory, f: Field, bound: Addr)
    requires VariableHelperKind(f.kind)
    ensures ObjectAssign(m, f, bound) == (m, f.ptr) && ObjectDispose(m, f) == m
  {
    assert f.kind & (FIELD_IS_BLOCK | BYREF_CALLER) != FIELD_IS_BLOCK;
  }

  // ------------------------------------------------------------- good input

  /** A captured pointer the copy helper may follow: what it names still exists. */
  ghost predicate FieldCopyable(m: Memory, f: Field, bound: Addr)
    decreases bound, 0
  {
    && BlockHelperKind(f.kind)
    && (IsByrefKind(f.kind) ==> IsByref(m, f.ptr))
    && (f.kind == FIELD_IS_BLOCK ==> f.ptr < bound && Copyable(m, f.ptr))
  }

  /**
   * A pointer _Block_copy may be given: NULL, a global block, a live heap
   * block, or a stack block all of whose captures still exist.
   */
  ghost predicate Copyable(m: Memory, a: Addr)
    decreases a, 1
  {
    a == 0 || (
      && IsBlock(m, a)
      && (m.objects[a].flags.needsFree ==> Live(m.objects[a]))
      && (OnStack(m.objects[a]) ==>
          forall i :: 0 <= i < |m.objects[a].fields| ==> FieldCopyable(m, m.objects[a].fields[i], a)))
  }

  lemma {:induction false} CopyableExtends(m: Memory, m': Memory, a: Addr)
    requires Extends(m, m') && Copyable(m, a)
    ensures Copyable(m', a)
    decreases a
  {
    if a != 0 {
      assert Kept(a, m.objects[a], m'.objects[a]);
      if OnStack(m.objects[a]) {
        forall i | 0 <= i < |m.objects[a].fields|
          ensures FieldCopyable(m', m.objects[a].fields[i], a)
        {
          FieldCopyableExtends(m, m', m.objects[a].fields[i], a);
        }
      }
    }
  }

  lemma {:induction false} FieldCopyableExtends(m: Memory, m': Memory, f: Field, bound: Addr)
    requires Extends(m, m') && FieldCopyable(m, f, bound)
    ensures FieldCopyable(m', f, bound)
    decreases bound, 0
  {
    if f.kind == FIELD_IS_BLOCK {
      CopyableExtends(m, m', f.ptr);
    }
  }

  lemma {:induction false} FieldsCopyableExtend(m: Memory, m': Memory, fields: seq<Field>, bound: Addr)
    requires Extends(m, m') && forall i :: 0 <= i < |fields| ==> FieldCopyable(m, fields[i], bound)
    ensures forall i :: 0 <= i < |fields| ==> FieldCopyable(m', fields[i], bound)
  {
    forall i | 0 <= i < |fields|
      ensures FieldCopyable(m', fields[i], bound)
    {
      FieldCopyableExtends(m, m', fields[i], bound);
    }
  }

  // ---------------------------------------------------------------- copying

  /** What appears is a live heap object at an address not handed out before. */
  ghost predicate NewAbove(m: Memory, m': Memory) {
    forall a :: a in m'.objects ==> a in m.objects || (a >= m.next && Live(m'.objects[a]))
  }

  /** What _Block_copy returns for `a`: the same literal, never on the stack. */
  ghost predicate CopyOf(m: Memory, m': Memory, a: Addr, r: Addr) {
    && (r == 0 <==> a == 0)
    && (a != 0 ==> IsBlock(m, a) && IsBlock(m', r) && GoodRef(m', r) && m'.objects[r].literal == m.objects[a].literal)
  }

  /** _Block_byref_assign_copy hands its caller one counted reference to the heap cell. */
  lemma ByrefAssignCopyInv(m: Memory, outside: multiset<Addr>, src: Addr)
    requires Inv(m, outside) && IsByref(m, src)
    ensures var (m', r) := ByrefAssignCopy(m, src);
      && Inv(m', outside + multiset{r}) && Extends(m, m') && SameReadings(m, m') && NewAbove(m, m')
      && IsByref(m', r) && Live(m'.objects[r])
      && m'.objects[r].variable == m.objects[src].variable
      && m'.objects[src].forwarding == r == m'.objects[r].forwarding
  {
    assert GoodObject(m, src);
    var target := m.objects[src].forwarding;
    assert GoodObject(m, target);
    if m.objects[target].flags.count == 0 {
      assert target == src;
      PromoteInv(m, outside, src);
    } else {
      IncrementInv(m, outside, target);
    }
  }

  /** _Block_copy returns one counted reference; everything there was is kept as it was. */
  lemma {:induction false} CopyBlockInv(m: Memory, outside: multiset<Addr>, a: Addr)
    requires Inv(m, outside) && Copyable(m, a)
    ensures var (m', r) := CopyBlock(m, a);
      && Inv(m', outside + multiset{r}) && Extends(m, m') && SameReadings(m, m') && NewAbove(m, m')
      && CopyOf(m, m', a, r)
    decreases a, 2, 0
  {
    if a != 0 {
      var b := m.objects[a];
      if b.flags.needsFree {
        IncrementInv(m, outside, a);
      } else if !b.flags.isGlobal {
        CopyStackBlockInv(m, outside, a);
      }
    }
  }

  lemma {:induction false} CopyStackBlockInv(m: Memory, outside: multiset<Addr>, a: Addr)
    requires Inv(m, outside) && Copyable(m, a) && a != 0 && OnStack(m.objects[a])
    ensures var (m', r) := CopyBlock(m, a);
      && Inv(m', outside + multiset{r}) && Extends(m, m') && SameReadings(m, m') && NewAbove(m, m')
      && CopyOf(m, m', a, r)
    decreases a, 1, 0
  {
    var b := m.objects[a];
    var m0 := m.(next := m.next + 1);
    assert GoodObject(m, a);
    ReserveInv(m, outside);
    FieldsCopyableExtend(m, m0, b.fields, a);
    AssignFieldsInv(m0, outside, b.fields, a);
    var (m1, fields) := AssignFields(m0, b.fields, a);
    CopyStackBlockResult(m, a);
    ReadingsReserve(m, m0, m1);
    assert Shape(m);
    hide Shape, Counted, GoodRefs, GoodObject, Extends, SameReadings, NewAbove, GoodFields, HelperKinds,
      AssignFields, CopyBlock,
      Copyable, CopyOf;
    FinishCopy(m, m1, outside, a, fields);
  }

  lemma ReadingsReserve(m: Memory, m0: Memory, m1: Memory)
    requires m0 == m.(next := m.next + 1) && SameReadings(m0, m1)
    ensures SameReadings(m, m1)
  {
    forall a | IsByref(m, a) && IsByref(m, m.objects[a].forwarding)
      ensures IsByref(m1, a) && IsByref(m1, m1.objects[a].forwarding) && ReadVariable(m1, a) == ReadVariable(m, a)
    {
      assert IsByref(m0, a);
    }
  }

  lemma CopyStackBlockResult(m: Memory, a: Addr)
    requires a != 0 && IsBlock(m, a) && OnStack(m.objects[a]) && GoodObject(m, a)
    ensures var b := m.objects[a];
      var (m1, fields) := AssignFields(m.(next := m.next + 1), b.fields, a);
      CopyBlock(m, a) == (Publish(m1, m.next, b.flags, b.literal, fields), m.next)
  {
    hide AssignFields, ObjectAssign, GoodObject, Copyable;
    NoHelpersNoFields(m, a);
    NothingToAssign(m.(next := m.next + 1), a);
  }

  lemma NoHelpersNoFields(m: Memory, a: Addr)
    requires IsBlock(m, a) && GoodObject(m, a)
    ensures !m.objects[a].flags.hasHelpers ==> m.objects[a].fields == []
  {
  }

  lemma NothingToAssign(m: Memory, bound: Addr)
    ensures AssignFields(m, [], bound) == (m, [])
  {
  }

  /** The captures of stack block `a` are on the heap; its own copy is published. */
  lemma FinishCopy(m: Memory, m1: Memory, outside: multiset<Addr>, a: Addr, fields: seq<Field>)
    requires Shape(m) && IsBlock(m, a) && OnStack(m.objects[a])
    requires Extends(m.(next := m.next + 1), m1) && SameReadings(m, m1)
    requires NewAbove(m.(next := m.next + 1), m1)
    requires Inv(m1, outside + Targets(fields)) && GoodFields(m1, fields, a) && HelperKinds(fields)
    requires |fields| <= |m.objects[a].fields|
    ensures var b := m.objects[a];
      var m' := Publish(m1, m.next, b.flags, b.literal, fields);
      && Inv(m', outside + multiset{m.next}) && Extends(m, m') && SameReadings(m, m') && NewAbove(m, m')
      && CopyOf(m, m', a, m.next)
  {
    var b := m.objects[a];
    assert GoodObject(m, a);
    var m' := Publish(m1, m.next, b.flags, b.literal, fields);
    assert Shape(m1) && !b.flags.isGlobal;
    hide Inv, Shape, GoodObject, SameReadings, GoodFields;
    FinishAdds(m, m1, a, fields);
    hide Extends, NewAbove, CopyOf, HelperKinds;
    PublishInv(m1, outside, m.next, b.flags, b.literal, fields);
    ExtendsTransitive(m, m1, m');
    SameReadingsTransitive(m, m1, m');
  }

  lemma FinishAdds(m: Memory, m1: Memory, a: Addr, fields: seq<Field>)
    requires Addressed(m) && IsBlock(m, a) && GoodObject(m, a)
    requires Extends(m.(next := m.next + 1), m1) && NewAbove(m.(next := m.next + 1), m1)
    ensures var b := m.objects[a];
      var m' := Publish(m1, m.next, b.flags, b.literal, fields);
      Extends(m, m1) && NewAbove(m, m') && CopyOf(m, m', a, m.next) && m.next !in m1.objects && 0 < m.next < m1.next
  {
    assert Kept(a, m.objects[a], m1.objects[a]);
  }

  lemma SameReadingsTransitive(m: Memory, m1: Memory, m2: Memory)
    requires SameReadings(m, m1) && SameReadings(m1, m2)
    ensures SameReadings(m, m2)
  {
  }

  /** malloc: an address is set aside, nothing else changes. */
  lemma ReserveInv(m: Memory, outside: multiset<Addr>)
    requires Inv(m, outside)
    ensures Inv(m.(next := m.next + 1), outside) && Extends(m, m.(next := m.next + 1))
  {
    var m0 := m.(next := m.next + 1);
    ReferencesSame(m, m0, m.next);
    forall x | x in m0.objects
      ensures GoodObject(m0, x)
    {
      assert GoodObject(m, x);
      if m.objects[x].Block? && Live(m.objects[x]) {
        GoodFieldsExtend(m, m0, m.objects[x].fields, m.objects[x].literal);
      }
    }
  }

  lemma {:induction false} ObjectAssignInv(m: Memory, outside: multiset<Addr>, f: Field, bound: Addr)
    requires Inv(m, outside) && FieldCopyable(m, f, bound)
    ensures var (m', p) := ObjectAssign(m, f, bound);
      && Inv(m', outside + Targets([f.(ptr := p)])) && Extends(m, m') && SameReadings(m, m') && NewAbove(m, m')
      && GoodField(m', f.(ptr := p), bound)
    decreases bound, 0, 0
  {
    var (m', p) := ObjectAssign(m, f, bound);
    assert Targets([f.(ptr := p)]) == if f.kind == FIELD_IS_OBJECT then multiset{} else multiset{p};
    if IsByrefKind(f.kind) {
      ByrefAssignCopyInv(m, outside, f.ptr);
    } else if f.kind == FIELD_IS_BLOCK {
      CopyBlockInv(m, outside, f.ptr);
      if f.ptr != 0 {
        assert GoodObject(m, f.ptr);
      }
    } else {
      assert outside + multiset{} == outside;
    }
  }

  lemma {:induction false} AssignFieldsInv(m: Memory, outside: multiset<Addr>, fields: seq<Field>, bound: Addr)
    requires Inv(m, outside)
    requires forall i :: 0 <= i < |fields| ==> FieldCopyable(m, fields[i], bound)
    ensures var (m', copied) := AssignFields(m, fields, bound);
      && Inv(m', outside + Targets(copied)) && Extends(m, m') && SameReadings(m, m') && NewAbove(m, m')
      && |copied| == |fields| && HelperKinds(copied) && GoodFields(m', copied, bound)
    decreases bound, 0, |fields| + 1
  {
    hide Inv, Extends, SameReadings, NewAbove, FieldCopyable, GoodField, ObjectAssign, Copyable;
    if fields == [] {
      Unchanged(m);
      assert outside + multiset{} == outside;
    } else {
      ObjectAssignInv(m, outside, fields[0], bound);
      var (m1, p) := ObjectAssign(m, fields[0], bound);
      var first := fields[0].(ptr := p);
      FieldsCopyableExtend(m, m1, fields[1..], bound);
      AssignFieldsInv(m1, outside + Targets([first]), fields[1..], bound);
      var (m2, rest) := AssignFields(m1, fields[1..], bound);
      FirstAndRest(m, m1, m2, first, rest, bound);
      HelperKind(m, fields[0], bound);
      assert ([first] + rest)[1..] == rest;
      assert outside + Targets([first]) + Targets(rest) == outside + Targets([first] + rest);
    }
  }

  lemma Unchanged(m: Memory)
    ensures Extends(m, m) && SameReadings(m, m) && NewAbove(m, m)
  {
  }

  lemma HelperKind(m: Memory, f: Field, bound: Addr)
    requires FieldCopyable(m, f, bound)
    ensures BlockHelperKind(f.kind)
  {
  }

  lemma FirstAndRest(m: Memory, m1: Memory, m2: Memory, first: Field, rest: seq<Field>, bound: Addr)
    requires Extends(m, m1) && SameReadings(m, m1) && NewAbove(m, m1) && GoodField(m1, first, bound)
    requires Extends(m1, m2) && SameReadings(m1, m2) && NewAbove(m1, m2) && GoodFields(m2, rest, bound)
    ensures Extends(m, m2) && SameReadings(m, m2) && NewAbove(m, m2) && GoodFields(m2, [first] + rest, bound)
  {
    ExtendsTransitive(m, m1, m2);
    SameReadingsTransitive(m, m1, m2);
    NewAboveTransitive(m, m1, m2);
    hide Extends, SameReadings, NewAbove, GoodField;
    GoodFieldsExtend(m1, m2, [first], bound);
    assert [first][0] == first;
  }

  lemma NewAboveTransitive(m: Memory, m1: Memory, m2: Memory)
    requires NewAbove(m, m1) && NewAbove(m1, m2) && Extends(m, m1) && Extends(m1, m2)
    ensures NewAbove(m, m2)
  {
    forall a | a in m2.objects && a !in m.objects
      ensures a >= m.next && Live(m2.objects[a])
    {
      if a in m1.objects {
        assert Kept(a, m1.objects[a], m2.objects[a]);
      }
    }
  }
}
