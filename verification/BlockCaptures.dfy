/**
 * A heap copy holds what its original captured: the same foreign pointers, the
 * same `__block` variables, copies of the same blocks.
 */
module BlockCaptures {
  import opened BlockMemory
  import opened BlockCounting
  import opened BlockCopying

  /** Field g in memory m' is for its block what field f was in memory m. */
  ghost predicate SameCapture(m: Memory, f: Field, m': Memory, g: Field) {
    && g.kind == f.kind
    && (f.kind == FIELD_IS_OBJECT ==> g.ptr == f.ptr)
    && (IsByrefKind(f.kind) ==>
          && IsByref(m, f.ptr) && IsByref(m', g.ptr)
          && m'.objects[g.ptr].variable == m.objects[f.ptr].variable)
    && (f.kind == FIELD_IS_BLOCK ==>
          && (g.ptr == 0 <==> f.ptr == 0)
          && (f.ptr != 0 ==>
                IsBlock(m, f.ptr) && IsBlock(m', g.ptr) && m'.objects[g.ptr].literal == m.objects[f.ptr].literal))
  }

  ghost predicate SameCaptures(m: Memory, fs: seq<Field>, m': Memory, gs: seq<Field>) {
    |gs| == |fs| && forall i :: 0 <= i < |fs| ==> SameCapture(m, fs[i], m', gs[i])
  }

  /** Block b in m' is what stack block a was in m. */
  ghost predicate CopiedFrom(m: Memory, a: Addr, m': Memory, b: Addr) {
    && IsBlock(m, a) && OnStack(m.objects[a]) && IsBlock(m', b)
    && m'.objects[b].literal == m.objects[a].literal
    && SameCaptures(m, m.objects[a].fields, m', m'.objects[b].fields)
  }

  /** Every block that appears is a copy of a stack block. */
  ghost predicate NewAreCopies(m: Memory, m': Memory) {
    forall b {:trigger IsBlock(m', b)} :: IsBlock(m', b) && b !in m.objects ==> exists a :: CopiedFrom(m, a, m', b)
  }

  // ------------------------------------------------ under further copying

  lemma CaptureExtends(m: Memory, f: Field, m1: Memory, g: Field, m2: Memory)
    requires SameCapture(m, f, m1, g) && Extends(m1, m2)
    ensures SameCapture(m, f, m2, g)
  {
    if g.ptr in m1.objects {
      assert Kept(g.ptr, m1.objects[g.ptr], m2.objects[g.ptr]);
    }
  }

  lemma CaptureEarlier(m: Memory, m1: Memory, f: Field, m2: Memory, g: Field)
    requires Extends(m, m1) && SameCapture(m1, f, m2, g)
    requires f.kind != FIELD_IS_OBJECT && f.ptr != 0 ==> f.ptr in m.objects
    requires BlockHelperKind(f.kind) && (IsByrefKind(f.kind) ==> f.ptr in m.objects)
    ensures SameCapture(m, f, m2, g)
  {
    if f.ptr in m.objects {
      assert Kept(f.ptr, m.objects[f.ptr], m1.objects[f.ptr]);
    }
  }

  lemma CapturesExtend(m: Memory, fs: seq<Field>, m1: Memory, gs: seq<Field>, m2: Memory)
    requires SameCaptures(m, fs, m1, gs) && Extends(m1, m2)
    ensures SameCaptures(m, fs, m2, gs)
  {
    forall i | 0 <= i < |fs|
      ensures SameCapture(m, fs[i], m2, gs[i])
    {
      CaptureExtends(m, fs[i], m1, gs[i], m2);
    }
  }

  lemma CapturesEarlier(m: Memory, m1: Memory, fs: seq<Field>, m2: Memory, gs: seq<Field>)
    requires Extends(m, m1) && SameCaptures(m1, fs, m2, gs)
    requires forall i :: 0 <= i < |fs| ==>
      BlockHelperKind(fs[i].kind) && (fs[i].kind != FIELD_IS_OBJECT && (fs[i].ptr != 0 || IsByrefKind(fs[i].kind)) ==>
        fs[i].ptr in m.objects)
    ensures SameCaptures(m, fs, m2, gs)
  {
    forall i | 0 <= i < |fs|
      ensures SameCapture(m, fs[i], m2, gs[i])
    {
      CaptureEarlier(m, m1, fs[i], m2, gs[i]);
    }
  }

  /** All that a stack block captured was there before the memory grew, if it is there at all. */
  lemma StackCapturesEarlier(m: Memory, m1: Memory, a: Addr, m2: Memory, b: Addr)
    requires Shape(m) && Extends(m, m1) && NewAbove(m, m1) && CopiedFrom(m1, a, m2, b)
    ensures CopiedFrom(m, a, m2, b)
  {
    assert a in m.objects;
    assert Kept(a, m.objects[a], m1.objects[a]) && GoodObject(m, a);
    var fs := m.objects[a].fields;
    forall i | 0 <= i < |fs|
      ensures BlockHelperKind(fs[i].kind)
      ensures fs[i].kind != FIELD_IS_OBJECT && (fs[i].ptr != 0 || IsByrefKind(fs[i].kind)) ==> fs[i].ptr in m.objects
    {
      assert SameCapture(m1, fs[i], m2, m2.objects[b].fields[i]);
    }
    hide Extends, SameCapture, NewAbove;
    CapturesEarlier(m, m1, fs, m2, m2.objects[b].fields);
  }

  lemma NewCopiesTransitive(m: Memory, m1: Memory, m2: Memory)
    requires Shape(m) && Extends(m, m1) && NewAbove(m, m1) && NewAreCopies(m, m1)
    requires Extends(m1, m2) && NewAreCopies(m1, m2)
    ensures NewAreCopies(m, m2)
  {
    forall b {:trigger IsBlock(m2, b)} | IsBlock(m2, b) && b !in m.objects
      ensures exists a :: CopiedFrom(m, a, m2, b)
    {
      if b in m1.objects {
        assert Kept(b, m1.objects[b], m2.objects[b]);
        assert IsBlock(m1, b);
        var a :| CopiedFrom(m, a, m1, b);
        CapturesExtend(m, m.objects[a].fields, m1, m1.objects[b].fields, m2);
        assert CopiedFrom(m, a, m2, b);
      } else {
        var a :| CopiedFrom(m1, a, m2, b);
        StackCapturesEarlier(m, m1, a, m2, b);
      }
    }
  }

  lemma NothingNew(m: Memory, m': Memory)
    requires m'.objects.Keys == m.objects.Keys
    ensures NewAreCopies(m, m')
  {
  }

  // ---------------------------------------------------------------- copying

  lemma ByrefCaptured(m: Memory, outside: multiset<Addr>, f: Field)
    requires Inv(m, outside) && IsByrefKind(f.kind) && IsByref(m, f.ptr)
    ensures var (m', r) := ByrefAssignCopy(m, f.ptr);
      NewAreCopies(m, m') && SameCapture(m, f, m', f.(ptr := r))
  {
    ByrefAssignCopyInv(m, outside, f.ptr);
    assert f.kind != FIELD_IS_BLOCK && f.kind != FIELD_IS_OBJECT;
  }

  /** _Block_object_assign stores what was captured, or a heap copy of it. */
  lemma {:induction false} FieldCaptured(m: Memory, outside: multiset<Addr>, f: Field, bound: Addr)
    requires Inv(m, outside) && FieldCopyable(m, f, bound)
    ensures var (m', p) := ObjectAssign(m, f, bound);
      NewAreCopies(m, m') && SameCapture(m, f, m', f.(ptr := p))
    decreases bound, 0, 0
  {
    hide Inv, Copyable, Extends, NewAbove, SameReadings, NewAreCopies;
    if IsByrefKind(f.kind) {
      ByrefCaptured(m, outside, f);
    } else if f.kind == FIELD_IS_BLOCK {
      CopyCaptures(m, outside, f.ptr);
      CopyBlockInv(m, outside, f.ptr);
    } else {
      NothingNew(m, m);
    }
  }

  /** The copy helper: field by field the same. */
  lemma {:induction false} FieldsCaptured(m: Memory, outside: multiset<Addr>, fields: seq<Field>, bound: Addr)
    requires Inv(m, outside)
    requires forall i :: 0 <= i < |fields| ==> FieldCopyable(m, fields[i], bound)
    ensures var (m', copied) := AssignFields(m, fields, bound);
      NewAreCopies(m, m') && SameCaptures(m, fields, m', copied)
    decreases bound, 0, |fields| + 1
  {
    hide Inv, Extends, SameReadings, NewAbove, FieldCopyable, GoodField, ObjectAssign, Copyable, SameCapture,
      NewAreCopies;
    if fields == [] {
      NothingNew(m, m);
    } else {
      ObjectAssignInv(m, outside, fields[0], bound);
      FieldCaptured(m, outside, fields[0], bound);
      var (m1, p) := ObjectAssign(m, fields[0], bound);
      var first := fields[0].(ptr := p);
      FieldsCopyableExtend(m, m1, fields[1..], bound);
      AssignFieldsInv(m1, outside + Targets([first]), fields[1..], bound);
      FieldsCaptured(m1, outside + Targets([first]), fields[1..], bound);
      var (m2, rest) := AssignFields(m1, fields[1..], bound);
      InvShape(m, outside);
      NewCopiesTransitive(m, m1, m2);
      CaptureExtends(m, fields[0], m1, first, m2);
      CopyablesThere(m, fields, bound);
      CapturesEarlier(m, m1, fields[1..], m2, rest);
      assert forall i :: 1 <= i < |fields| ==> fields[i] == fields[1..][i - 1];
    }
  }

  lemma InvShape(m: Memory, outside: multiset<Addr>)
    requires Inv(m, outside)
    ensures Shape(m)
  {
  }

  lemma CopyableThere(m: Memory, f: Field, bound: Addr)
    requires FieldCopyable(m, f, bound)
    ensures BlockHelperKind(f.kind)
    ensures f.kind != FIELD_IS_OBJECT && (f.ptr != 0 || IsByrefKind(f.kind)) ==> f.ptr in m.objects
  {
    if f.kind == FIELD_IS_BLOCK {
      assert Copyable(m, f.ptr);
      assert !IsByrefKind(f.kind);
    }
  }

  lemma CopyablesThere(m: Memory, fields: seq<Field>, bound: Addr)
    requires forall i :: 0 <= i < |fields| ==> FieldCopyable(m, fields[i], bound)
    ensures forall i :: 0 <= i < |fields| ==>
      BlockHelperKind(fields[i].kind) &&
      (fields[i].kind != FIELD_IS_OBJECT && (fields[i].ptr != 0 || IsByrefKind(fields[i].kind)) ==>
        fields[i].ptr in m.objects)
  {
    forall i | 0 <= i < |fields|
      ensures BlockHelperKind(fields[i].kind)
      ensures fields[i].kind != FIELD_IS_OBJECT && (fields[i].ptr != 0 || IsByrefKind(fields[i].kind)) ==>
        fields[i].ptr in m.objects
    {
      CopyableThere(m, fields[i], bound);
    }
  }

  /**
   * _Block_copy: NULL gives NULL; a global or a heap block is handed out itself;
   * a stack block gives a new block of the same literal whose fields are, one by
   * one, what the original captured.
   */
  lemma {:induction false} CopyCaptures(m: Memory, outside: multiset<Addr>, a: Addr)
    requires Inv(m, outside) && Copyable(m, a)
    ensures var (m', r) := CopyBlock(m, a);
      && NewAreCopies(m, m')
      && (a == 0 ==> r == 0)
      && (a != 0 && !OnStack(m.objects[a]) ==> r == a && m'.objects.Keys == m.objects.Keys)
      && (a != 0 && OnStack(m.objects[a]) ==> r !in m.objects && CopiedFrom(m, a, m', r))
    decreases a, 2, 0
  {
    if a == 0 || !OnStack(m.objects[a]) {
      NothingNew(m, CopyBlock(m, a).0);
    } else {
      StackCaptures(m, outside, a);
    }
  }

  lemma {:induction false} StackCaptures(m: Memory, outside: multiset<Addr>, a: Addr)
    requires Inv(m, outside) && Copyable(m, a) && a != 0 && OnStack(m.objects[a])
    ensures var (m', r) := CopyBlock(m, a);
      NewAreCopies(m, m') && r !in m.objects && CopiedFrom(m, a, m', r)
    decreases a, 1, 0
  {
    var b := m.objects[a];
    var m0 := m.(next := m.next + 1);
    assert GoodObject(m, a) && Shape(m) && m.next !in m.objects;
    ReserveInv(m, outside);
    FieldsCopyableExtend(m, m0, b.fields, a);
    AssignFieldsInv(m0, outside, b.fields, a);
    FieldsCaptured(m0, outside, b.fields, a);
    CopyStackBlockResult(m, a);
    var (m1, fields) := AssignFields(m0, b.fields, a);
    hide Inv, Shape, GoodObject, SameReadings, AssignFields, CopyBlock, Copyable, GoodFields;
    PublishedCaptures(m, m1, a, fields);
  }

  lemma PublishedCaptures(m: Memory, m1: Memory, a: Addr, fields: seq<Field>)
    requires IsBlock(m, a) && OnStack(m.objects[a]) && m.next !in m.objects
    requires var m0 := m.(next := m.next + 1);
      Extends(m0, m1) && NewAbove(m0, m1) && NewAreCopies(m0, m1) && SameCaptures(m0, m.objects[a].fields, m1, fields)
    ensures var b := m.objects[a];
      var m' := Publish(m1, m.next, b.flags, b.literal, fields);
      NewAreCopies(m, m') && CopiedFrom(m, a, m', m.next)
  {
    var b := m.objects[a];
    var m0 := m.(next := m.next + 1);
    var m' := Publish(m1, m.next, b.flags, b.literal, fields);
    assert m.next !in m1.objects;
    KeepsOthers(m0, b.fields, m1, fields, m', m.next);
    SameBefore(m, m0, b.fields, m', fields);
    forall x {:trigger IsBlock(m', x)} | IsBlock(m', x) && x !in m.objects
      ensures exists y :: CopiedFrom(m, y, m', x)
    {
      if x == m.next {
        assert CopiedFrom(m, a, m', x);
      } else {
        assert IsBlock(m1, x);
        var y :| CopiedFrom(m0, y, m1, x);
        KeepsOthers(m0, m0.objects[y].fields, m1, m1.objects[x].fields, m', m.next);
        SameBefore(m, m0, m0.objects[y].fields, m', m1.objects[x].fields);
        assert CopiedFrom(m, y, m', x);
      }
    }
  }

  lemma KeepsOthers(m: Memory, fs: seq<Field>, m1: Memory, gs: seq<Field>, m': Memory, r: Addr)
    requires SameCaptures(m, fs, m1, gs) && r !in m1.objects
    requires r in m'.objects && m'.objects == m1.objects[r := m'.objects[r]]
    ensures SameCaptures(m, fs, m', gs)
  {
    forall i | 0 <= i < |fs|
      ensures SameCapture(m, fs[i], m', gs[i])
    {
      assert SameCapture(m, fs[i], m1, gs[i]);
    }
  }

  lemma SameBefore(m: Memory, m0: Memory, fs: seq<Field>, m': Memory, gs: seq<Field>)
    requires m0.objects == m.objects && SameCaptures(m0, fs, m', gs)
    ensures SameCaptures(m, fs, m', gs)
  {
    forall i | 0 <= i < |fs|
      ensures SameCapture(m, fs[i], m', gs[i])
    {
      assert SameCapture(m0, fs[i], m', gs[i]);
    }
  }
}
