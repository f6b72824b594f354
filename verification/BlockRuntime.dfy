/**
 * The runtime's entry points in the form they have in C: they update objects
 * in place, a copy is bit-copied first and fixed up field by field, and a
 * dying block stays in memory until its captures are released. Each is
 * proved equal to its function in BlockMemory.
 */
module BlockRuntime {
  import opened BlockMemory
  import opened BlockCounting
  import opened BlockCopying
  import opened BlockReleasing

  /** Memory with blocks laid over it whose copy helper is still running. */
  function Overlay(m: Memory, building: map<Addr, Object>): Memory {
    m.(objects := m.objects + building)
  }

  ghost predicate Apart(m: Memory, building: map<Addr, Object>) {
    building.Keys !! m.objects.Keys && forall a :: a in building ==> 0 < a < m.next
  }

  /** An object in place under the overlay. */
  lemma OverlayPut(m: Memory, building: map<Addr, Object>, a: Addr, o: Object)
    requires a !in building
    ensures Put(Overlay(m, building), a, o) == Overlay(Put(m, a, o), building)
  {
  }

  /** A finished block leaves the overlay for the memory below. */
  lemma OverlayPublish(m: Memory, building: map<Addr, Object>, r: Addr, flags: Flags, literal: nat, fields: seq<Field>)
    requires r !in m.objects && r !in building
    ensures Overlay(Publish(m, r, flags, literal, fields), building)
      == Overlay(m, building[r := Block(flags.(count := 1, needsFree := true), literal, fields)])
  {
  }

  /** The memory below is untouched by what is laid over it. */
  lemma OverlayLookup(m: Memory, building: map<Addr, Object>, a: Addr)
    requires Apart(m, building) && a in m.objects
    ensures a in Overlay(m, building).objects && Overlay(m, building).objects[a] == m.objects[a]
    ensures a !in building
  {
  }

  /** A block set aside with a fresh address, its bits copied from another. */
  lemma OverlayAlloc(m: Memory, building: map<Addr, Object>, r: Addr, o: Object)
    requires Addressed(m) && Apart(m, building) && r == m.next
    ensures var m0 := m.(next := m.next + 1);
      && Memory(Overlay(m, building).objects[r := o], r + 1) == Overlay(m0, building[r := o])
      && Apart(m0, building) && r !in m.objects && r !in building
  {
  }

  /** A block being built is found under its address. */
  lemma OverlayTop(m: Memory, building: map<Addr, Object>, r: Addr, o: Object)
    ensures var top := Overlay(m, building[r := o]); r in top.objects && top.objects[r] == o
  {
  }

  /** Copying other blocks keeps clear of what is being built. */
  lemma StillApart(m: Memory, m': Memory, building: map<Addr, Object>, r: Addr)
    requires Apart(m, building) && Extends(m, m') && NewAbove(m, m') && r !in m.objects && r < m.next
    ensures Apart(m', building) && r !in m'.objects && r < m'.next
  {
  }

  /** Two objects in place under the overlay. */
  lemma OverlayTwo(objects: map<Addr, Object>, building: map<Addr, Object>, a: Addr, o: Object, b: Addr, p: Object)
    requires a !in building && b !in building
    ensures (objects + building)[a := o][b := p] == objects[a := o][b := p] + building
  {
  }

  /** The copy helper has assigned the first |done| fields; what is left, it still has to. */
  ghost predicate Progress(m0: Memory, m: Memory, captured: seq<Field>, done: seq<Field>, src: Addr) {
    && |done| <= |captured|
    && var (m2, rest) := AssignFields(m, captured[|done|..], src);
       AssignFields(m0, captured, src) == (m2, done + rest)
  }

  lemma ProgressStart(m0: Memory, captured: seq<Field>, src: Addr)
    ensures Progress(m0, m0, captured, [], src)
    ensures [] + captured[0..] == captured
  {
    assert captured[0..] == captured;
    var (m2, rest) := AssignFields(m0, captured, src);
    assert [] + rest == rest;
  }

  lemma ProgressStep(m0: Memory, m: Memory, captured: seq<Field>, done: seq<Field>, src: Addr)
    requires Progress(m0, m, captured, done, src) && |done| < |captured|
    ensures var i := |done|;
      var (m', p) := ObjectAssign(m, captured[i], src);
      var g := captured[i].(ptr := p);
      && Progress(m0, m', captured, done + [g], src)
      && (done + captured[i..])[i := g] == done + [g] + captured[i + 1..]
  {
    var i := |done|;
    var (m', p) := ObjectAssign(m, captured[i], src);
    var g := captured[i].(ptr := p);
    assert captured[i..][0] == captured[i] && captured[i..][1..] == captured[i + 1..];
    var (m2, rest) := AssignFields(m', captured[i + 1..], src);
    assert AssignFields(m, captured[i..], src) == (m2, [g] + rest);
    assert done + ([g] + rest) == done + [g] + rest;
  }

  lemma ProgressEnd(m0: Memory, m: Memory, captured: seq<Field>, done: seq<Field>, src: Addr)
    requires Progress(m0, m, captured, done, src) && |done| == |captured|
    ensures AssignFields(m0, captured, src) == (m, done) && done + captured[|captured|..] == done
  {
    assert done + [] == done;
  }

  class Runtime {
    var objects: map<Addr, Object>
    var next: Addr

    ghost function State(): Memory
      reads this
    {
      Memory(objects, next)
    }

    constructor ()
      ensures State() == Memory(map[], 1) && Inv(State(), multiset{})
    {
      objects, next := map[], 1;
    }

    /** latching_incr_int on the flag word of the object at `a`. */
    method LatchingIncrAt(a: Addr)
      requires a in objects
      modifies this
      ensures next == old(next)
      ensures objects == old(objects)[a := WithFlags(old(objects)[a], LatchingIncr(old(objects)[a].flags))]
    {
      var flags := objects[a].flags;
      if flags.count != MASK {
        flags := flags.(count := flags.count + 1);
      }
      objects := objects[a := WithFlags(objects[a], flags)];
    }

    /** latching_decr_int on the flag word of the object at `a`. */
    method LatchingDecrAt(a: Addr) returns (count: nat)
      requires a in objects
      modifies this
      ensures next == old(next) && count == LatchingDecr(old(objects)[a].flags).1
      ensures objects == old(objects)[a := WithFlags(old(objects)[a], LatchingDecr(old(objects)[a].flags).0)]
    {
      var flags := objects[a].flags;
      if flags.count == MASK {
        count := MASK;
      } else if flags.count == 0 {
        count := 0;
      } else {
        flags := flags.(count := flags.count - 1);
        count := flags.count;
      }
      objects := objects[a := WithFlags(objects[a], flags)];
    }

    /** _Block_copy. */
    method BlockCopy(arg: Addr, ghost outside: multiset<Addr>) returns (r: Addr)
      requires Inv(State(), outside) && Copyable(State(), arg)
      modifies this
      ensures (State(), r) == CopyBlock(old(State()), arg)
      ensures Inv(State(), outside + multiset{r})
    {
      ghost var m := State();
      assert Overlay(m, map[]) == m;
      r := CopyInternal(arg, m, map[], outside);
      CopyBlockInv(m, outside, arg);
      assert Overlay(CopyBlock(m, arg).0, map[]) == CopyBlock(m, arg).0;
    }

    lemma CopyCases(m: Memory, outside: multiset<Addr>, a: Addr)
      requires Inv(m, outside) && Copyable(m, a)
      ensures a == 0 ==> CopyBlock(m, a) == (m, 0)
      ensures a != 0 ==>
        var b := m.objects[a];
        && IsBlock(m, a) && GoodObject(m, a) && Addressed(m)
        && (b.flags.needsFree ==> CopyBlock(m, a) == (Put(m, a, WithFlags(b, LatchingIncr(b.flags))), a))
        && (!b.flags.needsFree && b.flags.isGlobal ==> CopyBlock(m, a) == (m, a))
        && (OnStack(b) ==> forall i :: 0 <= i < |b.fields| ==> FieldCopyable(m, b.fields[i], a))
        && (!b.flags.hasHelpers ==> b.fields == [])
    {
      if a != 0 {
        assert GoodObject(m, a);
      }
    }

    /** _Block_copy_internal, possibly called from a copy helper of blocks under construction. */
    method CopyInternal(arg: Addr, ghost m: Memory, ghost building: map<Addr, Object>, ghost outside: multiset<Addr>)
      returns (r: Addr)
      requires State() == Overlay(m, building) && Apart(m, building)
      requires Inv(m, outside) && Copyable(m, arg)
      modifies this
      ensures r == CopyBlock(m, arg).1
      ensures State() == Overlay(CopyBlock(m, arg).0, building)
      decreases arg, 1, 1
    {
      hide Inv, Copyable, CopyBlock, GoodObject, Overlay, FieldCopyable, Apart;
      CopyCases(m, outside, arg);
      if arg == 0 {
        return 0;
      }
      OverlayLookup(m, building, arg);
      var aBlock := objects[arg];
      if aBlock.flags.needsFree {
        OverlayPut(m, building, arg, WithFlags(aBlock, LatchingIncr(aBlock.flags)));
        LatchingIncrAt(arg);
        return arg;
      } else if aBlock.flags.isGlobal {
        return arg;
      }
      r := CopyStack(arg, m, building, outside);
    }

    /** The rest of it, for a stack block: malloc, copy the bits, reset the count, run the copy helper. */
    method CopyStack(arg: Addr, ghost m: Memory, ghost building: map<Addr, Object>, ghost outside: multiset<Addr>)
      returns (r: Addr)
      requires State() == Overlay(m, building) && Apart(m, building)
      requires Inv(m, outside) && Copyable(m, arg) && arg != 0 && OnStack(m.objects[arg])
      modifies this
      ensures r == CopyBlock(m, arg).1
      ensures State() == Overlay(CopyBlock(m, arg).0, building)
      decreases arg, 1, 0
    {
      hide Inv, Copyable, CopyBlock, GoodObject, FieldCopyable, AssignFields, Overlay, Apart, Extends, NewAbove,
        Publish;
      CopyCases(m, outside, arg);
      OverlayLookup(m, building, arg);
      var aBlock := objects[arg];
      r := next;
      assert r == m.next by { OverlayNext(m, building); }
      var flags := aBlock.flags.(count := 1, needsFree := true);
      OverlayAlloc(m, building, r, Block(flags, aBlock.literal, aBlock.fields));
      next := next + 1;
      objects := objects[r := Block(flags, aBlock.literal, aBlock.fields)];
      ghost var m0 := m.(next := m.next + 1);
      ReserveInv(m, outside);
      FieldsCopyableExtend(m, m0, aBlock.fields, arg);
      AssignFieldsInv(m0, outside, aBlock.fields, arg);
      NothingToAssign(m0, arg);
      ghost var (m1, fields) := AssignFields(m0, aBlock.fields, arg);
      StillApart(m0, m1, building, r);
      if aBlock.flags.hasHelpers {
        CopyHelper(r, arg, m0, building, outside);
      }
      CopyStackBlockResult(m, arg);
      OverlayPublish(m1, building, r, aBlock.flags, aBlock.literal, fields);
    }

    lemma OverlayNext(m: Memory, building: map<Addr, Object>)
      ensures Overlay(m, building).next == m.next
    {
    }

    /** A compiler-made copy helper: assign each captured field of `src` into the copy. */
    method CopyHelper(dst: Addr, src: Addr, ghost m0: Memory, ghost building: map<Addr, Object>,
                      ghost outside: multiset<Addr>)
      requires IsBlock(m0, src) && dst !in m0.objects && dst !in building && 0 < dst < m0.next
      requires dst in objects && objects[dst].Block? && objects[dst].fields == m0.objects[src].fields
      requires State() == Overlay(m0, building[dst := objects[dst]]) && Apart(m0, building)
      requires Inv(m0, outside)
      requires forall i :: 0 <= i < |m0.objects[src].fields| ==> FieldCopyable(m0, m0.objects[src].fields[i], src)
      modifies this
      ensures var (m1, fields) := AssignFields(m0, m0.objects[src].fields, src);
        && dst in old(objects) && old(objects)[dst].Block?
        && State() == Overlay(m1, building[dst := Block(old(objects)[dst].flags, old(objects)[dst].literal, fields)])
      decreases src, 0, 2
    {
      hide Inv, FieldCopyable, Overlay, Apart, Progress, AssignFields, ObjectAssign, Extends, NewAbove,
        SameReadings, GoodField;
      ghost var captured := m0.objects[src].fields;
      ghost var flags, literal := objects[dst].flags, objects[dst].literal;
      ghost var m, done := m0, [];
      ProgressStart(m0, captured, src);
      assert outside + Targets([]) == outside;
      var i := 0;
      var n := |objects[dst].fields|;
      while i < n
        invariant i <= n == |captured| && |done| == i
        invariant State() == Overlay(m, building[dst := Block(flags, literal, done + captured[i..])])
        invariant dst !in m.objects && dst < m.next && Apart(m, building)
        invariant Inv(m, outside + Targets(done))
        invariant forall k :: i <= k < n ==> FieldCopyable(m, captured[k], src)
        invariant Progress(m0, m, captured, done, src)
      {
        ghost var (m', p') := ObjectAssign(m, captured[i], src);
        ObjectAssignInv(m, outside + Targets(done), captured[i], src);
        ProgressStep(m0, m, captured, done, src);
        OverlayTop(m, building, dst, Block(flags, literal, done + captured[i..]));
        assert (done + captured[i..])[i] == captured[i];
        FixField(dst, i, m, building, outside + Targets(done), src);
        RestCopyable(m, m', captured, i, src);
        StillApart(m, m', building, dst);
        HeldAppend(outside, done, captured[i].(ptr := p'));
        m, done, i := m', done + [captured[i].(ptr := p')], i + 1;
      }
      ProgressEnd(m0, m, captured, done, src);
    }

    /** One line of a copy helper: assign captured field i into the copy at `dst`. */
    method FixField(dst: Addr, i: nat, ghost m: Memory, ghost building: map<Addr, Object>,
                    ghost outside: multiset<Addr>, ghost src: Addr)
      requires dst !in m.objects && dst !in building && 0 < dst < m.next && Apart(m, building)
      requires dst in objects && objects[dst].Block? && i < |objects[dst].fields|
      requires State() == Overlay(m, building[dst := objects[dst]])
      requires Inv(m, outside) && FieldCopyable(m, objects[dst].fields[i], src)
      modifies this
      ensures dst in old(objects) && old(objects)[dst].Block? && i < |old(objects)[dst].fields|
      ensures var b := old(objects)[dst];
        var (m', p) := ObjectAssign(m, b.fields[i], src);
        State() == Overlay(m', building[dst := Block(b.flags, b.literal, b.fields[i := b.fields[i].(ptr := p)])])
      decreases src, 0, 1
    {
      ghost var before := building[dst := objects[dst]];
      var f := objects[dst].fields[i];
      var p := Assign(f, m, before, outside, src);
      assert dst in before && objects[dst] == before[dst];
      var b := objects[dst];
      var fixed := Block(b.flags, b.literal, b.fields[i := f.(ptr := p)]);
      objects := objects[dst := fixed];
      OverlayReplace(ObjectAssign(m, f, src).0, building, dst, b, fixed);
    }

    /** _Block_object_assign: the pointer to store at the destination. */
    method Assign(f: Field, ghost m: Memory, ghost building: map<Addr, Object>, ghost outside: multiset<Addr>,
                  ghost bound: Addr)
      returns (p: Addr)
      requires State() == Overlay(m, building) && Apart(m, building)
      requires Inv(m, outside) && (FieldCopyable(m, f, bound) || VariableHelperKind(f.kind))
      modifies this
      ensures p == ObjectAssign(m, f, bound).1
      ensures VariableHelperKind(f.kind) ==> p == f.ptr && State() == old(State())
      ensures State() == Overlay(ObjectAssign(m, f, bound).0, building)
      decreases bound, 0, 0
    {
      if f.kind & BYREF_CALLER == BYREF_CALLER {
        ContentsNotRetained(m, f, bound);
        p := f.ptr;   // contents of a `__block` variable are neither retained nor copied
      } else if f.kind & FIELD_IS_BYREF == FIELD_IS_BYREF {
        p := ByrefAssign(f.ptr, m, building, outside);
      } else if f.kind & FIELD_IS_BLOCK == FIELD_IS_BLOCK {
        p := CopyInternal(f.ptr, m, building, outside);
      } else {
        p := f.ptr;
      }
    }

    /** _Block_byref_assign_copy. */
    method ByrefAssign(src: Addr, ghost m: Memory, ghost building: map<Addr, Object>, ghost outside: multiset<Addr>)
      returns (p: Addr)
      requires State() == Overlay(m, building) && Apart(m, building)
      requires Inv(m, outside) && IsByref(m, src)
      modifies this
      ensures p == ByrefAssignCopy(m, src).1
      ensures State() == Overlay(ByrefAssignCopy(m, src).0, building)
    {
      assert GoodObject(m, src);
      OverlayLookup(m, building, src);
      OverlayLookup(m, building, m.objects[src].forwarding);
      var s := objects[src];
      if objects[s.forwarding].flags.count == 0 {
        var copy := next;
        var promoted := Byref(s.flags.(count := 2, needsFree := true), copy, s.variable, s.value);
        next := next + 1;
        objects := objects[copy := promoted];
        objects := objects[src := Byref(s.flags, copy, s.variable, s.value)];
        OverlayTwo(m.objects, building, copy, promoted, src, Byref(s.flags, copy, s.variable, s.value));
      } else if objects[s.forwarding].flags.needsFree {
        var target := objects[s.forwarding];
        OverlayPut(m, building, s.forwarding, WithFlags(target, LatchingIncr(target.flags)));
        LatchingIncrAt(s.forwarding);
      }
      p := objects[src].forwarding;
    }

    lemma ReleaseCases(m: Memory, outside: multiset<Addr>, a: Addr)
      requires Inv(m, outside) && a in outside && (a == 0 || IsBlock(m, a))
      ensures a == 0 ==> ReleaseBlock(m, a) == m
      ensures a != 0 ==>
        var b := m.objects[a];
        var (flags, count) := LatchingDecr(b.flags);
        if count > 0 || !b.flags.needsFree then ReleaseBlock(m, a) == Put(m, a, WithFlags(b, flags))
        else
          && Shape(m) && GoodObject(m, a) && Live(b) && b.flags.count == 1
          && Put(m, a, WithFlags(b, flags)) == Recount(m, a, 0)
          && a in NonZero(m) && a !in NonZero(Recount(m, a, 0)) && NonZero(Recount(m, a, 0)) <= NonZero(m)
          && (!b.flags.hasHelpers ==> b.fields == [])
    {
      assert GoodRef(m, a);
      if a != 0 {
        assert GoodObject(m, a);
      }
    }

    /** _Block_release of a reference the caller owns. */
    method Release(arg: Addr, ghost outside: multiset<Addr>)
      requires Inv(State(), outside) && arg in outside && (arg == 0 || IsBlock(State(), arg))
      modifies this
      ensures State() == ReleaseBlock(old(State()), arg)
      ensures Inv(State(), outside - multiset{arg})
      decreases NonZero(State()), 0
    {
      hide Inv, ReleaseBlock, Typed, References;
      ghost var m := State();
      ReleaseBlockInv(m, outside, arg);
      ReleaseCases(m, outside, arg);
      if arg == 0 {
        return;
      }
      var aBlock := objects[arg];
      var newCount := LatchingDecrAt(arg);
      if newCount > 0 {
        return;
      }
      if aBlock.flags.needsFree {
        assert State() == Recount(m, arg, 0);
        LastReleaseInv(m, outside, arg);
        TypedByLife(m, arg);
        CascadeResult(m, arg);
        if aBlock.flags.hasHelpers {
          DisposeHelper(arg, outside - multiset{arg});
        } else {
          assert aBlock.fields == [];
        }
        objects := objects - {arg};
      }
    }

    /** A compiler-made dispose helper: dispose of each captured field of a dying block. */
    method DisposeHelper(a: Addr, ghost outside: multiset<Addr>)
      requires IsBlock(State(), a) && State().objects[a].flags.needsFree && State().objects[a].flags.count == 0
      requires Typed(State(), State().objects[a].fields)
      requires Inv(State(), outside + Targets(State().objects[a].fields))
      modifies this
      ensures State() == DisposeFields(old(State()), old(State()).objects[a].fields)
      decreases NonZero(State()), 2
    {
      hide Inv, Typed, Shrinks, ObjectDispose;
      ghost var fields := objects[a].fields;
      ghost var m := State();
      var i := 0;
      var n := |objects[a].fields|;
      assert fields[0..] == fields;
      while i < n
        invariant i <= n == |fields|
        invariant IsBlock(State(), a) && State().objects[a] == m.objects[a]
        invariant Typed(State(), fields[i..])
        invariant Inv(State(), outside + Targets(fields[i..]))
        invariant NonZero(State()) <= NonZero(m)
        invariant DisposeFields(State(), fields[i..]) == DisposeFields(m, fields)
      {
        var f := objects[a].fields[i];
        ghost var mi := State();
        ghost var rest := fields[i + 1..];
        assert fields[i..][0] == f && fields[i..][1..] == rest;
        FirstTarget(outside, fields[i..]);
        TypedSplit(mi, fields[i..]);
        ObjectDisposeInv(mi, outside + Targets(rest), f);
        InvParts(mi, outside + Targets(fields[i..]));
        InvParts(ObjectDispose(mi, f), outside + Targets(rest));
        TypedShrinks(mi, ObjectDispose(mi, f), outside, rest);
        DeadStays(mi, ObjectDispose(mi, f), a);
        Dispose(f, outside + Targets(rest));
        i := i + 1;
      }
    }

    /** _Block_object_dispose. */
    method Dispose(f: Field, ghost outside: multiset<Addr>)
      requires VariableHelperKind(f.kind) || (Typed(State(), [f]) && Inv(State(), outside + Targets([f])))
      modifies this
      ensures State() == ObjectDispose(old(State()), f)
      ensures VariableHelperKind(f.kind) ==> State() == old(State())
      decreases NonZero(State()), 1
    {
      if VariableHelperKind(f.kind) {
        ContentsNotRetained(State(), f, 0);
      }
      assert [f][0] == f && [f][1..] == [];
      assert Targets([f]) == (if f.kind == FIELD_IS_OBJECT then multiset{} else multiset{f.ptr}) + Targets([]);
      if f.kind & FIELD_IS_BYREF != 0 {
        ReleaseByref(f.ptr, outside + Targets([f]));
      } else if f.kind & (FIELD_IS_BLOCK | BYREF_CALLER) == FIELD_IS_BLOCK {
        Release(f.ptr, outside + Targets([f]));
      }
    }

    /** _Block_byref_release. */
    method ReleaseByref(arg: Addr, ghost outside: multiset<Addr>)
      requires Inv(State(), outside) && IsByref(State(), arg)
      modifies this
      ensures State() == ByrefRelease(old(State()), arg)
    {
      assert GoodObject(State(), arg);
      var shared := objects[arg].forwarding;
      if !objects[shared].flags.needsFree {
        return;
      }
      if objects[shared].flags.count == 0 {
        return;   // "underflowed"
      }
      var count := LatchingDecrAt(shared);
      if count == 0 {
        objects := objects - {shared};
      }
    }
  }

  lemma {:induction false} TargetsAppend(fields: seq<Field>, f: Field)
    ensures Targets(fields + [f]) == Targets(fields) + Targets([f])
  {
    if fields == [] {
      assert [] + [f] == [f];
    } else {
      assert (fields + [f])[1..] == fields[1..] + [f];
      TargetsAppend(fields[1..], f);
    }
  }

  lemma HeldAppend(outside: multiset<Addr>, done: seq<Field>, f: Field)
    ensures outside + Targets(done) + Targets([f]) == outside + Targets(done + [f])
  {
    TargetsAppend(done, f);
  }

  lemma OverlayReplace(m: Memory, building: map<Addr, Object>, a: Addr, o: Object, p: Object)
    ensures Overlay(m, building[a := o]).(objects := Overlay(m, building[a := o]).objects[a := p])
      == Overlay(m, building[a := p])
  {
  }

  lemma RestCopyable(m: Memory, m': Memory, captured: seq<Field>, i: nat, src: Addr)
    requires i < |captured| && Extends(m, m')
    requires forall k :: i <= k < |captured| ==> FieldCopyable(m, captured[k], src)
    ensures forall k :: i + 1 <= k < |captured| ==> FieldCopyable(m', captured[k], src)
  {
    forall k | i + 1 <= k < |captured|
      ensures FieldCopyable(m', captured[k], src)
    {
      FieldCopyableExtends(m, m', captured[k], src);
    }
  }

  /** A block whose count is already zero is not touched by releasing others. */
  lemma DeadStays(m: Memory, m': Memory, a: Addr)
    requires Shrinks(m, m') && a in m.objects && m.objects[a].flags.count == 0
    ensures a in m'.objects && m'.objects[a] == m.objects[a]
  {
  }
}
