/**
 * Over whole programs, every block holds what its literal was evaluated with,
 * however often and through whatever other blocks it was copied.
 */
module BlockLiterals {
  import opened BlockMemory
  import opened BlockCounting
  import opened BlockCopying
  import opened BlockCaptures
  import opened BlockReleasing
  import opened BlockProgram

  /** What a captured pointer stands for, wherever the thing it names is moved. */
  datatype Capture =
    | Foreign(kind: bv8, ptr: Addr)
    | Variable(kind: bv8, variable: nat)
    | NoBlock(kind: bv8)
    | Inner(kind: bv8, literal: nat)

  /** What a field stands for when the literal is evaluated. */
  function Captured(m: Memory, f: Field): Capture {
    if f.kind == FIELD_IS_BLOCK then
      if f.ptr in m.objects && m.objects[f.ptr].Block? then Inner(f.kind, m.objects[f.ptr].literal)
      else NoBlock(f.kind)
    else if IsByrefKind(f.kind) && IsByref(m, f.ptr) then Variable(f.kind, m.objects[f.ptr].variable)
    else Foreign(f.kind, f.ptr)
  }

  function Evaluated(m: Memory, fields: seq<Field>): seq<Capture> {
    seq(|fields|, i requires 0 <= i < |fields| => Captured(m, fields[i]))
  }

  /**
   * The field stands for the capture. A stack block may outlive what it
   * captured: then nothing is left to compare.
   */
  ghost predicate Carries(m: Memory, f: Field, c: Capture) {
    && f.kind == c.kind
    && match c
       case Foreign(_, ptr) => f.kind == FIELD_IS_OBJECT && f.ptr == ptr
       case Variable(_, variable) =>
         IsByrefKind(f.kind) && (f.ptr in m.objects ==> IsByref(m, f.ptr) && m.objects[f.ptr].variable == variable)
       case NoBlock(_) => f.kind == FIELD_IS_BLOCK && f.ptr == 0
       case Inner(_, literal) =>
         f.kind == FIELD_IS_BLOCK && f.ptr != 0 &&
         (f.ptr in m.objects ==> IsBlock(m, f.ptr) && m.objects[f.ptr].literal == literal)
  }

  ghost predicate AllCarried(m: Memory, fields: seq<Field>, captures: seq<Capture>) {
    |fields| == |captures| && forall i :: 0 <= i < |fields| ==> Carries(m, fields[i], captures[i])
  }

  /** Every block of literal n, on the stack or the heap, carries these captures. */
  ghost predicate LiteralCarries(m: Memory, n: nat, captures: seq<Capture>) {
    forall a {:trigger IsBlock(m, a)} :: IsBlock(m, a) && m.objects[a].literal == n ==>
      AllCarried(m, m.objects[a].fields, captures)
  }

  // -------------------------------------------------------- when memory changes

  /** Objects that were there are still what they were, if they are there; and none took an old address. */
  ghost predicate SameThings(m: Memory, m': Memory) {
    forall a {:trigger a in m'.objects} :: 0 < a < m.next && a in m'.objects ==>
      && a in m.objects
      && (m.objects[a].Block? ==>
            && m'.objects[a].Block?
            && m'.objects[a].literal == m.objects[a].literal && m'.objects[a].fields == m.objects[a].fields)
      && (m.objects[a].Byref? ==> m'.objects[a].Byref? && m'.objects[a].variable == m.objects[a].variable)
  }

  /** The captured pointers of a block are old. */
  lemma PointersAreOld(m: Memory, a: Addr, i: nat)
    requires Shape(m) && AllLive(m) && IsBlock(m, a) && i < |m.objects[a].fields|
    requires m.objects[a].fields[i].kind != FIELD_IS_OBJECT
    ensures m.objects[a].fields[i].ptr < m.next
  {
    assert GoodObject(m, a);
    var f := m.objects[a].fields[i];
    if Live(m.objects[a]) {
      assert GoodField(m, f, m.objects[a].literal) && BlockHelperKind(f.kind);
    }
  }

  lemma OldBlockCarries(m: Memory, m': Memory, n: nat, captures: seq<Capture>, a: Addr)
    requires Shape(m) && AllLive(m) && SameThings(m, m') && Addressed(m')
    requires LiteralCarries(m, n, captures) && a < m.next && IsBlock(m', a) && m'.objects[a].literal == n
    ensures AllCarried(m', m'.objects[a].fields, captures)
  {
    assert a in m.objects;
    assert GoodObject(m, a);
    assert IsBlock(m, a);
    var fs := m.objects[a].fields;
    forall i | 0 <= i < |fs|
      ensures Carries(m', fs[i], captures[i])
    {
      assert Carries(m, fs[i], captures[i]);
      if fs[i].kind != FIELD_IS_OBJECT {
        PointersAreOld(m, a, i);
      }
    }
  }

  /** What the copy of a block carries. */
  lemma CopyCarries(m: Memory, m': Memory, a: Addr, b: Addr, captures: seq<Capture>)
    requires CopiedFrom(m, a, m', b) && AllCarried(m, m.objects[a].fields, captures)
    ensures AllCarried(m', m'.objects[b].fields, captures)
  {
    var fs, gs := m.objects[a].fields, m'.objects[b].fields;
    forall i | 0 <= i < |fs|
      ensures Carries(m', gs[i], captures[i])
    {
      assert Carries(m, fs[i], captures[i]) && SameCapture(m, fs[i], m', gs[i]);
    }
  }

  lemma ThingsKeep(m: Memory, m': Memory, n: nat, captures: seq<Capture>)
    requires Shape(m) && AllLive(m) && SameThings(m, m') && Addressed(m') && LiteralCarries(m, n, captures)
    requires forall b: Addr {:trigger IsBlock(m', b)} :: IsBlock(m', b) && b >= m.next ==>
      m'.objects[b].literal != n || exists a :: CopiedFrom(m, a, m', b)
    ensures LiteralCarries(m', n, captures)
  {
    hide Shape, AllLive, SameThings, CopiedFrom, AllCarried;
    forall b: Addr {:trigger IsBlock(m', b)} | IsBlock(m', b) && m'.objects[b].literal == n
      ensures AllCarried(m', m'.objects[b].fields, captures)
    {
      if b < m.next {
        OldBlockCarries(m, m', n, captures, b);
      } else {
        var a :| CopiedFrom(m, a, m', b);
        CopiedLiteral(m, a, m', b);
        CopyCarries(m, m', a, b, captures);
      }
    }
  }

  lemma CopiedLiteral(m: Memory, a: Addr, m': Memory, b: Addr)
    requires CopiedFrom(m, a, m', b)
    ensures IsBlock(m, a) && IsBlock(m', b) && m'.objects[b].literal == m.objects[a].literal
  {
  }

  // ---------------------------------------------------------------- every step

  lemma ExtendedThings(m: Memory, m': Memory)
    requires Addressed(m) && Extends(m, m') && NewAbove(m, m')
    ensures SameThings(m, m')
  {
    forall a {:trigger a in m'.objects} | 0 < a < m.next && a in m'.objects
      ensures a in m.objects
    {
    }
    forall a | a in m.objects
      ensures a in m'.objects && Kept(a, m.objects[a], m'.objects[a])
    {
    }
  }

  lemma ShrunkThings(m: Memory, m': Memory)
    requires Shrinks(m, m')
    ensures SameThings(m, m') && m'.next == m.next
    ensures Addressed(m) ==> forall b: Addr :: IsBlock(m', b) ==> b < m.next
  {
  }

  lemma AddedThings(m: Memory, m': Memory)
    requires Addressed(m) && Adds(m, m', m.next) && m'.next == m.next + 1
    ensures SameThings(m, m') && forall b: Addr :: IsBlock(m', b) && b >= m.next ==> b == m.next
  {
  }

  lemma CopyStep(p: Program, a: Addr, n: nat, captures: seq<Capture>)
    requires PInv(p) && Copyable(p.mem, a) && LiteralCarries(p.mem, n, captures)
    ensures LiteralCarries(CopyBlock(p.mem, a).0, n, captures)
  {
    var m, m' := p.mem, CopyBlock(p.mem, a).0;
    CopyBlockInv(m, p.handles, a);
    CopyCaptures(m, p.handles, a);
    InvShape(m, p.handles);
    InvShape(m', p.handles + multiset{CopyBlock(m, a).1});
    assert Addressed(m) && Addressed(m');
    hide Inv, CopyBlock, Copyable, LiteralCarries, CopiedFrom;
    ExtendedThings(m, m');
    AtNext(m);
    ThingsKeep(m, m', n, captures);
  }

  lemma AtNext(m: Memory)
    requires Addressed(m)
    ensures forall a :: a >= m.next ==> a !in m.objects
  {
  }

  lemma LeaveStep(p: Program, a: Addr, n: nat, captures: seq<Capture>)
    requires PInv(p) && Enabled(p, Leave(a)) && LiteralCarries(p.mem, n, captures)
    ensures LiteralCarries(LeaveByref(p.mem, a), n, captures)
  {
    var m, m' := p.mem, LeaveByref(p.mem, a);
    LeaveInv(m, p.handles, a);
    InvShape(m, p.handles);
    InvShape(m', p.handles);
    assert Addressed(m) && Addressed(m');
    hide Inv, LeaveByref, LiteralCarries;
    FreedThings(m, a, m');
    ThingsKeep(m, m', n, captures);
  }

  lemma FreedThings(m: Memory, a: Addr, m': Memory)
    requires Shrinks(Free(m, a), m')
    ensures SameThings(m, m') && (Addressed(m) ==> forall b: Addr :: IsBlock(m', b) ==> b < m.next)
  {
  }

  lemma ShrinkStep(m: Memory, m': Memory, outside: multiset<Addr>, n: nat, captures: seq<Capture>)
    requires Shape(m) && AllLive(m) && Inv(m', outside) && Shrinks(m, m') && LiteralCarries(m, n, captures)
    ensures LiteralCarries(m', n, captures)
  {
    InvShape(m', outside);
    assert Addressed(m) && Addressed(m');
    hide Inv, LiteralCarries;
    ShrunkThings(m, m');
    ThingsKeep(m, m', n, captures);
  }

  lemma AddStep(m: Memory, m': Memory, outside: multiset<Addr>, n: nat, captures: seq<Capture>)
    requires Shape(m) && AllLive(m) && Inv(m', outside) && Adds(m, m', m.next) && m'.next == m.next + 1
    requires m'.objects[m.next].Block? ==> m'.objects[m.next].literal != n
    requires LiteralCarries(m, n, captures)
    ensures LiteralCarries(m', n, captures)
  {
    InvShape(m', outside);
    assert Addressed(m) && Addressed(m');
    hide Inv, LiteralCarries;
    AddedThings(m, m');
    ThingsKeep(m, m', n, captures);
  }

  lemma WriteStep(p: Program, a: Addr, value: int, n: nat, captures: seq<Capture>)
    requires PInv(p) && IsByref(p.mem, a) && IsByref(p.mem, p.mem.objects[a].forwarding)
    requires LiteralCarries(p.mem, n, captures)
    ensures LiteralCarries(WriteVariable(p.mem, a, value), n, captures)
  {
    var m, m' := p.mem, WriteVariable(p.mem, a, value);
    WriteInv(m, p.handles, a, value);
    InvShape(m, p.handles);
    InvShape(m', p.handles);
    assert SameThings(m, m');
    assert Addressed(m) && Addressed(m') && m'.objects.Keys == m.objects.Keys;
    hide Inv, LiteralCarries;
    ThingsKeep(m, m', n, captures);
  }

  lemma DropStep(p: Program, a: Addr, n: nat, captures: seq<Capture>)
    requires PInv(p) && Enabled(p, Drop(a)) && LiteralCarries(p.mem, n, captures)
    ensures LiteralCarries(Free(p.mem, a), n, captures)
  {
    var m, m' := p.mem, Free(p.mem, a);
    InvShape(m, p.handles);
    assert SameThings(m, m');
    assert Addressed(m) && Addressed(m');
    hide Inv, LiteralCarries;
    ThingsKeep(m, m', n, captures);
  }

  /** No operation changes what the blocks of an earlier literal carry. */
  lemma StepCarries(p: Program, op: Op, n: nat, captures: seq<Capture>)
    requires PInv(p) && Enabled(p, op) && LiteralCarries(p.mem, n, captures) && n < p.mem.next
    ensures LiteralCarries(Step(p, op).mem, n, captures) && p.mem.next <= Step(p, op).mem.next
  {
    InvShape(p.mem, p.handles);
    hide LiteralCarries;
    match op
    case Declare(value) =>
      DeclareInv(p.mem, p.handles, value);
      AddStep(p.mem, DeclareByref(p.mem, value), p.handles, n, captures);
    case Leave(a) =>
      LeaveStep(p, a, n, captures);
      LeaveInv(p.mem, p.handles, a);
    case Literal(fields) =>
      LiteralInv(p.mem, p.handles, fields);
      AddStep(p.mem, EvalLiteral(p.mem, fields), p.handles, n, captures);
    case Drop(a) => DropStep(p, a, n, captures);
    case Global =>
      GlobalInv(p.mem, p.handles);
      AddStep(p.mem, DefineGlobal(p.mem), p.handles, n, captures);
    case Copy(a) =>
      CopyStep(p, a, n, captures);
      CopyBlockInv(p.mem, p.handles, a);
    case Release(a) =>
      ReleaseBlockInv(p.mem, p.handles, a);
      ShrinkStep(p.mem, ReleaseBlock(p.mem, a), p.handles - multiset{a}, n, captures);
    case Write(a, value) =>
      assert GoodObject(p.mem, a);
      WriteStep(p, a, value, n, captures);
  }

  lemma {:induction false} RunCarries(p: Program, run: seq<Op>, n: nat, captures: seq<Capture>)
    requires PInv(p) && LegalRun(p, run) && LiteralCarries(p.mem, n, captures) && n < p.mem.next
    ensures LiteralCarries(After(p, run).mem, n, captures)
    decreases |run|
  {
    hide LiteralCarries, PInv, Enabled, Step;
    if run != [] {
      StepKeepsInv(p, run[0]);
      StepCarries(p, run[0], n, captures);
      RunCarries(Step(p, run[0]), run[1..], n, captures);
    }
  }

  /** A literal that has just been evaluated is the only block of its number. */
  lemma JustEvaluated(p: Program, fields: seq<Field>)
    requires PInv(p) && Typed(p.mem, fields)
    ensures LiteralCarries(EvalLiteral(p.mem, fields), p.mem.next, Evaluated(p.mem, fields))
  {
    var m, m' := p.mem, EvalLiteral(p.mem, fields);
    InvShape(m, p.handles);
    forall a {:trigger IsBlock(m', a)} | IsBlock(m', a) && m'.objects[a].literal == m.next
      ensures AllCarried(m', m'.objects[a].fields, Evaluated(m, fields))
    {
      LiteralBelow(m, a);
      assert a == m.next;
      forall i | 0 <= i < |fields|
        ensures Carries(m', fields[i], Evaluated(m, fields)[i])
      {
        FieldEvaluated(m, m', fields, i);
      }
    }
  }

  lemma LiteralBelow(m: Memory, a: Addr)
    requires Shape(m)
    ensures IsBlock(m, a) ==> m.objects[a].literal < m.next
  {
    if IsBlock(m, a) {
      assert GoodObject(m, a);
    }
  }

  lemma FieldEvaluated(m: Memory, m': Memory, fields: seq<Field>, i: nat)
    requires Shape(m) && Typed(m, fields) && i < |fields| && m' == EvalLiteral(m, fields)
    ensures Carries(m', fields[i], Captured(m, fields[i]))
  {
    var f := fields[i];
    assert f.kind == FIELD_IS_BLOCK ==> !IsByrefKind(f.kind);
  }

  /**
   * Whatever a correct program does after it evaluated a literal: every block of
   * that literal, the original and every copy of it, holds field by field what
   * the literal was evaluated with: the same foreign pointer, the same variable,
   * a block of the same literal, or no block.
   */
  lemma CapturesAreKept(before: seq<Op>, fields: seq<Field>, after: seq<Op>, a: Addr)
    requires LegalRun(START, before) && Enabled(After(START, before), Literal(fields))
    requires LegalRun(Step(After(START, before), Literal(fields)), after)
    requires var m := After(Step(After(START, before), Literal(fields)), after).mem;
      IsBlock(m, a) && m.objects[a].literal == After(START, before).mem.next
    ensures var m := After(Step(After(START, before), Literal(fields)), after).mem;
      AllCarried(m, m.objects[a].fields, Evaluated(After(START, before).mem, fields))
  {
    RunKeepsInv(START, before);
    var p := After(START, before);
    JustEvaluated(p, fields);
    StepKeepsInv(p, Literal(fields));
    var q := Step(p, Literal(fields));
    assert q.mem == EvalLiteral(p.mem, fields) && p.mem.next < q.mem.next;
    hide PInv, Enabled, Step, AllCarried;
    RunCarries(q, after, p.mem.next, Evaluated(p.mem, fields));
  }
}
