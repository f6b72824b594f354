/**
 * Whole programs over the Blocks runtime: any sequence of declarations,
 * literals, copies, releases, writes and scope exits.
 */
module BlockProgram {
  import opened BlockMemory
  import opened BlockCounting
  import opened BlockCopying
  import opened BlockReleasing

  /** `handles` are the references _Block_copy returned that were not yet released. */
  datatype Program = Program(mem: Memory, handles: multiset<Addr>)

  datatype Op =
    | Declare(value: int)            // a `__block` variable comes into scope
    | Leave(a: Addr)                 // and leaves it
    | Literal(fields: seq<Field>)    // a block literal is evaluated on the stack
    | Drop(a: Addr)                  // its frame is gone
    | Global
    | Copy(a: Addr)
    | Release(a: Addr)
    | Write(a: Addr, value: int)     // through any holder of a `__block` variable

  const START := Program(Memory(map[], 1), multiset{})

  /** What correct client code does; nothing is asked about counts. */
  ghost predicate Enabled(p: Program, op: Op) {
    match op
    case Declare(_) => true
    case Leave(a) => IsByref(p.mem, a) && OnStack(p.mem.objects[a])
    case Literal(fields) => Typed(p.mem, fields)
    case Drop(a) => IsBlock(p.mem, a) && OnStack(p.mem.objects[a])
    case Global => true
    case Copy(a) => Copyable(p.mem, a)
    case Release(a) => a in p.handles
    case Write(a, _) => IsByref(p.mem, a)
  }

  ghost function Step(p: Program, op: Op): Program {
    match op
    case Declare(value) => p.(mem := DeclareByref(p.mem, value))
    case Leave(a) => p.(mem := LeaveByref(p.mem, a))
    case Literal(fields) => p.(mem := EvalLiteral(p.mem, fields))
    case Drop(a) => p.(mem := Free(p.mem, a))
    case Global => Program(DefineGlobal(p.mem), p.handles)
    case Copy(a) => var (m, r) := CopyBlock(p.mem, a); Program(m, p.handles + multiset{r})
    case Release(a) => Program(ReleaseBlock(p.mem, a), p.handles - multiset{a})
    case Write(a, value) =>
      if IsByref(p.mem, a) && IsByref(p.mem, p.mem.objects[a].forwarding)
      then p.(mem := WriteVariable(p.mem, a, value)) else p
  }

  /** No heap object is ever seen without a reference. */
  ghost predicate AllLive(m: Memory) {
    forall a :: a in m.objects && m.objects[a].flags.needsFree ==> m.objects[a].flags.count > 0
  }

  ghost predicate BlockHandles(m: Memory, handles: multiset<Addr>) {
    forall a :: a in handles ==> a == 0 || IsBlock(m, a)
  }

  ghost predicate PInv(p: Program) {
    Inv(p.mem, p.handles) && AllLive(p.mem) && BlockHandles(p.mem, p.handles)
  }

  // ------------------------------------------------------------ stack objects

  /** An object that is not counted and holds nothing. */
  lemma NewObjectInv(m: Memory, outside: multiset<Addr>, m': Memory)
    requires Inv(m, outside) && Adds(m, m', m.next) && m'.next == m.next + 1 && GoodObject(m', m.next)
    requires !m'.objects[m.next].flags.needsFree
    ensures Inv(m', outside)
  {
    AddsObjects(m, m', m.next);
    AddsCells(m, m', m.next);
    ReferencesSame(m, m', m.next);
  }

  lemma DeclareInv(m: Memory, outside: multiset<Addr>, value: int)
    requires Inv(m, outside)
    ensures Inv(DeclareByref(m, value), outside) && Adds(m, DeclareByref(m, value), m.next)
  {
    forall y | IsByref(m, y)
      ensures m.objects[y].variable < m.next
    {
      assert GoodObject(m, y);
    }
    NewObjectInv(m, outside, DeclareByref(m, value));
  }

  lemma LiteralInv(m: Memory, outside: multiset<Addr>, fields: seq<Field>)
    requires Inv(m, outside) && Typed(m, fields)
    ensures Inv(EvalLiteral(m, fields), outside) && Adds(m, EvalLiteral(m, fields), m.next)
  {
    NewObjectInv(m, outside, EvalLiteral(m, fields));
  }

  lemma GlobalInv(m: Memory, outside: multiset<Addr>)
    requires Inv(m, outside)
    ensures Inv(DefineGlobal(m), outside) && Adds(m, DefineGlobal(m), m.next)
  {
    NewObjectInv(m, outside, DefineGlobal(m));
  }

  /** A stack block's frame goes; what it captured was never counted. */
  lemma DropInv(m: Memory, outside: multiset<Addr>, a: Addr)
    requires Inv(m, outside) && IsBlock(m, a) && OnStack(m.objects[a])
    ensures Inv(Free(m, a), outside)
  {
    assert GoodObject(m, a);
    NoDangling(m, a);
    FreeInv(m, outside, a);
  }

  lemma LeaveInv(m: Memory, outside: multiset<Addr>, a: Addr)
    requires Inv(m, outside) && IsByref(m, a) && OnStack(m.objects[a])
    ensures Inv(LeaveByref(m, a), outside)
    ensures Shrinks(Free(m, a), LeaveByref(m, a))
  {
    if m.objects[a].forwarding == a {
      LeaveUnpromoted(m, outside, a);
    } else {
      LeavePromoted(m, outside, a);
    }
  }

  lemma LeaveUnpromoted(m: Memory, outside: multiset<Addr>, a: Addr)
    requires Inv(m, outside) && IsByref(m, a) && OnStack(m.objects[a]) && m.objects[a].forwarding == a
    ensures Inv(LeaveByref(m, a), outside)
    ensures Shrinks(Free(m, a), LeaveByref(m, a))
  {
    assert LeaveByref(m, a) == Free(m, a);
    NoDangling(m, a);
    assert GoodObject(m, a);
    hide LeaveByref;
    FreeInv(m, outside, a);
  }

  lemma LeavePromoted(m: Memory, outside: multiset<Addr>, a: Addr)
    requires Inv(m, outside) && IsByref(m, a) && OnStack(m.objects[a]) && m.objects[a].forwarding != a
    ensures Inv(LeaveByref(m, a), outside)
    ensures Shrinks(Free(m, a), LeaveByref(m, a))
  {
    var d := m.objects[a].forwarding;
    assert GoodObject(m, a) && GoodObject(m, d);
    LeaveCommutes(m, a);
    UnframeInv(m, outside, a);
    hide LeaveByref, ByrefRelease, GoodObject, Inv;
    ByrefReleaseInv(Free(m, a), outside + multiset{d}, d);
    assert outside + multiset{d} - multiset{d} == outside;
  }

  /** Disposing of the byref and dropping its frame may be done in either order. */
  lemma LeaveCommutes(m: Memory, a: Addr)
    requires IsByref(m, a) && OnStack(m.objects[a]) && m.objects[a].forwarding != a
    requires IsByref(m, m.objects[a].forwarding)
    requires m.objects[m.objects[a].forwarding].forwarding == m.objects[a].forwarding
    ensures LeaveByref(m, a) == ByrefRelease(Free(m, a), m.objects[a].forwarding)
  {
    var d := m.objects[a].forwarding;
    var o := m.objects[d];
    var o' := WithFlags(o, LatchingDecr(o.flags).0);
    assert ByrefRelease(m, d) == ByrefRelease(m, a);
    assert Free(Put(m, d, o'), a) == Put(Free(m, a), d, o');
    assert Free(Free(Put(m, d, o'), d), a) == Free(Put(Free(m, a), d, o'), d);
  }

  /** With the frame gone, its reference to the heap cell is an outside one. */
  lemma UnframeInv(m: Memory, outside: multiset<Addr>, a: Addr)
    requires Inv(m, outside) && IsByref(m, a) && OnStack(m.objects[a]) && m.objects[a].forwarding != a
    ensures Inv(Free(m, a), outside + multiset{m.objects[a].forwarding})
  {
    var d := m.objects[a].forwarding;
    var m' := Free(m, a);
    assert GoodObject(m, a) && GoodObject(m, d);
    NoDangling(m, a);
    UnreferencedChange(m, m', a);
    ReferencesUpdate(m, m', a);
    forall p | p in outside + multiset{d}
      ensures GoodRef(m', p)
    {
      assert GoodRef(m, p);
    }
  }

  lemma WriteInv(m: Memory, outside: multiset<Addr>, a: Addr, value: int)
    requires Inv(m, outside) && IsByref(m, a) && IsByref(m, m.objects[a].forwarding)
    ensures Inv(WriteVariable(m, a, value), outside)
  {
    var m' := WriteVariable(m, a, value);
    ReferencesSame(m, m', m.objects[a].forwarding);
    WriteObjects(m, a, value);
  }

  lemma WriteObjects(m: Memory, a: Addr, value: int)
    requires Shape(m) && IsByref(m, a) && IsByref(m, m.objects[a].forwarding)
    ensures Shape(WriteVariable(m, a, value))
  {
    var m' := WriteVariable(m, a, value);
    forall x | x in m'.objects
      ensures GoodObject(m', x)
    {
      assert GoodObject(m, x);
      if m.objects[x].Block? && Live(m.objects[x]) {
        var fields, literal := m.objects[x].fields, m.objects[x].literal;
        forall i | 0 <= i < |fields|
          ensures GoodField(m', fields[i], literal)
        {
          assert GoodField(m, fields[i], literal);
        }
      }
    }
  }

  // --------------------------------------------------------------- every step

  lemma ShrinksHandles(m: Memory, m': Memory, handles: multiset<Addr>)
    requires Shrinks(m, m') && AllLive(m) && BlockHandles(m, handles) && GoodRefs(m', handles)
    ensures AllLive(m') && BlockHandles(m', handles)
  {
  }

  lemma AddsHandles(m: Memory, m': Memory, handles: multiset<Addr>)
    requires Adds(m, m', m.next) && !m'.objects[m.next].flags.needsFree
    requires AllLive(m) && BlockHandles(m, handles)
    ensures AllLive(m') && BlockHandles(m', handles)
  {
  }

  lemma CopyHandles(m: Memory, m': Memory, handles: multiset<Addr>, r: Addr)
    requires Extends(m, m') && NewAbove(m, m') && AllLive(m) && BlockHandles(m, handles)
    requires r == 0 || IsBlock(m', r)
    ensures AllLive(m') && BlockHandles(m', handles + multiset{r})
  {
    forall a | a in m'.objects && m'.objects[a].flags.needsFree
      ensures m'.objects[a].flags.count > 0
    {
      if a in m.objects {
        assert Kept(a, m.objects[a], m'.objects[a]);
      }
    }
    forall a | a in handles + multiset{r}
      ensures a == 0 || IsBlock(m', a)
    {
      if a in handles && a != 0 {
        assert Kept(a, m.objects[a], m'.objects[a]);
      }
    }
  }

  lemma LeaveKeeps(p: Program, a: Addr)
    requires PInv(p) && Enabled(p, Leave(a))
    ensures PInv(Step(p, Leave(a)))
  {
    LeaveInv(p.mem, p.handles, a);
    var m0 := Free(p.mem, a);
    ShrinksHandles(m0, LeaveByref(p.mem, a), p.handles);
  }

  lemma DropKeeps(p: Program, a: Addr)
    requires PInv(p) && Enabled(p, Drop(a))
    ensures PInv(Step(p, Drop(a)))
  {
    DropInv(p.mem, p.handles, a);
    assert forall h :: h in p.handles ==> GoodRef(p.mem, h);
  }

  lemma ReleaseKeeps(p: Program, a: Addr)
    requires PInv(p) && Enabled(p, Release(a))
    ensures PInv(Step(p, Release(a)))
  {
    ReleaseBlockInv(p.mem, p.handles, a);
    assert BlockHandles(p.mem, p.handles - multiset{a});
    ShrinksHandles(p.mem, ReleaseBlock(p.mem, a), p.handles - multiset{a});
  }

  /** No operation of a correct program breaks the counting. */
  lemma StepKeepsInv(p: Program, op: Op)
    requires PInv(p) && Enabled(p, op)
    ensures PInv(Step(p, op))
  {
    match op
    case Declare(value) =>
      DeclareInv(p.mem, p.handles, value);
      AddsHandles(p.mem, DeclareByref(p.mem, value), p.handles);
    case Leave(a) => LeaveKeeps(p, a);
    case Literal(fields) =>
      LiteralInv(p.mem, p.handles, fields);
      AddsHandles(p.mem, EvalLiteral(p.mem, fields), p.handles);
    case Drop(a) => DropKeeps(p, a);
    case Global =>
      GlobalInv(p.mem, p.handles);
      AddsHandles(p.mem, DefineGlobal(p.mem), p.handles);
    case Copy(a) =>
      CopyBlockInv(p.mem, p.handles, a);
      var (m', r) := CopyBlock(p.mem, a);
      CopyHandles(p.mem, m', p.handles, r);
    case Release(a) => ReleaseKeeps(p, a);
    case Write(a, value) =>
      assert GoodObject(p.mem, a);
      WriteInv(p.mem, p.handles, a, value);
  }

  // ---------------------------------------------------------------- whole runs

  ghost predicate LegalRun(p: Program, run: seq<Op>)
    decreases |run|
  {
    run == [] || (Enabled(p, run[0]) && LegalRun(Step(p, run[0]), run[1..]))
  }

  ghost function After(p: Program, run: seq<Op>): Program
    decreases |run|
  {
    if run == [] then p else After(Step(p, run[0]), run[1..])
  }

  lemma {:induction false} RunKeepsInv(p: Program, run: seq<Op>)
    requires PInv(p) && LegalRun(p, run)
    ensures PInv(After(p, run))
    decreases |run|
  {
    if run != [] {
      StepKeepsInv(p, run[0]);
      RunKeepsInv(Step(p, run[0]), run[1..]);
    }
  }

  /**
   * In every state a correct program reaches: a heap object's count is the
   * number of its references (fields of live heap blocks, the stack frame of
   * a promoted variable, handles) unless latched, and it exists only while
   * there is one; conversely an address that holds no object is referred to
   * by nothing.
   */
  lemma CountsAreExact(run: seq<Op>)
    requires LegalRun(START, run)
    ensures var p := After(START, run);
      && (forall a :: a in p.mem.objects && p.mem.objects[a].flags.needsFree ==>
            var count := p.mem.objects[a].flags.count;
            count > 0 && (count == References(p.mem, a) + p.handles[a] || count == MASK))
      && (forall a :: a != 0 && a !in p.mem.objects ==> References(p.mem, a) == 0 && a !in p.handles)
  {
    RunKeepsInv(START, run);
    var p := After(START, run);
    forall a | a != 0 && a !in p.mem.objects
      ensures References(p.mem, a) == 0 && a !in p.handles
    {
      NoDangling(p.mem, a);
    }
  }

  /** No heap block ever points into a stack frame or at something freed. */
  lemma HeapPointsToHeap(run: seq<Op>, a: Addr, i: nat)
    requires LegalRun(START, run)
    requires var m := After(START, run).mem;
      IsBlock(m, a) && m.objects[a].flags.needsFree && i < |m.objects[a].fields|
    ensures var m := After(START, run).mem;
      var f := m.objects[a].fields[i];
      f.kind == FIELD_IS_OBJECT || f.ptr == 0 || (f.ptr in m.objects && !OnStack(m.objects[f.ptr]))
  {
    RunKeepsInv(START, run);
    var m := After(START, run).mem;
    assert GoodObject(m, a);
    assert GoodField(m, m.objects[a].fields[i], m.objects[a].literal);
  }

  // ------------------------------------------------------------ cycles, leaks

  /** A live heap block holds this object in one of its fields. */
  ghost predicate Holds(m: Memory, a: Addr, x: Addr) {
    IsBlock(m, a) && Live(m.objects[a]) && x in Targets(m.objects[a].fields) && x != 0
  }

  /** A chain of captures, each object held by the one before. */
  ghost predicate CaptureChain(m: Memory, path: seq<Addr>) {
    forall k :: 0 <= k < |path| - 1 ==> Holds(m, path[k], path[k + 1])
  }

  lemma HeldIsOlder(m: Memory, a: Addr, x: Addr)
    requires Shape(m) && Holds(m, a, x)
    ensures IsByref(m, x) || (IsBlock(m, x) && m.objects[x].literal < m.objects[a].literal)
  {
    var b := m.objects[a];
    assert GoodObject(m, a);
    var i := TargetOfField(b.fields, x);
    assert GoodField(m, b.fields[i], b.literal);
  }

  lemma {:induction false} ChainDescends(m: Memory, path: seq<Addr>)
    requires Shape(m) && CaptureChain(m, path) && |path| > 1
    ensures IsBlock(m, path[0])
    ensures var last := path[|path| - 1];
      IsByref(m, last) || (IsBlock(m, last) && m.objects[last].literal < m.objects[path[0]].literal)
    decreases |path|
  {
    hide Shape, Holds;
    assert Holds(m, path[0], path[1]) && IsBlock(m, path[0]) by { HoldsIsBlock(m, path[0], path[1]); }
    HeldIsOlder(m, path[0], path[1]);
    if |path| > 2 {
      assert Holds(m, path[1], path[2]);
      var rest := path[1..];
      assert forall i :: 0 <= i < |rest| ==> rest[i] == path[i + 1];
      ChainDescends(m, rest);
    }
  }

  lemma HoldsIsBlock(m: Memory, a: Addr, x: Addr)
    requires Holds(m, a, x)
    ensures IsBlock(m, a)
  {
  }

  /**
   * In every state a correct program reaches the captures form no cycle: each
   * chain of them leads to blocks evaluated from ever earlier literals, or ends
   * in a `__block` variable, which holds nothing.
   */
  lemma NoCycle(run: seq<Op>, path: seq<Addr>)
    requires LegalRun(START, run) && |path| > 1 && CaptureChain(After(START, run).mem, path)
    ensures path[0] != path[|path| - 1]
  {
    RunKeepsInv(START, run);
    ChainDescends(After(START, run).mem, path);
  }

  lemma {:induction false} HolderBelow(m: Memory, n: nat, x: Addr) returns (a: Addr)
    requires ReferencesBelow(m, n, x) > 0
    ensures x in HeldAt(m, a)
  {
    if x in HeldAt(m, n - 1) {
      a := n - 1;
    } else {
      a := HolderBelow(m, n - 1, x);
    }
  }

  ghost predicate Unrooted(p: Program) {
    && (forall a :: IsByref(p.mem, a) ==> p.mem.objects[a].flags.needsFree)
    && (forall a :: a in p.mem.objects && p.mem.objects[a].flags.needsFree ==>
          p.mem.objects[a].flags.count != MASK && a !in p.handles)
  }

  /** Without a frame, a handle or a latched count there is nothing on the heap. */
  lemma {:induction false} NothingUnrooted(p: Program, a: Addr)
    requires PInv(p) && Unrooted(p) && a in p.mem.objects && p.mem.objects[a].flags.needsFree
    ensures false
    decreases if IsBlock(p.mem, a) then p.mem.next - p.mem.objects[a].literal else p.mem.next + 1
  {
    var holder := HolderBelow(p.mem, p.mem.next, a);
    assert GoodObject(p.mem, holder) && GoodObject(p.mem, a);
    var fields, literal := p.mem.objects[holder].fields, p.mem.objects[holder].literal;
    var i := TargetOfField(fields, a);
    assert GoodField(p.mem, fields[i], literal);
    NothingUnrooted(p, holder);
  }

  /** When every scope is left and every handle released, nothing is left on the heap unless it latched. */
  lemma NoLeaks(run: seq<Op>)
    requires LegalRun(START, run)
    requires var p := After(START, run);
      && p.handles == multiset{}
      && (forall a :: IsByref(p.mem, a) ==> p.mem.objects[a].flags.needsFree)
      && (forall a :: a in p.mem.objects ==> p.mem.objects[a].flags.count != MASK)
    ensures forall a :: a in After(START, run).mem.objects ==>
      !After(START, run).mem.objects[a].flags.needsFree
  {
    RunKeepsInv(START, run);
    var p := After(START, run);
    forall a | a in p.mem.objects && p.mem.objects[a].flags.needsFree
      ensures false
    {
      NothingUnrooted(p, a);
    }
  }

  // ---------------------------------------------------------------- one cell

  /** The variable a step writes, if any. */
  ghost predicate Writes(p: Program, op: Op, variable: nat) {
    op.Write? && IsByref(p.mem, op.a) && p.mem.objects[op.a].variable == variable
  }

  /** A holder still reads the same variable, and the same value from it. */
  ghost predicate CellKept(m: Memory, m': Memory, x: Addr) {
    && IsByref(m, x) && IsByref(m, m.objects[x].forwarding)
    && IsByref(m', x) && IsByref(m', m'.objects[x].forwarding)
    && m'.objects[x].variable == m.objects[x].variable
    && ReadVariable(m', x) == ReadVariable(m, x)
  }

  lemma ShrinksReadings(m: Memory, m': Memory, x: Addr)
    requires Shrinks(m, m') && Shape(m') && IsByref(m', x)
    requires IsByref(m, x) && IsByref(m, m.objects[x].forwarding)
    ensures CellKept(m, m', x)
  {
    assert GoodObject(m', x);
  }

  lemma AddsKeepsCell(m: Memory, m': Memory, x: Addr)
    requires Adds(m, m', m.next) && IsByref(m, x) && IsByref(m, m.objects[x].forwarding)
    ensures CellKept(m, m', x)
  {
  }

  lemma LeaveKeepsCell(p: Program, a: Addr, x: Addr)
    requires PInv(p) && Enabled(p, Leave(a)) && IsByref(p.mem, x) && IsByref(LeaveByref(p.mem, a), x)
    ensures CellKept(p.mem, LeaveByref(p.mem, a), x)
  {
    LeaveInv(p.mem, p.handles, a);
    var m' := LeaveByref(p.mem, a);
    assert GoodObject(p.mem, x) && GoodObject(m', x);
    assert m'.objects[x].forwarding in Free(p.mem, a).objects;
  }

  lemma ReleaseKeepsCell(p: Program, a: Addr, x: Addr)
    requires PInv(p) && Enabled(p, Release(a)) && IsByref(p.mem, x) && IsByref(ReleaseBlock(p.mem, a), x)
    ensures CellKept(p.mem, ReleaseBlock(p.mem, a), x)
  {
    ReleaseBlockInv(p.mem, p.handles, a);
    assert GoodObject(p.mem, x);
    ShrinksReadings(p.mem, ReleaseBlock(p.mem, a), x);
  }

  lemma OthersKeepCell(p: Program, op: Op, x: Addr)
    requires PInv(p) && Enabled(p, op) && !op.Write? && IsByref(p.mem, x) && IsByref(Step(p, op).mem, x)
    ensures CellKept(p.mem, Step(p, op).mem, x)
  {
    assert GoodObject(p.mem, x);
    match op
    case Declare(value) =>
      DeclareInv(p.mem, p.handles, value);
      AddsKeepsCell(p.mem, DeclareByref(p.mem, value), x);
    case Leave(a) => LeaveKeepsCell(p, a, x);
    case Literal(fields) =>
      LiteralInv(p.mem, p.handles, fields);
      AddsKeepsCell(p.mem, EvalLiteral(p.mem, fields), x);
    case Drop(a) =>
    case Global =>
      GlobalInv(p.mem, p.handles);
      AddsKeepsCell(p.mem, DefineGlobal(p.mem), x);
    case Copy(a) =>
      CopyBlockInv(p.mem, p.handles, a);
      CopyKeepsVariable(p.mem, CopyBlock(p.mem, a).0, x);
    case Release(a) => ReleaseKeepsCell(p, a, x);
  }

  /**
   * A `__block` variable is one cell. Whatever step is taken, a holder that
   * is still there (stack or heap) reads what it read before, except that a
   * write through any holder is seen by every holder of that variable.
   */
  lemma VariableIsOneCell(p: Program, op: Op, x: Addr)
    requires PInv(p) && Enabled(p, op) && IsByref(p.mem, x) && IsByref(Step(p, op).mem, x)
    ensures var m, m' := p.mem, Step(p, op).mem;
      && IsByref(m, m.objects[x].forwarding) && IsByref(m', m'.objects[x].forwarding)
      && m'.objects[x].variable == m.objects[x].variable
      && ReadVariable(m', x) ==
         if Writes(p, op, m.objects[x].variable) then op.value else ReadVariable(m, x)
  {
    if op.Write? {
      assert GoodObject(p.mem, x) && GoodObject(p.mem, op.a);
      WriteReadings(p.mem, op.a, op.value, x);
    } else {
      OthersKeepCell(p, op, x);
    }
  }

  lemma CopyKeepsVariable(m: Memory, m': Memory, x: Addr)
    requires Extends(m, m') && SameReadings(m, m') && IsByref(m, x) && IsByref(m, m.objects[x].forwarding)
    ensures CellKept(m, m', x)
  {
    assert Kept(x, m.objects[x], m'.objects[x]);
  }

  lemma WriteReadings(m: Memory, a: Addr, value: int, x: Addr)
    requires Shape(m) && IsByref(m, a) && IsByref(m, x)
    requires IsByref(m, m.objects[a].forwarding) && IsByref(m, m.objects[x].forwarding)
    ensures var m' := WriteVariable(m, a, value);
      && IsByref(m', x) && IsByref(m', m'.objects[x].forwarding)
      && m'.objects[x].variable == m.objects[x].variable
      && ReadVariable(m', x) ==
         if m.objects[a].variable == m.objects[x].variable then value else ReadVariable(m, x)
  {
    assert GoodObject(m, a) && GoodObject(m, x);
  }

  /** Two holders of one variable always agree, promoted or not. */
  lemma HoldersAgree(run: seq<Op>, x: Addr, y: Addr)
    requires LegalRun(START, run)
    requires var m := After(START, run).mem;
      IsByref(m, x) && IsByref(m, y) && m.objects[x].variable == m.objects[y].variable
    ensures var m := After(START, run).mem;
      var cell := m.objects[x].forwarding;
      && IsByref(m, cell) && m.objects[cell].forwarding == cell
      && m.objects[y].forwarding == cell
      && ReadVariable(m, x) == ReadVariable(m, y)
  {
    RunKeepsInv(START, run);
    assert GoodObject(After(START, run).mem, x);
  }
}
