/**
 * The memory the Blocks runtime works on, and the runtime's operations as
 * functions on it.
 *
 * Addresses are serial numbers handed out in order of creation (0 is NULL),
 * so a block literal can only capture addresses below its own. Stack, heap
 * and global objects share one address space; the flags tell them apart, as
 * they do in the runtime.
 */
module BlockMemory {

  type Addr = nat

  const MASK: nat := 0xffff           // BLOCK_REFCOUNT_MASK

  const FIELD_IS_OBJECT: bv8 := 3     // BLOCK_FIELD_IS_OBJECT
  const FIELD_IS_BLOCK: bv8 := 7      // BLOCK_FIELD_IS_BLOCK
  const FIELD_IS_BYREF: bv8 := 8      // BLOCK_FIELD_IS_BYREF
  const FIELD_IS_WEAK: bv8 := 16      // BLOCK_FIELD_IS_WEAK
  const BYREF_CALLER: bv8 := 128      // BLOCK_BYREF_CALLER

  /** The flag word: the count in its low 16 bits and the named bits above. */
  datatype Flags = Flags(count: nat, needsFree: bool, hasHelpers: bool, isGlobal: bool)

  /** A captured pointer and the constant its copy and dispose helpers pass. */
  datatype Field = Field(kind: bv8, ptr: Addr)

  /**
   * `literal` is the serial number of the literal a block was evaluated from;
   * `variable` that of the declaration a byref was made for. A heap copy
   * inherits both.
   */
  datatype Object =
    | Block(flags: Flags, literal: nat, fields: seq<Field>)
    | Byref(flags: Flags, forwarding: Addr, variable: nat, value: int)

  datatype Memory = Memory(objects: map<Addr, Object>, next: Addr)

  predicate IsByrefKind(kind: bv8) {
    kind == FIELD_IS_BYREF || kind == FIELD_IS_BYREF | FIELD_IS_WEAK
  }

  /** The four constants a block's copy and dispose helpers generate. */
  predicate BlockHelperKind(kind: bv8) {
    kind == FIELD_IS_OBJECT || kind == FIELD_IS_BLOCK || IsByrefKind(kind)
  }

  /** And those a `__block` variable's own helpers generate, for what the variable contains. */
  predicate VariableHelperKind(kind: bv8) {
    kind & BYREF_CALLER == BYREF_CALLER && kind & FIELD_IS_BYREF == 0
  }

  predicate OnStack(o: Object) {
    !o.flags.needsFree && !o.flags.isGlobal
  }

  function WithFlags(o: Object, f: Flags): Object {
    match o
    case Block(_, literal, fields) => Block(f, literal, fields)
    case Byref(_, forwarding, variable, value) => Byref(f, forwarding, variable, value)
  }

  function Put(m: Memory, a: Addr, o: Object): Memory {
    m.(objects := m.objects[a := o])
  }

  function Free(m: Memory, a: Addr): Memory {
    m.(objects := m.objects - {a})
  }

  /** latching_incr_int: a full count stays full. */
  function LatchingIncr(f: Flags): Flags {
    if f.count == MASK then f else f.(count := f.count + 1)
  }

  /** latching_decr_int: the new word and the returned count; full and empty counts stay. */
  function LatchingDecr(f: Flags): (Flags, nat) {
    if f.count == MASK then (f, MASK)
    else if f.count == 0 then (f, 0)
    else (f.(count := f.count - 1), f.count - 1)
  }

  // ---------------------------------------------------------------- copying
  //
  // The functions are total: a pointer that is not what the runtime takes it
  // for (undefined behaviour in C) leaves the memory as it is. Every theorem
  // about them assumes the pointers are good.

  /** _Block_copy_internal: the memory after it, and the pointer returned. */
  function CopyBlock(m: Memory, a: Addr): (Memory, Addr)
    decreases a, 1, 0
  {
    if a == 0 || a !in m.objects || !m.objects[a].Block? then (m, a)
    else
      var b := m.objects[a];
      if b.flags.needsFree then (Put(m, a, WithFlags(b, LatchingIncr(b.flags))), a)
      else if b.flags.isGlobal then (m, a)
      else
        var result := m.next;
        var (m1, fields) :=
          if b.flags.hasHelpers then AssignFields(m.(next := result + 1), b.fields, a)
          else (m.(next := result + 1), b.fields);
        (Put(m1, result, Block(b.flags.(count := 1, needsFree := true), b.literal, fields)), result)
  }

  /** The compiler-made copy helper: one _Block_object_assign per captured field. */
  function AssignFields(m: Memory, fields: seq<Field>, bound: Addr): (Memory, seq<Field>)
    decreases bound, 0, |fields| + 1
  {
    if fields == [] then (m, [])
    else
      var (m1, p) := ObjectAssign(m, fields[0], bound);
      var (m2, rest) := AssignFields(m1, fields[1..], bound);
      (m2, [fields[0].(ptr := p)] + rest)
  }

  /** _Block_object_assign: what is stored at the destination. */
  function ObjectAssign(m: Memory, f: Field, bound: Addr): (Memory, Addr)
    decreases bound, 0, 0
  {
    if f.kind & BYREF_CALLER == BYREF_CALLER then (m, f.ptr)
    else if f.kind & FIELD_IS_BYREF == FIELD_IS_BYREF then ByrefAssignCopy(m, f.ptr)
    else if f.kind & FIELD_IS_BLOCK == FIELD_IS_BLOCK then
      if f.ptr < bound then CopyBlock(m, f.ptr) else (m, f.ptr)
    else (m, f.ptr)   // a foreign object: the default retain does nothing
  }

  predicate IsByref(m: Memory, a: Addr) {
    a in m.objects && m.objects[a].Byref?
  }

  /** _Block_byref_assign_copy: promote on first use, count afterwards. */
  function ByrefAssignCopy(m: Memory, src: Addr): (Memory, Addr) {
    if !IsByref(m, src) || !IsByref(m, m.objects[src].forwarding) then (m, src)
    else
      var s := m.objects[src];
      var target := m.objects[s.forwarding];
      if target.flags.count == 0 then
        var copy := m.next;
        var promoted := Byref(s.flags.(count := 2, needsFree := true), copy, s.variable, s.value);
        (Memory(m.objects[copy := promoted][src := Byref(s.flags, copy, s.variable, s.value)], copy + 1), copy)
      else if target.flags.needsFree then
        (Put(m, s.forwarding, WithFlags(target, LatchingIncr(target.flags))), s.forwarding)
      else (m, s.forwarding)
  }

  // -------------------------------------------------------------- releasing

  /** Objects whose count is not zero; every release that cascades empties one. */
  ghost function NonZero(m: Memory): set<Addr> {
    set a | a in m.objects && m.objects[a].flags.count > 0
  }

  /** _Block_release. */
  function ReleaseBlock(m: Memory, a: Addr): (m': Memory)
    ensures NonZero(m') <= NonZero(m)
    decreases NonZero(m), 0
  {
    if a == 0 || a !in m.objects || !m.objects[a].Block? then m
    else
      var b := m.objects[a];
      var (flags, count) := LatchingDecr(b.flags);
      var m1 := Put(m, a, WithFlags(b, flags));
      if count > 0 then m1
      else if b.flags.needsFree && b.flags.count > 0 then
        assert a in NonZero(m) && a !in NonZero(m1);
        Free(if b.flags.hasHelpers then DisposeFields(m1, b.fields) else m1, a)
      else m1   // global: nothing; stack: reported and ignored
  }

  /** The compiler-made dispose helper: one _Block_object_dispose per captured field. */
  function DisposeFields(m: Memory, fields: seq<Field>): (m': Memory)
    ensures NonZero(m') <= NonZero(m)
    decreases NonZero(m), |fields| + 2
  {
    if fields == [] then m
    else DisposeFields(ObjectDispose(m, fields[0]), fields[1..])
  }

  /** _Block_object_dispose. */
  function ObjectDispose(m: Memory, f: Field): (m': Memory)
    ensures NonZero(m') <= NonZero(m)
    decreases NonZero(m), 1
  {
    if f.kind & FIELD_IS_BYREF != 0 then ByrefRelease(m, f.ptr)
    else if f.kind & (FIELD_IS_BLOCK | BYREF_CALLER) == FIELD_IS_BLOCK then ReleaseBlock(m, f.ptr)
    else m
  }

  /** _Block_byref_release; the contents are never retained, so there is nothing to cascade into. */
  function ByrefRelease(m: Memory, a: Addr): (m': Memory)
    ensures NonZero(m') <= NonZero(m)
  {
    if !IsByref(m, a) || !IsByref(m, m.objects[a].forwarding) then m
    else
      var shared := m.objects[a].forwarding;
      var o := m.objects[shared];
      if !o.flags.needsFree || o.flags.count == 0 then m
      else
        var (flags, count) := LatchingDecr(o.flags);
        var m1 := Put(m, shared, WithFlags(o, flags));
        if count == 0 then Free(m1, shared) else m1
  }

  // ------------------------------------------------ what compiled code does

  /** Entering the scope of a `__block` variable. */
  function DeclareByref(m: Memory, value: int): Memory {
    Memory(m.objects[m.next := Byref(Flags(0, false, false, false), m.next, m.next, value)], m.next + 1)
  }

  /** Leaving it: the compiler disposes of the byref, then the frame is gone. */
  function LeaveByref(m: Memory, a: Addr): Memory {
    Free(ObjectDispose(m, Field(FIELD_IS_BYREF, a)), a)
  }

  /** Evaluating a block literal on the stack. */
  function EvalLiteral(m: Memory, fields: seq<Field>): Memory {
    Memory(m.objects[m.next := Block(Flags(0, false, fields != [], false), m.next, fields)], m.next + 1)
  }

  function DefineGlobal(m: Memory): Memory {
    Memory(m.objects[m.next := Block(Flags(0, false, false, true), m.next, [])], m.next + 1)
  }

  /** Every access to a `__block` variable goes through the forwarding pointer. */
  function ReadVariable(m: Memory, a: Addr): int
    requires IsByref(m, a) && IsByref(m, m.objects[a].forwarding)
  {
    m.objects[m.objects[a].forwarding].value
  }

  function WriteVariable(m: Memory, a: Addr, value: int): Memory
    requires IsByref(m, a) && IsByref(m, m.objects[a].forwarding)
  {
    var target := m.objects[a].forwarding;
    var o := m.objects[target];
    Put(m, target, Byref(o.flags, o.forwarding, o.variable, value))
  }
}
