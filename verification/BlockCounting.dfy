/**
 * What the Blocks runtime keeps: every live heap object's count is the number
 * of references to it, and every pointer a heap object holds is good.
 */
module BlockCounting {
  import opened BlockMemory

  // ------------------------------------------------------- counted references

  /** The pointers a block's fields count for: blocks and byrefs, not foreign objects. */
  function Targets(fields: seq<Field>): multiset<Addr> {
    if fields == [] then multiset{}
    else (if fields[0].kind == FIELD_IS_OBJECT then multiset{} else multiset{fields[0].ptr}) + Targets(fields[1..])
  }

  /**
   * What the object at `a` holds: a live heap block, its captured blocks and
   * byrefs; a promoted byref's stack frame, the heap copy.
   */
  function Held(a: Addr, o: Object): multiset<Addr> {
    match o
    case Block(f, _, fields) => if f.needsFree && f.count > 0 then Targets(fields) else multiset{}
    case Byref(f, forwarding, _, _) => if !f.needsFree && forwarding != a then multiset{forwarding} else multiset{}
  }

  function HeldAt(m: Memory, a: Addr): multiset<Addr> {
    if a in m.objects then Held(a, m.objects[a]) else multiset{}
  }

  /** How often objects at addresses below n hold a reference to x. */
  function ReferencesBelow(m: Memory, n: nat, x: Addr): nat {
    if n == 0 then 0 else ReferencesBelow(m, n - 1, x) + HeldAt(m, n - 1)[x]
  }

  /** How often the memory holds a reference to x. */
  function References(m: Memory, x: Addr): nat {
    ReferencesBelow(m, m.next, x)
  }

  /** Two memories that differ at most in what they hold at k. */
  ghost predicate SameExceptAt(m: Memory, m': Memory, k: Addr) {
    forall a :: a != k ==> HeldAt(m, a) == HeldAt(m', a)
  }

  lemma {:induction false} ReferencesBelowUpdate(m: Memory, m': Memory, k: Addr, n: nat, x: Addr)
    requires SameExceptAt(m, m', k)
    ensures k < n ==>
      ReferencesBelow(m', n, x) + HeldAt(m, k)[x] == ReferencesBelow(m, n, x) + HeldAt(m', k)[x]
    ensures k >= n ==> ReferencesBelow(m', n, x) == ReferencesBelow(m, n, x)
  {
    if n > 0 {
      ReferencesBelowUpdate(m, m', k, n - 1, x);
      assert n - 1 != k ==> HeldAt(m, n - 1) == HeldAt(m', n - 1);
    }
  }

  lemma {:induction false} ReferencesBelowBound(m: Memory, n: nat, n': nat, x: Addr)
    requires n <= n' && forall a :: n <= a < n' ==> HeldAt(m, a) == multiset{}
    ensures ReferencesBelow(m, n', x) == ReferencesBelow(m, n, x)
  {
    if n < n' {
      ReferencesBelowBound(m, n, n' - 1, x);
    }
  }

  /** One object changed (or came, or went): the references move accordingly. */
  lemma ReferencesUpdate(m: Memory, m': Memory, k: Addr)
    requires Addressed(m) && m.next <= m'.next && k < m'.next && SameExceptAt(m, m', k)
    ensures forall x :: References(m', x) + HeldAt(m, k)[x] == References(m, x) + HeldAt(m', k)[x]
  {
    forall x
      ensures References(m', x) + HeldAt(m, k)[x] == References(m, x) + HeldAt(m', k)[x]
    {
      ReferencesBelowUpdate(m, m', k, m'.next, x);
      ReferencesBelowBound(m, m.next, m'.next, x);
    }
  }

  /** The object at k changed without changing what it holds. */
  lemma ReferencesSame(m: Memory, m': Memory, k: Addr)
    requires Addressed(m) && m.next <= m'.next && k < m'.next && SameExceptAt(m, m', k)
    requires HeldAt(m, k) == HeldAt(m', k)
    ensures forall x :: References(m', x) == References(m, x)
  {
    ReferencesUpdate(m, m', k);
  }

  // -------------------------------------------------------------- invariant

  ghost predicate Addressed(m: Memory) {
    m.next > 0 && forall a :: a in m.objects ==> 0 < a < m.next
  }

  ghost predicate IsBlock(m: Memory, a: Addr) {
    a in m.objects && m.objects[a].Block?
  }

  ghost predicate Live(o: Object) {
    o.flags.needsFree && o.flags.count > 0
  }

  /** A reference that may be handed out: NULL, a global block or a live heap object. */
  ghost predicate GoodRef(m: Memory, a: Addr) {
    a == 0 || (a in m.objects && (Live(m.objects[a]) || (m.objects[a].Block? && m.objects[a].flags.isGlobal)))
  }

  /** A field of a live heap block never points into a stack frame or at a freed object. */
  ghost predicate GoodField(m: Memory, f: Field, literal: nat) {
    && (IsByrefKind(f.kind) ==> IsByref(m, f.ptr) && Live(m.objects[f.ptr]))
    && (f.kind == FIELD_IS_BLOCK && f.ptr != 0 ==>
        IsBlock(m, f.ptr) && GoodRef(m, f.ptr) && m.objects[f.ptr].literal < literal)
  }

  ghost predicate GoodFields(m: Memory, fields: seq<Field>, literal: nat) {
    forall i :: 0 <= i < |fields| ==> GoodField(m, fields[i], literal)
  }

  ghost predicate HelperKinds(fields: seq<Field>) {
    forall i :: 0 <= i < |fields| ==> BlockHelperKind(fields[i].kind)
  }

  /** A stack block captured only what existed when its literal was evaluated. */
  ghost predicate CapturedBefore(fields: seq<Field>, a: Addr) {
    forall i :: 0 <= i < |fields| && fields[i].kind != FIELD_IS_OBJECT ==> fields[i].ptr < a
  }

  ghost predicate GoodObject(m: Memory, a: Addr)
    requires a in m.objects
  {
    var f := m.objects[a].flags;
    && f.count <= MASK
    && !(f.needsFree && f.isGlobal)
    && (!f.needsFree ==> f.count == 0)
    && match m.objects[a]
       case Block(_, literal, fields) =>
         && literal <= a
         && HelperKinds(fields)
         && (fields != [] ==> f.hasHelpers && !f.isGlobal)
         && (OnStack(m.objects[a]) ==> literal == a && CapturedBefore(fields, a))
         && (Live(m.objects[a]) ==> GoodFields(m, fields, literal))
       case Byref(_, forwarding, variable, _) =>
         && !f.isGlobal
         && variable <= a
         && IsByref(m, forwarding)
         && m.objects[forwarding].forwarding == forwarding
         && m.objects[forwarding].variable == variable
         && (f.needsFree ==> forwarding == a && f.count > 0)
         && (!f.needsFree ==> variable == a)
         && (forwarding != a ==> m.objects[forwarding].flags.needsFree)
  }

  ghost predicate GoodObjects(m: Memory) {
    forall a {:trigger GoodObject(m, a)} :: a in m.objects ==> GoodObject(m, a)
  }

  /** All holders of one `__block` variable forward to the same cell. */
  ghost predicate OneCell(m: Memory) {
    forall x, y :: IsByref(m, x) && IsByref(m, y) && m.objects[x].variable == m.objects[y].variable ==>
      m.objects[x].forwarding == m.objects[y].forwarding
  }

  /** Count equals references held in memory plus references held outside, or is latched. */
  ghost predicate Counted(m: Memory, outside: multiset<Addr>) {
    forall a :: a in m.objects && m.objects[a].flags.needsFree ==>
      m.objects[a].flags.count == MASK || m.objects[a].flags.count == References(m, a) + outside[a]
  }

  ghost predicate GoodRefs(m: Memory, outside: multiset<Addr>) {
    forall a :: a in outside ==> GoodRef(m, a)
  }

  ghost predicate Inv(m: Memory, outside: multiset<Addr>) {
    Shape(m) && Counted(m, outside) && GoodRefs(m, outside)
  }

  // ------------------------------------------------------------ preservation

  /** `o'` is `o` with at most its count raised, or a stack byref promoted. */
  ghost predicate Kept(a: Addr, o: Object, o': Object) {
    && o'.flags == o.flags.(count := o'.flags.count)
    && o'.flags.count >= o.flags.count
    && (!o.flags.needsFree ==> o'.flags.count == o.flags.count)
    && (o.Block? ==> o'.Block? && o'.literal == o.literal && o'.fields == o.fields)
    && (o.Byref? ==> o'.Byref? && o'.variable == o.variable && o'.value == o.value
                     && (o'.forwarding != o.forwarding ==> OnStack(o) && o.forwarding == a))
  }

  /** What copying may do to the objects there are: nothing moves, no count drops. */
  ghost predicate Extends(m: Memory, m': Memory) {
    m.next <= m'.next && forall a :: a in m.objects ==> a in m'.objects && Kept(a, m.objects[a], m'.objects[a])
  }

  /** Every variable reads the same through every holder there was. */
  ghost predicate SameReadings(m: Memory, m': Memory) {
    forall a :: IsByref(m, a) && IsByref(m, m.objects[a].forwarding) ==>
      && IsByref(m', a) && IsByref(m', m'.objects[a].forwarding)
      && ReadVariable(m', a) == ReadVariable(m, a)
  }

  lemma ExtendsTransitive(m: Memory, m1: Memory, m2: Memory)
    requires Extends(m, m1) && Extends(m1, m2)
    ensures Extends(m, m2)
  {
    forall a | a in m.objects
      ensures a in m2.objects && Kept(a, m.objects[a], m2.objects[a])
    {
      assert Kept(a, m.objects[a], m1.objects[a]) && Kept(a, m1.objects[a], m2.objects[a]);
    }
  }

  function Recount(m: Memory, a: Addr, count: nat): Memory
    requires a in m.objects
  {
    Put(m, a, WithFlags(m.objects[a], m.objects[a].flags.(count := count)))
  }

  ghost predicate Shape(m: Memory) {
    Addressed(m) && GoodObjects(m) && OneCell(m)
  }

  lemma RecountGoodObject(m: Memory, a: Addr, count: nat, x: Addr)
    requires Shape(m) && a in m.objects && Live(m.objects[a]) && 0 < count <= MASK && x in m.objects
    ensures GoodObject(Recount(m, a, count), x)
  {
    assert GoodObject(m, x);
    assert GoodObject(m, a);
    var m' := Recount(m, a, count);
    if m.objects[x].Block? && Live(m.objects[x]) {
      var fields, literal := m.objects[x].fields, m.objects[x].literal;
      forall i | 0 <= i < |fields|
        ensures GoodField(m', fields[i], literal)
      {
        assert GoodField(m, fields[i], literal);
      }
    }
  }

  lemma RecountObjects(m: Memory, a: Addr, count: nat)
    requires Shape(m) && a in m.objects && Live(m.objects[a]) && 0 < count <= MASK
    ensures GoodObjects(Recount(m, a, count))
  {
    forall x | x in m.objects
      ensures GoodObject(Recount(m, a, count), x)
    {
      RecountGoodObject(m, a, count, x);
    }
  }

  lemma RecountCells(m: Memory, a: Addr, count: nat)
    requires a in m.objects
    ensures OneCell(m) ==> OneCell(Recount(m, a, count))
    ensures SameReadings(m, Recount(m, a, count))
  {
  }

  lemma RecountReferences(m: Memory, a: Addr, count: nat)
    requires Addressed(m) && a in m.objects && Live(m.objects[a]) && count > 0
    ensures forall x :: References(Recount(m, a, count), x) == References(m, x)
  {
    ReferencesSame(m, Recount(m, a, count), a);
  }

  /** Giving a live object another positive count disturbs nothing but the count. */
  lemma RecountShape(m: Memory, a: Addr, count: nat)
    requires Shape(m) && a in m.objects && Live(m.objects[a]) && 0 < count <= MASK
    ensures Shape(Recount(m, a, count))
    ensures forall x :: References(Recount(m, a, count), x) == References(m, x)
    ensures forall x :: GoodRef(m, x) ==> GoodRef(Recount(m, a, count), x)
    ensures SameReadings(m, Recount(m, a, count))
  {
    RecountObjects(m, a, count);
    RecountCells(m, a, count);
    RecountReferences(m, a, count);
  }

  /** Raising one live object's count on behalf of a new outside reference. */
  lemma IncrementInv(m: Memory, outside: multiset<Addr>, a: Addr)
    requires Inv(m, outside) && a in m.objects && Live(m.objects[a])
    ensures var m' := Put(m, a, WithFlags(m.objects[a], LatchingIncr(m.objects[a].flags)));
      Inv(m', outside + multiset{a}) && Extends(m, m') && SameReadings(m, m')
  {
    var m' := Put(m, a, WithFlags(m.objects[a], LatchingIncr(m.objects[a].flags)));
    var count := LatchingIncr(m.objects[a].flags).count;
    assert GoodObject(m, a);
    assert m' == Recount(m, a, count);
    hide Shape, GoodObject, GoodRef, References, SameReadings, Extends;
    RecountShape(m, a, count);
    RecountExtends(m, a, count);
  }

  lemma RecountExtends(m: Memory, a: Addr, count: nat)
    requires a in m.objects && Live(m.objects[a]) && count >= m.objects[a].flags.count
    ensures Extends(m, Recount(m, a, count))
  {
  }

  lemma GoodFieldsExtend(m: Memory, m': Memory, fields: seq<Field>, literal: nat)
    requires Extends(m, m') && GoodFields(m, fields, literal)
    ensures GoodFields(m', fields, literal)
  {
    forall i | 0 <= i < |fields|
      ensures GoodField(m', fields[i], literal)
    {
      assert GoodField(m, fields[i], literal);
    }
  }
}
