/**
 * The reference-counted lifecycle of the callchain buffers
 * (get_callchain_buffers / put_callchain_buffers, kernel/events/callchain.c:97-130)
 * on an abstract view: the consumer count nr_callchain_events, a 32-bit atomic_t,
 * and whether callchain_cpus_entries points at a table.
 */
module CallchainLifecycle {
  import opened Errno

  const INT_MIN: int := -0x8000_0000
  const INT_MAX: int := 0x7fff_ffff

  predicate IsInt32(x: int) { INT_MIN <= x <= INT_MAX }

  /** Two's-complement wrap-around of an atomic_t update. */
  function Wrap32(x: int): (r: int)
    ensures IsInt32(r)
    ensures IsInt32(x) ==> r == x
    ensures (r - x) % 0x1_0000_0000 == 0
  {
    (x - INT_MIN) % 0x1_0000_0000 + INT_MIN
  }

  datatype Lifecycle = Lifecycle(count: int, published: bool)

  /** The new view, the value returned, and whether alloc_callchain_buffers ran. */
  datatype GetResult = GetResult(state: Lifecycle, err: int, allocAttempted: bool)

  /** get_callchain_buffers, with `allocOk` the outcome alloc_callchain_buffers would have. */
  function Get(s: Lifecycle, allocOk: bool): (r: GetResult)
    requires IsInt32(s.count)
    ensures r.state.count == Wrap32(s.count + 1)
    ensures r.err == 0 || r.err == -ENOMEM || r.err == -EINVAL
    ensures r.allocAttempted <==> r.state.count == 1
    ensures r.state.count < 1 ==> r.err == -EINVAL && r.state.published == s.published
    ensures r.state.count > 1 ==>
      r.state.published == s.published && (r.err == 0 <==> s.published) && (!s.published ==> r.err == -ENOMEM)
    ensures r.state.count == 1 ==>
      (r.err == 0 <==> allocOk) &&
      (allocOk ==> r.state.published) &&
      (!allocOk ==> r.err == -ENOMEM && r.state.published == s.published)
  {
    var c := Wrap32(s.count + 1);
    if c < 1 then GetResult(s.(count := c), -EINVAL, false)
    else if c > 1 then GetResult(s.(count := c), if s.published then 0 else -ENOMEM, false)
    else if allocOk then GetResult(Lifecycle(c, true), 0, true)
    else GetResult(s.(count := c), -ENOMEM, true)
  }

  /**
   * release_callchain_buffers dereferences the published table, so a put that
   * brings the count to zero is only defined while a table is published.
   */
  predicate PutAllowed(s: Lifecycle)
  {
    IsInt32(s.count) && (Wrap32(s.count - 1) == 0 ==> s.published)
  }

  datatype PutResult = PutResult(state: Lifecycle, released: bool)

  /** put_callchain_buffers. */
  function Put(s: Lifecycle): (r: PutResult)
    requires PutAllowed(s)
    ensures r.state.count == Wrap32(s.count - 1)
    ensures r.released <==> r.state.count == 0
    ensures r.state.published <==> s.published && !r.released
  {
    var c := Wrap32(s.count - 1);
    if c == 0 then PutResult(Lifecycle(0, false), true)
    else PutResult(s.(count := c), false)
  }

  /** One consumer registration or unregistration. */
  datatype Op = GetOp(allocOk: bool) | PutOp

  predicate StepAllowed(s: Lifecycle, op: Op)
  {
    IsInt32(s.count) && (op.PutOp? ==> PutAllowed(s))
  }

  function Step(s: Lifecycle, op: Op): Lifecycle
    requires StepAllowed(s, op)
  {
    match op
    case GetOp(ok) => Get(s, ok).state
    case PutOp => Put(s).state
  }

  ghost predicate Allowed(s: Lifecycle, ops: seq<Op>)
    decreases |ops|
  {
    ops == [] || (StepAllowed(s, ops[0]) && Allowed(Step(s, ops[0]), ops[1..]))
  }

  /** The final view, how many tables were allocated and released, and how many gets succeeded. */
  datatype RunResult = RunResult(final: Lifecycle, allocs: nat, releases: nat, okGets: nat)

  function Run(s: Lifecycle, ops: seq<Op>): RunResult
    requires Allowed(s, ops)
    decreases |ops|
  {
    if ops == [] then RunResult(s, 0, 0, 0)
    else
      var rest := Run(Step(s, ops[0]), ops[1..]);
      match ops[0]
      case GetOp(ok) =>
        var g := Get(s, ok);
        rest.(allocs := rest.allocs + (if g.allocAttempted && ok then 1 else 0),
              okGets := rest.okGets + (if g.err == 0 then 1 else 0))
      case PutOp =>
        rest.(releases := rest.releases + (if Put(s).released then 1 else 0))
  }

  /**
   * Well-behaved consumers: every get keeps the count below INT_MAX and finds
   * memory, every put undoes an earlier get (the count is above `floor`).
   */
  ghost predicate Consumers(s: Lifecycle, ops: seq<Op>, floor: int, allocAlwaysOk: bool)
    decreases |ops|
  {
    ops == [] ||
    (IsInt32(s.count) &&
     (match ops[0]
      case GetOp(ok) => s.count < INT_MAX && (allocAlwaysOk ==> ok)
      case PutOp => s.count > floor) &&
     StepAllowed(s, ops[0]) &&
     Consumers(Step(s, ops[0]), ops[1..], floor, allocAlwaysOk))
  }

  /** The pool invariant: a table is published exactly while the count is positive. */
  predicate Inv(s: Lifecycle)
  {
    0 <= s.count <= INT_MAX && (s.published <==> s.count > 0)
  }

  /**
   * With allocations succeeding, any sequence of matched gets and puts keeps the
   * invariant, and tables are allocated exactly on 0 -> 1 and released exactly on
   * 1 -> 0: allocations minus releases is the change in "count is positive".
   */
  lemma {:induction false} RefcountBalanced(s: Lifecycle, ops: seq<Op>)
    requires Inv(s)
    requires Consumers(s, ops, 0, true)
    ensures Allowed(s, ops)
    ensures Inv(Run(s, ops).final)
    ensures Run(s, ops).allocs + (if s.count > 0 then 1 else 0)
         == Run(s, ops).releases + (if Run(s, ops).final.count > 0 then 1 else 0)
    ensures Run(s, ops).okGets == |GetsIn(ops)|
    decreases |ops|
  {
    if ops != [] {
      var s' := Step(s, ops[0]);
      assert Inv(s');
      RefcountBalanced(s', ops[1..]);
      assert GetsIn(ops) == (if ops[0].GetOp? then [ops[0]] else []) + GetsIn(ops[1..]);
    }
  }

  /** The gets of a sequence of operations, in order. */
  function GetsIn(ops: seq<Op>): (r: seq<Op>)
    ensures |r| <= |ops|
    ensures forall o :: o in r ==> o.GetOp? && o in ops
    ensures (forall o :: o in ops ==> o.GetOp?) ==> r == ops
    ensures (forall o :: o in ops ==> o.PutOp?) ==> r == []
  {
    if ops == [] then []
    else (if ops[0].GetOp? then [ops[0]] else []) + GetsIn(ops[1..])
  }

  /**
   * A failed first allocation is sticky: while any consumer remains, no table
   * is ever published again and every later get reports -ENOMEM, whatever the
   * allocator would now do.  (The put that would bring the count to zero is not
   * allowed at all, since it would release a null table.)
   */
  lemma {:induction false} FailedAllocationIsSticky(s: Lifecycle, ops: seq<Op>)
    requires 1 <= s.count <= INT_MAX && !s.published
    requires Consumers(s, ops, 1, false)
    ensures Allowed(s, ops)
    ensures !Run(s, ops).final.published && Run(s, ops).final.count >= 1
    ensures Run(s, ops).okGets == 0 && Run(s, ops).allocs == 0
    decreases |ops|
  {
    if ops != [] {
      FailedAllocationIsSticky(Step(s, ops[0]), ops[1..]);
    }
  }
}
