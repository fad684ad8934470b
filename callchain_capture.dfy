/**
 * What one capture appends to its entry (get_perf_callchain,
 * kernel/events/callchain.c:170-214), as a function of its inputs.  The arch
 * frame walkers perf_callchain_kernel and perf_callchain_user are inputs: each
 * is the sequence of values the walker would store for the registers it is given.
 */
module CallchainCapture {
  import opened Errno
  import opened CallchainEntry

  /** A register snapshot; `userMode` is user_mode(regs). */
  datatype Regs = Regs(userMode: bool, id: int)

  /** The task running on this CPU (`current`): its id, whether it has an mm, and task_pt_regs(current). */
  datatype Task = Task(pid: int, hasMm: bool, userRegs: Regs)

  /** What an arch walker stores for a given snapshot. */
  type Walker = Regs -> seq<u64>

  /** The registers the user walk runs on: the snapshot itself, the task's saved user registers, or none. */
  function UserRegs(regs: Regs, current: Task): Option<Regs>
  {
    if regs.userMode then Some(regs)
    else if current.hasMm then Some(current.userRegs)
    else None
  }

  function KernelPart(kernel: bool, addMark: bool, regs: Regs, kwalk: Walker): seq<u64>
  {
    if kernel && !regs.userMode then
      (if addMark then [PERF_CONTEXT_KERNEL] else []) + kwalk(regs)
    else []
  }

  function UserPart(user: bool, crosstask: bool, addMark: bool, regs: Regs, current: Task, uwalk: Walker): seq<u64>
  {
    if !user then []
    else match UserRegs(regs, current)
      case None => []
      case Some(ur) =>
        if crosstask then []
        else (if addMark then [PERF_CONTEXT_USER] else []) + uwalk(ur)
  }

  /** The values one capture stores, in order. */
  function Appended(kernel: bool, user: bool, crosstask: bool, addMark: bool,
                    regs: Regs, current: Task, kwalk: Walker, uwalk: Walker): (r: seq<u64>)
    // with markers and both parts: kernel marker, kernel frames, user marker, user frames
    ensures kernel && user && addMark && !crosstask && !regs.userMode && current.hasMm ==>
      r == [PERF_CONTEXT_KERNEL] + kwalk(regs) + [PERF_CONTEXT_USER] + uwalk(current.userRegs)
    // kernel frames are walked only when the snapshot is not a user-mode one
    ensures regs.userMode ==>
      r == (if user && !crosstask then (if addMark then [PERF_CONTEXT_USER] else []) + uwalk(regs) else [])
    // a cross-task capture keeps the kernel part and drops every user value
    ensures crosstask ==> r == KernelPart(kernel, addMark, regs, kwalk)
    // a kernel-mode snapshot of a task without an mm has no user part
    ensures !regs.userMode && !current.hasMm ==> r == KernelPart(kernel, addMark, regs, kwalk)
    // nothing requested, nothing stored
    ensures !kernel && !user ==> r == []
  {
    KernelPart(kernel, addMark, regs, kwalk) + UserPart(user, crosstask, addMark, regs, current, uwalk)
  }

  /**
   * The entry after the capture: `nr` is reset to `initNr` (the slots below it keep
   * whatever they held) and the appended values are stored with truncation.
   */
  function Captured(e: Entry, initNr: nat, kernel: bool, user: bool, crosstask: bool, addMark: bool,
                    regs: Regs, current: Task, kwalk: Walker, uwalk: Walker): (r: Entry)
    ensures initNr <= PERF_MAX_STACK_DEPTH ==>
      var vs := Appended(kernel, user, crosstask, addMark, regs, current, kwalk, uwalk);
      r.nr <= PERF_MAX_STACK_DEPTH &&
      r.nr == initNr + Room(initNr, |vs|) &&
      r.Frames() == e.ip[..initNr] + vs[..Room(initNr, |vs|)]
    ensures initNr > PERF_MAX_STACK_DEPTH ==> r == e.(nr := initNr)
  {
    var vs := Appended(kernel, user, crosstask, addMark, regs, current, kwalk, uwalk);
    var start := e.(nr := initNr);
    if initNr <= PERF_MAX_STACK_DEPTH then
      StoreAllTruncates(start, vs);
      StoreAll(start, vs)
    else
      StoreAllWhenFull(start, vs);
      StoreAll(start, vs)
  }
}
