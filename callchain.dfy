/**
 * The callchain buffer pool of kernel/events/callchain.c: the reference-counted
 * per-CPU table of entries, the per-CPU recursion slots, and the capture routine.
 * The mutex, the atomics and RCU publication are modelled as atomic steps; a
 * table handed to call_rcu waits in `rcuPending` until its callback runs.
 */
module Callchain {
  import opened Errno
  import opened CallchainEntry
  import opened CallchainCapture
  import L = CallchainLifecycle

  /** PERF_NR_CONTEXTS: task, softirq, hardirq and NMI level. */
  const PERF_NR_CONTEXTS: nat := 4

  /** One CPU's PERF_NR_CONTEXTS entries, one kmalloc_node block. */
  type Block = array<Entry>
  /** struct callchain_cpus_entries: one block pointer per CPU id. */
  type Table = array<array?<Entry>>

  /** A pointer to entry `index` of `block`. */
  datatype EntryRef = EntryRef(block: Block, index: nat)

  /** Whether alloc_callchain_buffers succeeds, given each allocation's outcome. */
  predicate AllocSucceeds(tableOk: bool, cpuOk: seq<bool>)
  {
    tableOk && forall c :: 0 <= c < |cpuOk| ==> cpuOk[c]
  }

  class CallchainBuffers {
    /** nr_cpu_ids; every CPU id below it is treated as a possible CPU. */
    const nrCpus: nat
    /** callchain_recursion: per CPU, one busy counter per level. */
    const recursion: array2<int>
    /** nr_callchain_events, an atomic_t. */
    var nrCallchainEvents: int
    /** callchain_cpus_entries, the published table or null. */
    var cpusEntries: array?<array?<Entry>>
    /** Tables handed to call_rcu whose callback has not run yet. */
    var rcuPending: set<Table>
    /** Tables and blocks allocated and not yet freed. */
    ghost var live: set<object>
    /** How many times put_recursion_context has run. */
    ghost var slotReleases: nat

    ghost predicate TableShape(t: Table)
      reads t
    {
      && t.Length == nrCpus
      && (forall c :: 0 <= c < nrCpus ==> t[c] != null && t[c].Length == PERF_NR_CONTEXTS)
      && (forall c, d :: 0 <= c < d < nrCpus ==> t[c] != t[d])
    }

    /** The tables the pool still owns: the published one and those awaiting their RCU callback. */
    ghost function Tables(): set<Table>
      reads this
    {
      rcuPending + (if cpusEntries != null then {cpusEntries} else {})
    }

    /** What kfree-ing table `t` gives back: the table and every block it points to. */
    ghost function Owned(t: Table): set<object>
      reads t
    {
      {t as object} + Blocks(t, 0, nrCpus)
    }

    /**
     * The pool invariant: every owned table has one distinct block per CPU, all
     * of it still allocated, and no two owned tables share an object, so the
     * RCU callback of a retired table never frees what another table uses.
     */
    ghost predicate Valid()
      reads this, Tables()
    {
      && recursion.Length0 == nrCpus && recursion.Length1 == PERF_NR_CONTEXTS
      && L.IsInt32(nrCallchainEvents)
      && (cpusEntries != null ==> TableShape(cpusEntries) && cpusEntries !in rcuPending)
      && (forall t :: t in rcuPending ==> TableShape(t))
      && (forall t :: t in Tables() ==> Owned(t) <= live)
      && (forall t, u :: t in Tables() && u in Tables() && t != u ==> Owned(t) !! Owned(u))
    }

    /** The lifecycle view that CallchainLifecycle reasons about. */
    ghost function View(): L.Lifecycle
      reads this
    {
      L.Lifecycle(nrCallchainEvents, cpusEntries != null)
    }

    /** The blocks that `t` points to at CPU ids in [lo, hi). */
    ghost function Blocks(t: Table, lo: int, hi: int): set<object>
      reads t
    {
      set c | 0 <= lo <= c < hi <= t.Length && t[c] != null :: t[c] as object
    }

    /** Boot state: no consumers, no table, every recursion slot free. */
    constructor (cpus: nat)
      ensures Valid() && nrCpus == cpus
      ensures nrCallchainEvents == 0 && cpusEntries == null && rcuPending == {}
      ensures fresh(recursion)
      ensures forall c, k :: 0 <= c < cpus && 0 <= k < PERF_NR_CONTEXTS ==> recursion[c, k] == 0
    {
      nrCpus := cpus;
      recursion := new int[cpus, PERF_NR_CONTEXTS]((_, _) => 0);
      nrCallchainEvents := 0;
      cpusEntries := null;
      rcuPending := {};
      live := {};
      slotReleases := 0;
    }

    /**
     * alloc_callchain_buffers.  `tableOk` is the outcome of the kzalloc of the
     * table and `cpuOk[c]` that of CPU c's kmalloc_node.
     */
    method AllocCallchainBuffers(tableOk: bool, cpuOk: seq<bool>) returns (err: int)
      requires Valid() && |cpuOk| == nrCpus
      modifies this
      ensures Valid()
      ensures err == 0 || err == -ENOMEM
      ensures err == 0 <==> AllocSucceeds(tableOk, cpuOk)
      ensures err == 0 ==> cpusEntries != null && fresh(cpusEntries)
      ensures err == 0 ==> forall c :: 0 <= c < nrCpus ==> fresh(cpusEntries[c])
      ensures err == 0 ==> live == old(live) + {cpusEntries} + Blocks(cpusEntries, 0, nrCpus)
      ensures err != 0 ==> cpusEntries == old(cpusEntries) && live == old(live)
      ensures nrCallchainEvents == old(nrCallchainEvents) && rcuPending == old(rcuPending)
      ensures slotReleases == old(slotReleases)
    {
      if !tableOk {
        return -ENOMEM;
      }
      var t := new array?<Entry>[nrCpus](_ => null);
      assert forall u :: u in Tables() ==> t !in Owned(u);
      live := live + {t};
      err := FillTable(t, cpuOk);
    }

    /**
     * The rest of alloc_callchain_buffers once the table `t` exists: allocate the
     * blocks, then publish the table, or on failure free all of it.
     */
    method FillTable(t: Table, cpuOk: seq<bool>) returns (err: int)
      requires Valid() && |cpuOk| == nrCpus && t.Length == nrCpus && t in live
      requires forall c :: 0 <= c < nrCpus ==> t[c] == null
      requires forall u :: u in Tables() ==> t !in Owned(u)
      modifies this, t
      ensures Valid()
      ensures err == 0 || err == -ENOMEM
      ensures err == 0 <==> forall c :: 0 <= c < nrCpus ==> cpuOk[c]
      ensures err == 0 ==> cpusEntries == t && forall c :: 0 <= c < nrCpus ==> fresh(t[c])
      ensures err == 0 ==> live == old(live) + Blocks(t, 0, nrCpus)
      ensures err != 0 ==> cpusEntries == old(cpusEntries) && live == old(live) - {t}
      ensures nrCallchainEvents == old(nrCallchainEvents) && rcuPending == old(rcuPending)
      ensures slotReleases == old(slotReleases)
    {
      assert forall u :: u in Tables() ==> u != t;
      var ok := AllocBlocks(t, cpuOk);
      assert Valid();
      assert forall o :: o in old(live) ==> o !in Blocks(t, 0, nrCpus);
      forall u | u in Tables()
        ensures Owned(u) !! Owned(t)
      {
        assert Owned(u) == old(Owned(u)) && Owned(u) <= old(live);
        assert t !in Owned(u) && Owned(u) !! Blocks(t, 0, nrCpus);
      }
      live := live + Blocks(t, 0, nrCpus);
      assert Valid() && t !in Tables();
      if !ok {
        DiscardTable(t);
        return -ENOMEM;
      }
      Publish(t);
      return 0;
    }

    /**
     * The loop of alloc_callchain_buffers: one kmalloc_node block per possible
     * CPU, stopping at the first that fails.  Every block it makes is new.
     */
    method AllocBlocks(t: Table, cpuOk: seq<bool>) returns (ok: bool)
      requires t.Length == nrCpus && |cpuOk| == nrCpus
      requires forall c :: 0 <= c < nrCpus ==> t[c] == null
      modifies t
      ensures ok <==> forall c :: 0 <= c < nrCpus ==> cpuOk[c]
      ensures ok ==> TableShape(t)
      ensures forall c :: 0 <= c < nrCpus && t[c] != null ==> fresh(t[c])
    {
      var cpu := 0;
      while cpu < nrCpus
        invariant 0 <= cpu <= nrCpus
        invariant forall c :: 0 <= c < cpu ==> t[c] != null && t[c].Length == PERF_NR_CONTEXTS && fresh(t[c]) && cpuOk[c]
        invariant forall c :: cpu <= c < nrCpus ==> t[c] == null
        invariant forall c, d :: 0 <= c < d < cpu ==> t[c] != t[d]
      {
        if !cpuOk[cpu] {
          return false;
        }
        t[cpu] := new Entry[PERF_NR_CONTEXTS](_ => Blank);
        cpu := cpu + 1;
      }
      return true;
    }

    /** The fail path of alloc_callchain_buffers: free a table that the pool never published. */
    method DiscardTable(t: Table)
      requires Valid() && t.Length == nrCpus && t !in Tables()
      requires forall u :: u in Tables() ==> Owned(u) !! Owned(t)
      modifies this
      ensures Valid() && live == old(live) - Owned(t)
      ensures cpusEntries == old(cpusEntries) && rcuPending == old(rcuPending)
      ensures nrCallchainEvents == old(nrCallchainEvents) && slotReleases == old(slotReleases)
    {
      // kfree every CPU's block (kfree(NULL) is a no-op), then the table
      FreeEntries(t);
    }

    /** rcu_assign_pointer of a fully built table that shares nothing with the tables the pool owns. */
    method Publish(t: Table)
      requires Valid() && TableShape(t) && t !in rcuPending && Owned(t) <= live
      requires forall u :: u in Tables() ==> Owned(u) !! Owned(t)
      modifies this
      ensures Valid() && cpusEntries == t
      ensures live == old(live) && rcuPending == old(rcuPending)
      ensures nrCallchainEvents == old(nrCallchainEvents) && slotReleases == old(slotReleases)
    {
      cpusEntries := t;
    }

    /** release_callchain_buffers: unpublish the table and hand it to call_rcu. */
    method ReleaseCallchainBuffers()
      requires Valid() && cpusEntries != null
      modifies this
      ensures Valid()
      ensures cpusEntries == null && rcuPending == old(rcuPending) + {old(cpusEntries)}
      ensures nrCallchainEvents == old(nrCallchainEvents) && live == old(live)
      ensures slotReleases == old(slotReleases)
    {
      var entries := cpusEntries;
      cpusEntries := null;
      rcuPending := rcuPending + {entries};
    }

    /** kfree of every possible CPU's block of `t` (null blocks are skipped by kfree), then of `t`. */
    method FreeEntries(t: Table)
      requires t.Length == nrCpus
      modifies this
      ensures live == old(live) - Blocks(t, 0, nrCpus) - {t}
      ensures cpusEntries == old(cpusEntries) && rcuPending == old(rcuPending)
      ensures nrCallchainEvents == old(nrCallchainEvents) && slotReleases == old(slotReleases)
    {
      var cpu := 0;
      while cpu < nrCpus
        invariant 0 <= cpu <= nrCpus
        invariant live == old(live) - Blocks(t, 0, cpu)
        invariant rcuPending == old(rcuPending) && cpusEntries == old(cpusEntries)
        invariant nrCallchainEvents == old(nrCallchainEvents) && slotReleases == old(slotReleases)
      {
        if t[cpu] != null {
          live := live - {t[cpu]};
        }
        assert Blocks(t, 0, cpu + 1) == Blocks(t, 0, cpu) + (if t[cpu] != null then {t[cpu] as object} else {});
        cpu := cpu + 1;
      }
      live := live - {t};
    }

    /** release_callchain_buffers_rcu: after the grace period, free every block and the table. */
    method ReleaseCallchainBuffersRcu(t: Table)
      requires Valid() && t in rcuPending
      modifies this
      ensures Valid()
      ensures rcuPending == old(rcuPending) - {t}
      ensures live == old(live) - Blocks(t, 0, nrCpus) - {t}
      ensures cpusEntries == old(cpusEntries) && nrCallchainEvents == old(nrCallchainEvents)
      ensures slotReleases == old(slotReleases)
    {
      FreeEntries(t);
      rcuPending := rcuPending - {t};
    }

    /** get_callchain_buffers: register one consumer, allocating on the first. */
    method GetCallchainBuffers(tableOk: bool, cpuOk: seq<bool>) returns (err: int)
      requires Valid() && |cpuOk| == nrCpus
      modifies this
      ensures Valid()
      ensures View() == L.Get(old(View()), AllocSucceeds(tableOk, cpuOk)).state
      ensures err == L.Get(old(View()), AllocSucceeds(tableOk, cpuOk)).err
      ensures cpusEntries != old(cpusEntries) ==>
        && L.Get(old(View()), AllocSucceeds(tableOk, cpuOk)).allocAttempted && err == 0
        && cpusEntries != null && fresh(cpusEntries)
        && forall c :: 0 <= c < nrCpus ==> fresh(cpusEntries[c])
      ensures live == if cpusEntries != old(cpusEntries)
                      then old(live) + {cpusEntries as object} + Blocks(cpusEntries, 0, nrCpus)
                      else old(live)
      ensures rcuPending == old(rcuPending) && slotReleases == old(slotReleases)
    {
      var count := L.Wrap32(nrCallchainEvents + 1);
      nrCallchainEvents := count;
      if count < 1 {
        return -EINVAL;
      }
      if count > 1 {
        // if the allocation failed, give up
        return if cpusEntries == null then -ENOMEM else 0;
      }
      err := AllocCallchainBuffers(tableOk, cpuOk);
    }

    /** put_callchain_buffers: unregister one consumer, releasing after the last. */
    method PutCallchainBuffers()
      requires Valid() && L.PutAllowed(View())
      modifies this
      ensures Valid()
      ensures View() == L.Put(old(View())).state
      ensures L.Put(old(View())).released ==> rcuPending == old(rcuPending) + {old(cpusEntries)}
      ensures !L.Put(old(View())).released ==> rcuPending == old(rcuPending) && cpusEntries == old(cpusEntries)
      ensures live == old(live) && slotReleases == old(slotReleases)
    {
      nrCallchainEvents := L.Wrap32(nrCallchainEvents - 1);
      if nrCallchainEvents == 0 {
        ReleaseCallchainBuffers();
      }
    }

    /**
     * get_recursion_context on this CPU's slots.  `level` is the execution
     * level the caller runs at (task, softirq, hardirq, NMI).
     */
    method GetRecursionContext(cpu: nat, level: nat) returns (rctx: int)
      requires Valid() && cpu < nrCpus && level < PERF_NR_CONTEXTS
      modifies recursion
      ensures old(recursion[cpu, level]) != 0 ==> rctx == -1 && recursion[cpu, level] == old(recursion[cpu, level])
      ensures old(recursion[cpu, level]) == 0 ==> rctx == level && recursion[cpu, level] == 1
      ensures forall c, k :: 0 <= c < nrCpus && 0 <= k < PERF_NR_CONTEXTS && (c != cpu || k != level) ==>
        recursion[c, k] == old(recursion[c, k])
    {
      if recursion[cpu, level] != 0 {
        return -1;
      }
      recursion[cpu, level] := recursion[cpu, level] + 1;
      return level;
    }

    /** get_callchain_entry: take a recursion slot, then find this CPU's entry for it. */
    method GetCallchainEntry(cpu: nat, level: nat) returns (rctx: int, entry: Option<Block>)
      requires Valid() && cpu < nrCpus && level < PERF_NR_CONTEXTS
      modifies recursion
      ensures rctx == -1 <==> old(recursion[cpu, level]) != 0
      ensures rctx != -1 ==> rctx == level && recursion[cpu, level] == 1
      ensures rctx == -1 ==> recursion[cpu, level] == old(recursion[cpu, level])
      ensures forall c, k :: 0 <= c < nrCpus && 0 <= k < PERF_NR_CONTEXTS && (c != cpu || k != level) ==>
        recursion[c, k] == old(recursion[c, k])
      ensures entry.Some? <==> rctx != -1 && cpusEntries != null
      ensures entry.Some? ==> entry.value == cpusEntries[cpu]
    {
      rctx := GetRecursionContext(cpu, level);
      if rctx == -1 {
        return rctx, None;
      }
      var entries := cpusEntries;
      if entries == null {
        return rctx, None;
      }
      return rctx, Some(entries[cpu]);
    }

    /** put_callchain_entry: put_recursion_context, free the slot again. */
    method PutCallchainEntry(cpu: nat, rctx: nat)
      requires recursion.Length0 == nrCpus && recursion.Length1 == PERF_NR_CONTEXTS
      requires cpu < nrCpus && rctx < PERF_NR_CONTEXTS
      modifies this, recursion
      ensures recursion[cpu, rctx] == old(recursion[cpu, rctx]) - 1
      ensures forall c, k :: 0 <= c < nrCpus && 0 <= k < PERF_NR_CONTEXTS && (c != cpu || k != rctx) ==>
        recursion[c, k] == old(recursion[c, k])
      ensures slotReleases == old(slotReleases) + 1
      ensures nrCallchainEvents == old(nrCallchainEvents) && cpusEntries == old(cpusEntries)
      ensures rcuPending == old(rcuPending) && live == old(live)
    {
      recursion[cpu, rctx] := recursion[cpu, rctx] - 1;
      slotReleases := slotReleases + 1;
    }

    /** perf_callchain_store into entry `i` of `blk`. */
    method StoreValue(blk: Block, i: nat, v: u64)
      requires i < blk.Length
      modifies blk
      ensures blk[i] == Store(old(blk[i]), v)
      ensures forall k :: 0 <= k < blk.Length && k != i ==> blk[k] == old(blk[k])
    {
      blk[i] := Store(blk[i], v);
    }

    /**
     * An arch frame walker (perf_callchain_kernel / perf_callchain_user): stores
     * the frames it finds, one perf_callchain_store each.
     */
    method StoreFrames(blk: Block, i: nat, frames: seq<u64>)
      requires i < blk.Length
      modifies blk
      ensures blk[i] == StoreAll(old(blk[i]), frames)
      ensures forall k :: 0 <= k < blk.Length && k != i ==> blk[k] == old(blk[k])
    {
      ghost var e0 := blk[i];
      for n := 0 to |frames|
        invariant blk[i] == StoreAll(e0, frames[..n])
        invariant forall k :: 0 <= k < blk.Length && k != i ==> blk[k] == old(blk[k])
      {
        StoreAllAppend(e0, frames[..n], [frames[n]]);
        assert frames[..n] + [frames[n]] == frames[..n + 1];
        StoreValue(blk, i, frames[n]);
      }
      assert frames[..|frames|] == frames;
    }

    /** The kernel half of get_perf_callchain: marker and kernel frames, unless the snapshot is a user one. */
    method CaptureKernel(blk: Block, i: nat, kernel: bool, addMark: bool, regs: Regs, kwalk: Walker)
      requires i < blk.Length
      modifies blk
      ensures blk[i] == StoreAll(old(blk[i]), KernelPart(kernel, addMark, regs, kwalk))
      ensures forall k :: 0 <= k < blk.Length && k != i ==> blk[k] == old(blk[k])
    {
      ghost var kp := KernelPart(kernel, addMark, regs, kwalk);
      if kernel && !regs.userMode {
        if addMark {
          StoreValue(blk, i, PERF_CONTEXT_KERNEL);
          assert kp[0] == PERF_CONTEXT_KERNEL && kp[1..] == kwalk(regs);
        } else {
          assert kp == kwalk(regs);
        }
        StoreFrames(blk, i, kwalk(regs));
      }
    }

    /**
     * The user half of get_perf_callchain: resolve the user registers, then store
     * the marker and user frames; `crossTaskExit` tells that the cross-task exit
     * was taken, which stores nothing.
     */
    method CaptureUser(blk: Block, i: nat, user: bool, crosstask: bool, addMark: bool,
                       regs: Regs, current: Task, uwalk: Walker) returns (crossTaskExit: bool)
      requires i < blk.Length
      modifies blk
      ensures blk[i] == StoreAll(old(blk[i]), UserPart(user, crosstask, addMark, regs, current, uwalk))
      ensures forall k :: 0 <= k < blk.Length && k != i ==> blk[k] == old(blk[k])
      ensures crossTaskExit <==> user && crosstask && UserRegs(regs, current).Some?
      ensures crossTaskExit ==> blk[i] == old(blk[i])
    {
      crossTaskExit := false;
      ghost var up := UserPart(user, crosstask, addMark, regs, current, uwalk);
      if user {
        var uregs: Option<Regs> := Some(regs);
        if !regs.userMode {
          if current.hasMm {
            uregs := Some(current.userRegs);
          } else {
            uregs := None;
          }
        }
        if uregs.Some? {
          if crosstask {
            crossTaskExit := true;
            return;
          }
          if addMark {
            StoreValue(blk, i, PERF_CONTEXT_USER);
            assert up[0] == PERF_CONTEXT_USER && up[1..] == uwalk(uregs.value);
          } else {
            assert up == uwalk(uregs.value);
          }
          StoreFrames(blk, i, uwalk(uregs.value));
        }
      }
    }

    /**
     * get_perf_callchain on CPU `cpu` at execution level `level`.  Returns the
     * entry it filled, or None when no slot or no table was available; in every
     * case the recursion slots end as they began and a slot that was taken is
     * released exactly once.
     */
    method GetPerfCallchain(cpu: nat, level: nat, regs: Regs, initNr: nat, kernel: bool, user: bool,
                            crosstask: bool, addMark: bool, current: Task, kwalk: Walker, uwalk: Walker)
      returns (entry: Option<EntryRef>)
      requires Valid() && cpu < nrCpus && level < PERF_NR_CONTEXTS
      modifies this, recursion, if cpusEntries != null then {cpusEntries[cpu]} else {}
      ensures Valid()
      ensures forall c, k :: 0 <= c < nrCpus && 0 <= k < PERF_NR_CONTEXTS ==> recursion[c, k] == old(recursion[c, k])
      ensures slotReleases == old(slotReleases) + (if old(recursion[cpu, level]) == 0 then 1 else 0)
      ensures entry.Some? <==> old(recursion[cpu, level]) == 0 && cpusEntries != null
      ensures nrCallchainEvents == old(nrCallchainEvents) && cpusEntries == old(cpusEntries)
      ensures entry.Some? ==>
        && entry.value == EntryRef(cpusEntries[cpu], level)
        && cpusEntries[cpu][level]
           == Captured(old(cpusEntries[cpu][level]), initNr, kernel, user, crosstask, addMark, regs, current, kwalk, uwalk)
        && forall k :: 0 <= k < PERF_NR_CONTEXTS && k != level ==> cpusEntries[cpu][k] == old(cpusEntries[cpu][k])
      ensures old(recursion[cpu, level]) != 0 && cpusEntries != null ==> unchanged(cpusEntries[cpu])
      ensures rcuPending == old(rcuPending) && live == old(live)
    {
      var rctx, e := GetCallchainEntry(cpu, level);
      if rctx == -1 {
        return None;
      }
      if e.None? {
        PutCallchainEntry(cpu, rctx);
        return None;
      }
      var blk := e.value;
      blk[rctx] := blk[rctx].(nr := initNr);
      ghost var start := blk[rctx];
      CaptureKernel(blk, rctx, kernel, addMark, regs, kwalk);
      ghost var afterKernel := blk[rctx];
      var crossTaskExit := CaptureUser(blk, rctx, user, crosstask, addMark, regs, current, uwalk);
      if crossTaskExit {
        // goto exit_put: the entry holds the kernel part and no user value
        assert blk[rctx] == afterKernel;
      }
      StoreAllAppend(start, KernelPart(kernel, addMark, regs, kwalk),
                     UserPart(user, crosstask, addMark, regs, current, uwalk));
      // exit_put: reached on the normal path and on the cross-task exit alike
      PutCallchainEntry(cpu, rctx);
      return Some(EntryRef(blk, rctx));
    }

    /**
     * perf_callchain: capture for an event, honouring its exclude_callchain_kernel
     * and exclude_callchain_user attributes and refusing cross-task user stacks.
     * `eventTask` is the pid of the task the event is bound to, if any.
     */
    method PerfCallchain(cpu: nat, level: nat, regs: Regs, excludeKernel: bool, excludeUser: bool,
                         eventTask: Option<int>, current: Task, kwalk: Walker, uwalk: Walker)
      returns (entry: Option<EntryRef>)
      requires Valid() && cpu < nrCpus && level < PERF_NR_CONTEXTS
      modifies this, recursion, if cpusEntries != null then {cpusEntries[cpu]} else {}
      ensures Valid()
      ensures forall c, k :: 0 <= c < nrCpus && 0 <= k < PERF_NR_CONTEXTS ==> recursion[c, k] == old(recursion[c, k])
      ensures excludeKernel && excludeUser ==> entry == None && slotReleases == old(slotReleases)
      ensures !(excludeKernel && excludeUser) ==>
        slotReleases == old(slotReleases) + (if old(recursion[cpu, level]) == 0 then 1 else 0) &&
        (entry.Some? <==> old(recursion[cpu, level]) == 0 && cpusEntries != null)
      ensures nrCallchainEvents == old(nrCallchainEvents) && cpusEntries == old(cpusEntries)
      ensures entry.Some? ==> cpusEntries != null
      ensures entry.Some? ==>
        var crosstask := eventTask.Some? && eventTask.value != current.pid;
        var vs := Appended(!excludeKernel, !excludeUser, crosstask, true, regs, current, kwalk, uwalk);
        && entry.value == EntryRef(cpusEntries[cpu], level)
        && cpusEntries[cpu][level].nr == Room(0, |vs|)
        && cpusEntries[cpu][level].Frames() == vs[..Room(0, |vs|)]
        && forall k :: 0 <= k < PERF_NR_CONTEXTS && k != level ==> cpusEntries[cpu][k] == old(cpusEntries[cpu][k])
      ensures excludeKernel && excludeUser && cpusEntries != null ==> unchanged(cpusEntries[cpu])
      ensures old(recursion[cpu, level]) != 0 && cpusEntries != null ==> unchanged(cpusEntries[cpu])
      ensures rcuPending == old(rcuPending) && live == old(live)
    {
      var kernel := !excludeKernel;
      var user := !excludeUser;
      // disallow cross-task user callchains
      var crosstask := eventTask.Some? && eventTask.value != current.pid;
      if !kernel && !user {
        return None;
      }
      entry := GetPerfCallchain(cpu, level, regs, 0, kernel, user, crosstask, true, current, kwalk, uwalk);
    }
  }

  /**
   * Two consumers on a two-CPU machine: one allocation, a kernel-only capture at
   * task level (whose stored frames are returned), one retirement after the
   * second put, and a fresh table for the next consumer.
   */
  method ColdStartScenario(kwalk: Walker)
    returns (first: int, second: int, captured: bool, frames: seq<u64>, retired: nat, again: int)
    ensures first == 0 && second == 0 && captured && again == 0
    ensures var vs := [PERF_CONTEXT_KERNEL] + kwalk(Regs(false, 0));
      frames == vs[..Room(0, |vs|)]
    ensures retired == 1
  {
    var pool := new CallchainBuffers(2);
    first := pool.GetCallchainBuffers(true, [true, true]);
    var table := pool.cpusEntries;
    second := pool.GetCallchainBuffers(true, [true, true]);
    assert pool.cpusEntries == table;
    var regs := Regs(false, 0);
    var e := pool.GetPerfCallchain(0, 0, regs, 0, true, false, false, true, Task(1, true, Regs(true, 1)), kwalk, kwalk);
    captured := e.Some?;
    var entry := e.value.block[e.value.index];
    frames := entry.ip[..entry.nr];
    assert Appended(true, false, false, true, regs, Task(1, true, Regs(true, 1)), kwalk, kwalk)
        == [PERF_CONTEXT_KERNEL] + kwalk(regs);
    pool.PutCallchainBuffers();
    assert pool.cpusEntries == table;
    pool.PutCallchainBuffers();
    assert pool.cpusEntries == null && pool.rcuPending == {table};
    retired := |pool.rcuPending|;
    again := pool.GetCallchainBuffers(true, [true, true]);
    assert pool.cpusEntries != table;
  }
}
