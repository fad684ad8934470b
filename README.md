# Callchain buffer pool and ext4 crypto-context pool — a Dafny model

This project models two sequential, state-keeping pieces of a Linux kernel tree.

**Callchain buffers (`kernel/events/callchain.c`).** Perf events that sample
call stacks share one table of per-CPU scratch entries. The table is
reference-counted by `nr_callchain_events`: the first `get_callchain_buffers`
allocates it, and the `put_callchain_buffers` that drops the count to zero
unpublishes it and hands it to RCU for deferred freeing. A capture
(`get_perf_callchain`, `perf_callchain`) takes a per-CPU recursion slot for its
execution level (task, softirq, hardirq, NMI) and resolves the entry
`[cpu][level]`. It then stores the kernel marker and kernel frames and/or the
user marker and user frames, and releases the slot on every exit.

- `callchain_entry.dfy`: the entry, `perf_callchain_store`, and truncation.
- `callchain_capture.dfy`: what a capture appends, as functions.
- `callchain_lifecycle.dfy`: the refcount state machine and lemmas over arbitrary sequences of gets and puts.
- `callchain.dfy`: the class `CallchainBuffers`. It holds the count, the published table, the per-CPU recursion array and the RCU-pending tables. Its methods are proved against the functions above.

**ext4 crypto contexts (`fs/ext4/crypto.c`).** Encryption contexts come from a
LIFO free list filled at init time. When the list is empty, a context is
allocated on demand and flagged `EXT4_CTX_REQUIRES_FREE_ENCRYPT_FL`. Release
pushes pooled contexts back and frees on-demand ones. The bounce page taken on
the write path (`EXT4_WRITE_PATH_FL`) goes back to the mempool.

- `ext4_crypto_pool.dfy`: the class `Ext4Crypto`, covering get, release, alloc_bounce_page, the error paths of ext4_encrypt, restore_control_page, init and exit.
- `ext4_crypto_checks.dfy`: the two pure checks.

`errno.dfy` holds the errno constants and the `Option`/`Ptr` wrappers
(`Ptr` is `ERR_PTR`).

Foreign inputs become parameters:

- Allocation outcomes are parameters: `kzalloc`, `kmalloc_node`, `kmem_cache_zalloc`, `mempool_alloc`, workqueue, cache and pool creation.
- The arch frame walkers are functions from a register snapshot to the values they store.
- `user_mode(regs)`, `current->mm` and `task_pt_regs(current)` are fields of the `Regs` and `Task` inputs.
- The CPU id and the execution level are inputs.
- The result of `ext4_page_crypto` is an input.

Constants that live in headers outside this model take their kernel values:

- `PERF_MAX_STACK_DEPTH` = 127
- `PERF_CONTEXT_KERNEL` = (u64)-128 and `PERF_CONTEXT_USER` = (u64)-512
- `PERF_NR_CONTEXTS` = 4
- `EXT4_CTX_REQUIRES_FREE_ENCRYPT_FL` = 1 and `EXT4_WRITE_PATH_FL` = 2
- `LOOKUP_RCU` = 0x40
- the encryption mode numbers: XTS 1, CTS 4, Adiantum 9

Notes on behaviour:

- `nr_callchain_events` is an `atomic_t`, modelled with 32-bit wrap-around. The `WARN_ON_ONCE(count < 1)` branch is reachable by wrap-around or after unmatched puts.
- A failed first allocation leaves the count raised and no table published. From then on every get reports `-ENOMEM`, and a put that reaches zero would pass a null table to `call_rcu`. `put` therefore requires a published table when it releases. `FailedAllocationIsSticky` proves that the pool never recovers while consumers remain.
- `get_recursion_context` (in `internal.h`, which is not part of this model) is modelled as the per-level busy flag the kernel uses. A nested capture at a level whose slot is taken gets -1. The kernel keeps one busy flag per level, not a nesting counter.
- In `struct ext4_crypto_ctx` the free-list links share storage with the bounce and control page pointers. `list_add` and `list_del` therefore overwrite those pointers, and the model leaves them arbitrary after either. The release is safe only because get clears `EXT4_WRITE_PATH_FL`.
- In `ext4_get_crypto_ctx`, the release at lines 137-139 can never run: `res` is set only when `ctx` is NULL. The model has no such branch.

## Model

| member | source | states |
|---|---|---|
| CallchainEntry.Store | kernel/events/callchain.c:186-189 | a store appends exactly one value while the entry has room and leaves a full entry unchanged |
| CallchainEntry.StoreAllTruncates | kernel/events/callchain.c:27-35 | a walker's stores never take `nr` past PERF_MAX_STACK_DEPTH and keep exactly the prefix of its values that fits, after the old contents |
| CallchainEntry.StoreAllWhenFull | kernel/events/callchain.c:184-189 | when `init_nr` already reaches the capacity, nothing is stored |
| CallchainEntry.StoreAllAppend | kernel/events/callchain.c:184-207 | the kernel part followed by the user part is the same as storing their concatenation |
| CallchainCapture.Appended | kernel/events/callchain.c:184-208 | with markers, the values are kernel marker, kernel frames, user marker, user frames. A user-mode snapshot gets no kernel part. A cross-task capture keeps only the kernel part. A task without mm gets no user part. Nothing requested stores nothing |
| CallchainCapture.Captured | kernel/events/callchain.c:184-207 | the captured entry keeps its first `init_nr` slots, appends the truncated values, and has `nr <= capacity` whenever `init_nr <= capacity` |
| CallchainLifecycle.Wrap32 | kernel/events/callchain.c:104-105 | the atomic_t update is the two's-complement wrap of the exact result |
| CallchainLifecycle.Get | kernel/events/callchain.c:97-122 | every get increments the count. Allocation is attempted exactly when the new count is 1. A count below 1 gives -EINVAL. Above 1, the get succeeds iff a table is published and otherwise gives -ENOMEM. At 1 it succeeds iff allocation does. Every error path keeps the increment |
| CallchainLifecycle.Put | kernel/events/callchain.c:124-130 | every put decrements. The table is released and unpublished exactly when the count reaches 0 |
| CallchainLifecycle.RefcountBalanced | kernel/events/callchain.c:97-130 | with allocations succeeding, any matched sequence of gets and puts keeps "published iff count > 0". Allocations equal releases up to the final state, and every get succeeds |
| CallchainLifecycle.FailedAllocationIsSticky | kernel/events/callchain.c:110-115 | after a failed first allocation, no later get succeeds or allocates and no table is published while a consumer remains |
| Callchain.CallchainBuffers.constructor | kernel/events/callchain.c:21-24 | boot state: count 0, no table, every recursion slot free |
| Callchain.CallchainBuffers.AllocCallchainBuffers | kernel/events/callchain.c:59-95 | succeeds iff the table and every CPU block can be allocated. On success it publishes a fresh table with a distinct non-null block of PERF_NR_CONTEXTS entries per CPU, all of it allocated. On failure it frees everything it allocated, leaves the published pointer unchanged and returns -ENOMEM. Either way the pool invariant holds: every owned table and its blocks are allocated, and no two owned tables share an object |
| Callchain.CallchainBuffers.FillTable | kernel/events/callchain.c:78-94 | once the table exists: succeeds iff every CPU block can be allocated. It then publishes the table with its fresh blocks added to the allocated objects. Otherwise it frees the table and any blocks made, and the pointer is unchanged. Both ways keep the pool invariant |
| Callchain.CallchainBuffers.AllocBlocks | kernel/events/callchain.c:78-83 | the `for_each_possible_cpu` loop: succeeds iff every CPU's allocation does. It then gives one distinct new block of PERF_NR_CONTEXTS entries per CPU, and every block it set is new |
| Callchain.CallchainBuffers.DiscardTable | kernel/events/callchain.c:89-92 | frees exactly an unpublished table and its blocks, keeping the pool invariant for the tables the pool still owns |
| Callchain.CallchainBuffers.Publish | kernel/events/callchain.c:86 | publishes a complete table that shares nothing with the owned tables, keeping the pool invariant |
| Callchain.CallchainBuffers.ReleaseCallchainBuffers | kernel/events/callchain.c:50-57 | needs a published table. It nulls the pointer and queues the old table for RCU freeing |
| Callchain.CallchainBuffers.FreeEntries | kernel/events/callchain.c:89-92 | kfree of every CPU's block (null blocks skipped), then of the table |
| Callchain.CallchainBuffers.ReleaseCallchainBuffersRcu | kernel/events/callchain.c:37-48 | the RCU callback frees every block of a retired table and the table itself, and drops it from the pending set. It keeps the pool invariant, so the published table, its blocks and the other retired tables stay allocated |
| Callchain.CallchainBuffers.GetCallchainBuffers | kernel/events/callchain.c:97-122 | the new count, published state and return value are those of `CallchainLifecycle.Get`. The published pointer changes only on a successful allocating get, and then to a fresh table with fresh per-CPU blocks. Exactly that table and its blocks become allocated; every other get, including a failed allocating one, allocates nothing |
| Callchain.CallchainBuffers.PutCallchainBuffers | kernel/events/callchain.c:124-130 | the new state is that of `CallchainLifecycle.Put`. Releasing queues exactly the old table for RCU |
| Callchain.CallchainBuffers.GetRecursionContext | kernel/events/callchain.c:137-139 | a busy slot gives -1 with nothing changed. A free slot is marked busy and its index returned. Other slots are untouched |
| Callchain.CallchainBuffers.GetCallchainEntry | kernel/events/callchain.c:132-148 | -1 exactly when the slot is busy. Otherwise the slot is held, and the entry is null iff no table is published, else the CPU's block |
| Callchain.CallchainBuffers.PutCallchainEntry | kernel/events/callchain.c:150-154 | decrements that slot's counter, leaves every other slot alone, counts one release and changes nothing else |
| Callchain.CallchainBuffers.StoreValue | kernel/events/callchain.c:188 | the entry becomes `Store` of its old value. The block's other entries are unchanged |
| Callchain.CallchainBuffers.StoreFrames | kernel/events/callchain.c:27-35 | a walker stores its frames one by one, giving `StoreAll` of the old entry |
| Callchain.CallchainBuffers.CaptureKernel | kernel/events/callchain.c:186-190 | stores exactly the kernel part |
| Callchain.CallchainBuffers.CaptureUser | kernel/events/callchain.c:192-208 | stores exactly the user part. It reports the cross-task exit iff user frames were requested, user registers resolve, and the event is cross-task; that exit stores no user value |
| Callchain.CallchainBuffers.GetPerfCallchain | kernel/events/callchain.c:170-214 | every recursion slot ends as it began. A slot that was taken is released exactly once, including on the null-table and cross-task exits, and none is released when no slot was free. An entry is returned iff a slot and a table were available. It then equals `Captured` of its old value, and this CPU's other entries are unchanged. A capture refused because its level's slot is busy leaves this CPU's entries untouched, so the interrupted capture's entry survives |
| Callchain.CallchainBuffers.PerfCallchain | kernel/events/callchain.c:156-168 | the event is cross-task exactly when it is bound to a task other than `current`. With both parts excluded it returns null, releases no slot and leaves this CPU's entries untouched; a busy slot also leaves them untouched. Otherwise it captures with `init_nr = 0` and markers: the entry holds the truncated `Appended` values with `nr <= capacity`, and the other entries are unchanged |
| Callchain.ColdStartScenario | kernel/events/callchain.c:97-130 | on a fresh two-CPU pool whose allocations succeed, two gets return 0. A kernel-only capture at task level obtains an entry holding exactly the kernel marker followed by the kernel frames, truncated to capacity. The second put retires exactly one table, and a third get returns 0 again |
| Ext4CryptoChecks.ValidEncModes | fs/ext4/crypto.c:467-476 | true exactly for (AES-256-XTS, AES-256-CTS) and (Adiantum, Adiantum). The contents mode determines the filenames mode |
| Ext4CryptoChecks.DRevalidate | fs/ext4/crypto.c:483-530 | -ECHILD under LOOKUP_RCU, 0 for a parent that is not encrypted. Otherwise 1 iff the dentry was cached with the key and the key is present, or cached without it, the key still absent and the dentry positive |
| Ext4CryptoChecks.RevalidateKeepsOnlyMatchingKeyState | fs/ext4/crypto.c:504-516 | a dentry is kept only if the key's presence has not changed since it was cached, and a negative dentry cached without the key is never kept |
| Ext4CryptoPool.CryptoCtx.constructor | fs/ext4/crypto.c:125 | a zero-allocated context has no flags and no pages |
| Ext4CryptoPool.Ext4Crypto.constructor | fs/ext4/crypto.c:44-60 | module load: empty list, nothing set up, and the numbers of pages and contexts to preallocate set to the module parameters (32 and 128 by default) |
| Ext4CryptoPool.Ext4Crypto.ReleaseCryptoCtx | fs/ext4/crypto.c:71-86 | returns the bounce page to the mempool exactly when WRITE_PATH is set and there is a page. Frees a REQUIRES_FREE context, whose page pointers end null; pushes any other onto the head of the free list, where the list links overwrite its page pointers. The flags are unchanged. Never shrinks the list; keeps the pool invariant |
| Ext4CryptoPool.Ext4Crypto.DropPages | fs/ext4/crypto.c:75-78 | the bounce page goes back to the mempool exactly when WRITE_PATH is set and a page is attached. Both page pointers end null, the flags and the free list are unchanged, and the pool invariant is kept |
| Ext4CryptoPool.Ext4Crypto.PopFreeList | fs/ext4/crypto.c:119-124 | takes the head of a non-empty free list and leaves the rest. The context taken is live, pooled, keeps its flags and is no longer listed; its page pointers are left arbitrary, as unlinking poisons them |
| Ext4CryptoPool.Ext4Crypto.GetCryptoCtx | fs/ext4/crypto.c:97-143 | -ENOKEY without crypt info and the list untouched. Otherwise it pops the head and clears REQUIRES_FREE. With an empty list it allocates a fresh context flagged REQUIRES_FREE, or gives -ENOMEM. WRITE_PATH is clear on success, and a freshly allocated context has both pages null. Every error exit leaves the head context of the free list untouched |
| Ext4CryptoPool.Ext4Crypto.GetThenRelease | fs/ext4/crypto.c:71-86 | a get followed straight by a release returns no page to the mempool, whatever the popped context's page pointers hold, because get clears WRITE_PATH (line 134). The free list, the live contexts and the lent pages end as they began, and the call succeeds iff there is crypt info and a listed context or a successful allocation |
| Ext4CryptoPool.Ext4Crypto.AllocBouncePage | fs/ext4/crypto.c:322-330 | on success the page is recorded in the context and WRITE_PATH is set. On failure it returns -ENOMEM, nulls the page and leaves the flags unchanged |
| Ext4CryptoPool.Ext4Crypto.Encrypt | fs/ext4/crypto.c:347-378 | each error is reported with its own errno, and every error exit leaves the free list, the live contexts and the lent pages as they were. Success links the new ciphertext page to a live, unlisted write-path context whose control page is the plaintext. That context is the old head of the free list, or a fresh REQUIRES_FREE one when the list was empty |
| Ext4CryptoPool.Ext4Crypto.RestoreControlPage | fs/ext4/crypto.c:227-236 | unlinks the context from the page, then releases it with the effects of `ReleaseCryptoCtx` (page pointers null only for a freed context), keeping the pool invariant |
| Ext4CryptoPool.Ext4Crypto.EncryptThenRestore | fs/ext4/crypto.c:338-342 | the documented protocol: encrypt, then restore the control page on the returned page. The free list, the live contexts and the lent bounce pages end exactly as they began, on success and on every error |
| Ext4CryptoPool.Ext4Crypto.ExitCrypto | fs/ext4/crypto.c:151-170 | frees every listed context, empties the list and clears every global |
| Ext4CryptoPool.Ext4Crypto.InitCrypto | fs/ext4/crypto.c:180-225 | idempotent: once the workqueue exists it returns 0 and changes nothing. Otherwise it succeeds iff every allocation does. The list then gains `num_prealloc_crypto_ctxs` fresh zeroed contexts at its head, and exactly those become live. Any failure returns -ENOMEM and leaves the state of `ExitCrypto`: every global cleared, the list empty, and every listed context, old or preallocated, freed |

## Left out

- The mutex, the atomics, RCU read sections and `spin_lock_irqsave` are not modelled: each guarded block is one atomic step. The grace period is modelled only as the set of tables awaiting their RCU callback, with the callback as an explicit method. Concurrent readers of a retired table are not modelled.
- The possible-CPU mask is not modelled: every id below `nr_cpu_ids` is treated as possible, whereas `for_each_possible_cpu` may skip ids. No behaviour is lost, since a capture runs only on a possible CPU and `kfree(NULL)` does nothing.
- NUMA placement (`kmalloc_node`, `cpu_to_node`) is not modelled; each per-CPU allocation is only "may fail".
- `get_recursion_context` and `put_recursion_context` live in `internal.h`, which is not part of this model. Which execution level the caller runs at (`in_nmi`, `in_irq`, `in_softirq`) is an input.
- The arch frame walkers, `user_mode`, `task_pt_regs`, `current` and `smp_processor_id` are foreign. They are inputs, and a walker is assumed to store through `perf_callchain_store`.
- `perf_callchain_store`, `PERF_MAX_STACK_DEPTH` and the context markers are in `perf_event.h`, which is not part of this model. They are modelled with their kernel definitions.
- `ext4_page_crypto`, `ext4_crypt_complete` and `ext4_decrypt` use the kernel crypto API and asynchronous completion. Only the result of `ext4_page_crypto` enters the model, as the `cryptoErr` input of `Encrypt`.
- `ext4_encrypted_zeroout` is not modelled, because it submits bios and does block I/O.
- `lock_page`, `unlock_page` and the page-private flag bit (`SetPagePrivate`, `ClearPagePrivate`) are not modelled: they manipulate page flags. Only the `page_private` link is kept.
- `ext4_crypt_generate_iv` is not modelled: its IV layout is in a header that is not part of this model.
- Workqueue, kmem_cache and mempool internals are not modelled. Their handles are booleans "non-null". The mempool reserve of `num_prealloc_crypto_pages` pages is not modelled; a page from `mempool_alloc` is a fresh object.
- GFP flags are not modelled.
- Encrypt: requires `cryptoErr <= 0`, the return convention of `ext4_page_crypto` (0 or a negative errno), which is outside this model.
- GetCryptoCtx, ReleaseCryptoCtx: do not check that the context cache exists before allocating or freeing; with the cache torn down the kernel would crash, and the model does not capture that.
- AllocBouncePage, DropPages, ReleaseCryptoCtx: do not check that the bounce page pool exists. With `ext4_bounce_page_pool` NULL, `mempool_alloc` and `mempool_free` would dereference a null pool, and the model does not capture that crash.
- GetCryptoCtx, ReleaseCryptoCtx, PopFreeList: promise null page pointers only for a context that is freed or freshly allocated. A context taken from or put on the free list has them overwritten by the list links, so nothing is promised about them.
- ExitCrypto: does not say what happens to bounce pages still lent out when the mempool is destroyed; `lentPages` is left as it was.
