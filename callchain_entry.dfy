/**
 * One callchain entry: a count `nr` and a fixed array of PERF_MAX_STACK_DEPTH
 * instruction pointers.  Values are appended by perf_callchain_store, which
 * silently drops a value once the entry is full.
 */
module CallchainEntry {
  const U64_LIMIT: int := 0x1_0000_0000_0000_0000
  newtype u64 = x: int | 0 <= x < 0x1_0000_0000_0000_0000

  /** PERF_MAX_STACK_DEPTH: the capacity of every entry. */
  const PERF_MAX_STACK_DEPTH: nat := 127
  /** PERF_CONTEXT_KERNEL, (u64)-128. */
  const PERF_CONTEXT_KERNEL: u64 := (U64_LIMIT - 128) as u64
  /** PERF_CONTEXT_USER, (u64)-512. */
  const PERF_CONTEXT_USER: u64 := (U64_LIMIT - 512) as u64

  type IpArray = s: seq<u64> | |s| == PERF_MAX_STACK_DEPTH
    witness seq(PERF_MAX_STACK_DEPTH, _ => 0)

  datatype Entry = Entry(nr: nat, ip: IpArray) {
    /** The values the entry currently holds (the first `nr` slots). */
    ghost function Frames(): seq<u64>
      requires nr <= PERF_MAX_STACK_DEPTH
    {
      ip[..nr]
    }
  }

  /** The contents of freshly allocated entry memory; the model never depends on it. */
  const Blank: Entry := Entry(0, seq(PERF_MAX_STACK_DEPTH, _ => 0))

  /** perf_callchain_store: append `v` unless the entry is already full. */
  function Store(e: Entry, v: u64): (r: Entry)
    ensures e.nr < PERF_MAX_STACK_DEPTH ==> r.nr == e.nr + 1 && r.Frames() == e.Frames() + [v]
    ensures e.nr >= PERF_MAX_STACK_DEPTH ==> r == e
  {
    if e.nr < PERF_MAX_STACK_DEPTH then
      Entry(e.nr + 1, e.ip[e.nr := v])
    else
      e
  }

  /** Storing a whole sequence of values, one perf_callchain_store at a time. */
  function StoreAll(e: Entry, vs: seq<u64>): Entry
    decreases |vs|
  {
    if vs == [] then e else StoreAll(Store(e, vs[0]), vs[1..])
  }

  function Min(a: int, b: int): int { if a <= b then a else b }

  /** How many of `n` appended values fit into an entry that already holds `nr`. */
  function Room(nr: nat, n: nat): (k: nat)
    ensures k <= n
    ensures nr + k <= PERF_MAX_STACK_DEPTH || k == 0
  {
    if nr >= PERF_MAX_STACK_DEPTH then 0 else Min(n, PERF_MAX_STACK_DEPTH - nr)
  }

  /**
   * Appending never exceeds the capacity and keeps exactly the prefix of the
   * values that fits: the truncation contract the frame walkers rely on.
   */
  lemma {:induction false} StoreAllTruncates(e: Entry, vs: seq<u64>)
    requires e.nr <= PERF_MAX_STACK_DEPTH
    ensures StoreAll(e, vs).nr == e.nr + Room(e.nr, |vs|)
    ensures StoreAll(e, vs).nr <= PERF_MAX_STACK_DEPTH
    ensures StoreAll(e, vs).Frames() == e.Frames() + vs[..Room(e.nr, |vs|)]
    decreases |vs|
  {
    if vs != [] {
      var e' := Store(e, vs[0]);
      StoreAllTruncates(e', vs[1..]);
      if e.nr < PERF_MAX_STACK_DEPTH {
        var r := Room(e'.nr, |vs| - 1);
        assert Room(e.nr, |vs|) == 1 + r;
        assert vs[1..][..r] == vs[1..1 + r];
        assert vs[..1 + r] == [vs[0]] + vs[1..1 + r];
      } else {
        assert Room(e'.nr, |vs| - 1) == 0;
      }
    }
  }

  /** A full entry (or one whose count already exceeds the capacity) is left untouched. */
  lemma {:induction false} StoreAllWhenFull(e: Entry, vs: seq<u64>)
    requires e.nr >= PERF_MAX_STACK_DEPTH
    ensures StoreAll(e, vs) == e
    decreases |vs|
  {
    if vs != [] {
      StoreAllWhenFull(Store(e, vs[0]), vs[1..]);
    }
  }

  /** Storing `a` and then `b` is storing `a + b`: appends compose. */
  lemma {:induction false} StoreAllAppend(e: Entry, a: seq<u64>, b: seq<u64>)
    ensures StoreAll(StoreAll(e, a), b) == StoreAll(e, a + b)
    decreases |a|
  {
    if a != [] {
      StoreAllAppend(Store(e, a[0]), a[1..], b);
      assert (a + b)[0] == a[0];
      assert (a + b)[1..] == a[1..] + b;
    } else {
      assert a + b == b;
    }
  }
}
