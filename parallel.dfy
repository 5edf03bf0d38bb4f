/** Running a function over a list of work items in parallel: the work is cut
    into one contiguous chunk per worker process, each child runs its chunk in
    order, and the parent waits until every child it spawned is gone. Process
    creation and `wait()` are inputs: a fork outcome per rank and the
    sequence of `wait()` outcomes. */
module Parallel {

  /** `(num_proc, part)` of `do`: the number of workers and the chunk size. */
  function Partition(numProc: int, len: nat): (r: (nat, nat))
    requires numProc >= 1
  {
    if len <= numProc then (len, 1)
    else
      var part := len / numProc;
      var part := if len % numProc != 0 then part + 1 else part;
      (numProc, part)
  }

  /** Short work gets one item per worker; otherwise `numProc` workers share
      it in chunks of the least size that covers it. */
  lemma PartitionBounds(numProc: int, len: nat)
    requires numProc >= 1
    ensures var (n, part) := Partition(numProc, len);
            (len <= numProc ==> n == len && part == 1)
            && (len > numProc ==> n == numProc && (part - 1) * numProc < len <= part * numProc)
  {
    if len > numProc {
      var q := len / numProc;
      assert len == q * numProc + len % numProc;
      if len % numProc != 0 {
        assert (q + 1) * numProc == q * numProc + numProc;
      }
    }
  }

  /** The chunk size is positive and `n` chunks of that size reach the end
      of the work. Trailing chunks may still be empty: 7 items on 6 workers
      give chunks of 2, and ranks 4 and 5 get nothing (`ChunkEmpty`). */
  lemma PartitionCovers(numProc: int, len: nat)
    requires numProc >= 1
    ensures var (n, part) := Partition(numProc, len);
            part >= 1 && len <= part * n
  {
    PartitionBounds(numProc, len);
    var (n, part) := Partition(numProc, len);
    if len <= numProc {
      assert part * n == n;
    } else {
      assert part * n == part * numProc;
    }
  }

  /** The statements of `do` that compute `num_proc` and `part`;
      `Partition` is the function they compute, used by the lemmas. */
  method Divide(numProc: int, len: nat) returns (count: nat, part: nat)
    requires numProc >= 1
    ensures (count, part) == Partition(numProc, len)
  {
    if len <= numProc {
      count := len;
      part := 1;
    } else {
      count := numProc;
      part := len / count;
      if len % count != 0 {
        part := part + 1;
      }
    }
  }

  /** `[lower, upper)` of rank `rank` in `do_child`. */
  function Bounds(rank: nat, part: nat, len: nat): (nat, nat) {
    var lower := part * rank;
    var upper := part * (rank + 1);
    (lower, if upper > len then len else upper)
  }

  /** `work[lower:upper]` with Python's slice clamping: empty when `lower`
      is not below `upper`. */
  function Chunk<T>(work: seq<T>, rank: nat, part: nat): (r: seq<T>)
    ensures |r| <= part
  {
    var (lower, upper) := Bounds(rank, part, |work|);
    if lower < upper then work[lower..upper] else []
  }

  /** A chunk is empty exactly when it starts at or past the end of the
      work. */
  lemma ChunkEmpty<T>(work: seq<T>, rank: nat, part: nat)
    requires part >= 1
    ensures Chunk(work, rank, part) == [] <==> |work| <= part * rank
  {
    assert part * (rank + 1) == part * rank + part;
  }

  /** The chunks of ranks `0 .. n-1`, concatenated. */
  function Chunks<T>(work: seq<T>, n: nat, part: nat): seq<T> {
    if n == 0 then [] else Chunks(work, n - 1, part) + Chunk(work, n - 1, part)
  }

  lemma {:induction false} MulMono(a: nat, x: nat, y: nat)
    requires x <= y
    ensures a * x <= a * y
    decreases y - x
  {
    if x < y {
      MulMono(a, x, y - 1);
      assert a * y == a * (y - 1) + a;
    }
  }

  lemma {:induction false} ChunksPrefix<T>(work: seq<T>, n: nat, part: nat)
    requires part >= 1
    ensures var m := if part * n < |work| then part * n else |work|;
            Chunks(work, n, part) == work[..m]
  {
    if n > 0 {
      ChunksPrefix(work, n - 1, part);
      var lo := part * (n - 1);
      var hi := part * n;
      assert hi == lo + part;
      assert Bounds(n - 1, part, |work|) == (lo, if hi > |work| then |work| else hi);
      AppendChunk(work, lo, hi);
    }
  }

  /** The prefix up to `lo` and the slice from `lo` to `hi`, both clamped to
      the work, make up the prefix up to `hi`. */
  lemma AppendChunk<T>(work: seq<T>, lo: nat, hi: nat)
    requires lo <= hi
    ensures var m := if lo < |work| then lo else |work|;
            var m' := if hi < |work| then hi else |work|;
            work[..m] + (if lo < m' then work[lo..m'] else []) == work[..m']
  {
    var m' := if hi < |work| then hi else |work|;
    if lo < m' {
      assert work[..lo] + work[lo..m'] == work[..m'];
    }
  }

  /** The chunks of all ranks together are the work list, in order: every
      item is handled by exactly one worker, and none is left out. */
  lemma ChunksCoverWork<T>(numProc: int, work: seq<T>)
    requires numProc >= 1
    ensures var (n, part) := Partition(numProc, |work|);
            Chunks(work, n, part) == work
  {
    var (n, part) := Partition(numProc, |work|);
    PartitionCovers(numProc, |work|);
    ChunksPrefix(work, n, part);
    assert work[..|work|] == work;
  }

  predicate InChunk(i: nat, rank: nat, part: nat, len: nat) {
    var (lower, upper) := Bounds(rank, part, len);
    lower <= i < upper
  }

  /** Index `i` of the work lies in the chunk of rank `i / part` and no other:
      the chunks are pairwise disjoint and cover every index. */
  lemma IndexInOneChunk(numProc: int, len: nat, i: nat, rank: nat)
    requires numProc >= 1 && i < len
    ensures var (n, part) := Partition(numProc, len);
            i / part < n && (InChunk(i, rank, part, len) <==> rank == i / part)
  {
    var (n, part) := Partition(numProc, len);
    PartitionCovers(numProc, len);
    ChunkOfIndex(i, rank, part, len);
    QuotientBelow(i, part, n);
  }

  lemma QuotientBelow(i: nat, part: nat, n: nat)
    requires part >= 1 && i < part * n
    ensures i / part < n
  {
    var q := i / part;
    assert part * q <= i by { assert i == part * q + i % part; }
    if q >= n {
      MulMono(part, n, q);
    }
  }

  lemma ChunkOfIndex(i: nat, rank: nat, part: nat, len: nat)
    requires part >= 1 && i < len
    ensures InChunk(i, rank, part, len) <==> rank == i / part
  {
    var q := i / part;
    assert part * q <= i < part * q + part by { assert i == part * q + i % part; }
    var lower := part * rank;
    var upper := lower + part;
    assert part * (rank + 1) == upper;
    if rank < q {
      MulMono(part, rank + 1, q);
      assert upper <= i;
    } else if rank > q {
      MulMono(part, q + 1, rank);
      assert part * (q + 1) == part * q + part;
      assert lower > i;
    }
  }

  /** What `os.fork()` returns in the calling process: 0 in the child, the
      child's pid in the parent, or an `OSError`. */
  datatype ForkResult = Child | Parent(pid: int) | ForkFailed
  datatype WaitResult = Reaped(pid: int) | NoChild | OtherError

  /** What a child does: `func` on each item of its chunk, each followed by a
      pause when `SLEEP_TIME` is positive. */
  datatype ChildEvent<T> = Run(item: T) | Sleep(seconds: int)

  function ChildEvents<T>(items: seq<T>, sleepTime: int): seq<ChildEvent<T>> {
    if items == [] then []
    else ChildEvents(items[..|items| - 1], sleepTime) + ItemEvents(items[|items| - 1], sleepTime)
  }

  /** The events of one item. */
  function ItemEvents<T>(x: T, sleepTime: int): seq<ChildEvent<T>> {
    [Run(x)] + (if sleepTime > 0 then [Sleep(sleepTime)] else [])
  }

  /** The items `func` is applied to. */
  function Runs<T>(events: seq<ChildEvent<T>>): seq<T> {
    if events == [] then []
    else Runs(events[..|events| - 1])
         + (match events[|events| - 1] case Run(x) => [x] case Sleep(_) => [])
  }

  lemma {:induction false} RunsAppend<T>(a: seq<ChildEvent<T>>, b: seq<ChildEvent<T>>)
    ensures Runs(a + b) == Runs(a) + Runs(b)
    decreases |b|
  {
    if b == [] {
      assert a + b == a;
    } else {
      assert (a + b)[..|a + b| - 1] == a + b[..|b| - 1];
      RunsAppend(a, b[..|b| - 1]);
    }
  }

  /** A child applies `func` to exactly the items of its chunk, in order, once
      each, and sleeps only when `SLEEP_TIME` is positive. */
  lemma {:induction false} ChildRunsItems<T>(items: seq<T>, sleepTime: int)
    ensures Runs(ChildEvents(items, sleepTime)) == items
  {
    if items != [] {
      var init := items[..|items| - 1];
      var x := items[|items| - 1];
      ChildRunsItems(init, sleepTime);
      RunsAppend(ChildEvents(init, sleepTime), ItemEvents(x, sleepTime));
      TailRuns(x, sleepTime);
      assert init + [x] == items;
    }
  }

  /** The events for one item run it once. */
  lemma TailRuns<T>(x: T, sleepTime: int)
    ensures Runs(ItemEvents(x, sleepTime)) == [x]
  {
    var r1: seq<ChildEvent<T>> := [Run(x)];
    assert Runs(r1) == [x] by { assert r1[..0] == []; }
    if sleepTime > 0 {
      var s1: seq<ChildEvent<T>> := [Sleep(sleepTime)];
      RunsAppend(r1, s1);
      assert Runs(s1) == [] by { assert s1[..0] == []; }
    } else {
      assert r1 + [] == r1;
    }
  }

  /** Without `SLEEP_TIME` a child has one event per item. */
  lemma {:induction false} ChildEventsNoSleep<T>(items: seq<T>, sleepTime: int)
    requires sleepTime <= 0
    ensures |ChildEvents(items, sleepTime)| == |items|
  {
    if items != [] {
      ChildEventsNoSleep(items[..|items| - 1], sleepTime);
    }
  }

  lemma ChildEventsSnoc<T>(items: seq<T>, x: T, sleepTime: int)
    ensures ChildEvents(items + [x], sleepTime)
         == ChildEvents(items, sleepTime) + [Run(x)] + (if sleepTime > 0 then [Sleep(sleepTime)] else [])
  {
    assert (items + [x])[..|items|] == items;
  }

  /** `do_child(rank, func, work, part)`: the events of the child of rank `rank`. */
  method DoChild<T>(rank: nat, work: seq<T>, part: nat, sleepTime: int) returns (events: seq<ChildEvent<T>>)
    ensures events == ChildEvents(Chunk(work, rank, part), sleepTime)
  {
    var lower := part * rank;
    var upper := part * (rank + 1);
    if upper > |work| {
      upper := |work|;
    }
    var items := if lower < upper then work[lower..upper] else [];
    assert items == Chunk(work, rank, part);
    events := RunItems(items, sleepTime);
  }

  /** The loop of `do_child` over its chunk. */
  method RunItems<T>(items: seq<T>, sleepTime: int) returns (events: seq<ChildEvent<T>>)
    ensures events == ChildEvents(items, sleepTime)
  {
    events := [];
    var k := 0;
    while k < |items|
      invariant k <= |items|
      invariant events == ChildEvents(items[..k], sleepTime)
    {
      ChildEventsSnoc(items[..k], items[k], sleepTime);
      assert items[..k + 1] == items[..k] + [items[k]];
      events := events + [Run(items[k])];
      if sleepTime > 0 {
        events := events + [Sleep(sleepTime)];
      }
      k := k + 1;
    }
    assert items[..k] == items;
  }

  /** One step of the `join` loop on `ALL_PIDS`. */
  function JoinStep(pids: set<int>, w: WaitResult): (r: set<int>)
    ensures r <= pids
  {
    match w
    case NoChild => {}
    case OtherError => pids
    case Reaped(pid) => if pid in pids then pids - {pid} else pids
  }

  /** `ALL_PIDS` when the `join` loop stops reading `waits`: empty if the loop
      ended, otherwise what is still awaited after the last outcome. */
  function JoinSpec(pids: set<int>, waits: seq<WaitResult>): (r: set<int>)
    ensures r <= pids
  {
    if pids == {} || waits == [] then pids
    else if waits[0] == NoChild then {}
    else JoinSpec(JoinStep(pids, waits[0]), waits[1..])
  }

  /** `join` ends once `wait()` reports that no child is left, and also once
      every awaited child has been reaped. */
  lemma {:induction false} JoinEnds(pids: set<int>, waits: seq<WaitResult>)
    requires NoChild in waits || forall pid :: pid in pids ==> Reaped(pid) in waits
    ensures JoinSpec(pids, waits) == {}
  {
    if pids != {} && waits != [] && waits[0] != NoChild {
      var pids' := JoinStep(pids, waits[0]);
      if NoChild !in waits {
        forall pid | pid in pids'
          ensures Reaped(pid) in waits[1..]
        {
          assert Reaped(pid) in waits;
          assert waits[0] != Reaped(pid);
          assert waits == [waits[0]] + waits[1..];
        }
      } else {
        assert waits == [waits[0]] + waits[1..];
      }
      JoinEnds(pids', waits[1..]);
    } else if waits == [] {
      assert forall pid :: pid !in pids;
    }
  }

  /** The pids `fork` hands to the parent for ranks `0 .. n-1`. */
  function Spawned(fork: nat -> ForkResult, n: nat): set<int> {
    if n == 0 then {}
    else Spawned(fork, n - 1) + (match fork(n - 1) case Parent(pid) => {pid} case _ => {})
  }

  /** The first rank below `n` at which the fork loop stops in this process,
      or `n`: a failed fork, or the child side of a fork. Every rank before it
      was forked and this process stayed the parent. */
  function FirstStop(fork: nat -> ForkResult, n: nat): (r: nat)
    ensures r <= n
    ensures r < n ==> !fork(r).Parent?
    ensures forall k :: 0 <= k < r ==> fork(k).Parent?
  {
    if n == 0 then 0
    else
      var f := FirstStop(fork, n - 1);
      if f < n - 1 then f else if !fork(n - 1).Parent? then n - 1 else n
  }

  /** How `do` ends in one process: the parent returns after a failed fork
      (with the number of children started) or after `join` (and whether it
      ran to its end); a child runs its chunk and exits. */
  datatype DoOutcome<T> =
    | ForkError(started: nat)
    | Joined(finished: bool)
    | ChildExit(rank: nat, events: seq<ChildEvent<T>>)

  /** The parent side of `parallel.do`: `synctool.param.NUM_PROC` and the
      module's `ALL_PIDS`. */
  class Processes {
    var numProc: int
    var allPids: set<int>

    constructor (numProc: int)
      ensures this.numProc == numProc && allPids == {}
    {
      this.numProc := numProc;
      allPids := {};
    }

    /** `join()`: waits until `ALL_PIDS` is empty. `finished` is false when the
        given outcomes run out first, where `join` would still be waiting. */
    method Join(waits: seq<WaitResult>) returns (finished: bool)
      modifies this
      ensures numProc == old(numProc)
      ensures allPids == JoinSpec(old(allPids), waits)
      ensures finished <==> allPids == {}
    {
      var k := 0;
      while |allPids| > 0 && k < |waits|
        invariant k <= |waits|
        invariant JoinSpec(old(allPids), waits) == JoinSpec(allPids, waits[k..])
        invariant numProc == old(numProc)
        decreases |waits| - k
      {
        assert waits[k..][1..] == waits[k + 1..];
        var w := waits[k];
        k := k + 1;
        match w
        case NoChild =>
          // no child process
          allPids := {};
          break;
        case OtherError =>
        case Reaped(pid) =>
          if pid in allPids {
            allPids := allPids - {pid};
          }
      }
      finished := |allPids| == 0;
    }

    /** The fork loop of `do`: ranks `0 .. count-1` are forked in order and
        the pids the parent sees go into `ALL_PIDS`. The loop stops at the
        first failed fork, and, in a child, at the rank it was forked for;
        `started` is that rank, or `count`. */
    method Spawn(count: nat, fork: nat -> ForkResult) returns (started: nat)
      modifies this`allPids
      ensures started == FirstStop(fork, count)
      ensures allPids == old(allPids) + Spawned(fork, started)
    {
      var rank := 0;
      while rank < count
        invariant rank <= count
        invariant FirstStop(fork, rank) == rank
        invariant allPids == old(allPids) + Spawned(fork, rank)
      {
        var pid := fork(rank);
        if !pid.Parent? {
          // a failed fork, or the child process, which leaves the loop for `do_child`
          return rank;
        }
        allPids := allPids + {pid.pid};
        rank := rank + 1;
      }
      return count;
    }

    /** `do(func, work)`: `fork(rank)` is the outcome of `os.fork()` for each
        rank in this process. A failed fork ends `do` at once, without `join`;
        the child of rank `r` runs `do_child` for `r` and exits without
        forking further or joining; the parent that forked every rank joins. */
    method Do<T>(work: seq<T>, sleepTime: int, fork: nat -> ForkResult, waits: seq<WaitResult>)
      returns (outcome: DoOutcome<T>)
      requires numProc >= 1
      modifies this
      ensures numProc == if sleepTime != 0 then 1 else old(numProc)
      ensures var (n, part) := Partition(numProc, |work|);
              var s := FirstStop(fork, n);
              (s < n && fork(s) == ForkFailed ==>
                 outcome == ForkError(s) && allPids == old(allPids) + Spawned(fork, s))
              && (s < n && fork(s) == Child ==>
                    outcome == ChildExit(s, ChildEvents(Chunk(work, s, part), sleepTime))
                    && allPids == old(allPids) + Spawned(fork, s))
              && (s == n ==> allPids == JoinSpec(old(allPids) + Spawned(fork, n), waits)
                             && outcome == Joined(allPids == {}))
    {
      if sleepTime != 0 {
        numProc := 1;
      }
      var count, part := Divide(numProc, |work|);
      var started := Spawn(count, fork);
      if started < count {
        if fork(started) == ForkFailed {
          return ForkError(started);
        }
        var events := DoChild(started, work, part, sleepTime);
        return ChildExit(started, events);
      }
      var finished := Join(waits);
      outcome := Joined(finished);
    }
  }
}
