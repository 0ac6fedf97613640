// The older single-binary load generator: a fixed pool of client slots
// handed out first-fit, fixed batches of tasks writing their latency into
// one slot each of a preallocated vector, a classification that accepts
// only status 200, and a percentile read from the sorted latencies.

module Legacy {
  import opened Primitives
  import Engine

  const ITERATIONS: nat := 10_000
  const CONCURRENT_TASKS: nat := 100

  // ---------------------------------------------------------------------
  // The connection pool, as a specification on the slot sequence

  /** The lowest occupied slot, if any. */
  function FirstOccupied<T>(s: seq<Option<T>>): (r: Option<nat>)
    ensures r.None? <==> forall i :: 0 <= i < |s| ==> s[i].None?
    ensures r.Some? ==> r.value < |s| && s[r.value].Some? && forall i :: 0 <= i < r.value ==> s[i].None?
  {
    if |s| == 0 then None
    else if s[0].Some? then Some(0)
    else match FirstOccupied(s[1..]) {
      case None => None
      case Some(i) => Some(i + 1)
    }
  }

  /** The lowest empty slot, if any. */
  function FirstEmpty<T>(s: seq<Option<T>>): (r: Option<nat>)
    ensures r.None? <==> forall i :: 0 <= i < |s| ==> s[i].Some?
    ensures r.Some? ==> r.value < |s| && s[r.value].None? && forall i :: 0 <= i < r.value ==> s[i].Some?
  {
    if |s| == 0 then None
    else if s[0].None? then Some(0)
    else match FirstEmpty(s[1..]) {
      case None => None
      case Some(i) => Some(i + 1)
    }
  }

  /** What `get_one` hands out and the slots it leaves behind. */
  function Take<T>(s: seq<Option<T>>): (r: (Option<T>, seq<Option<T>>))
    ensures |r.1| == |s|
    ensures forall i :: 0 <= i < |s| && s[i].None? ==> r.1[i].None?
    ensures r.0.None? <==> forall i :: 0 <= i < |s| ==> s[i].None?
  {
    match FirstOccupied(s) {
      case None => (None, s)
      case Some(i) => (s[i], s[i := None])
    }
  }

  /** The slots `put_back` leaves behind: the client goes into the lowest
      empty slot, or is dropped when there is none. */
  function Put<T>(s: seq<Option<T>>, conn: T): (r: seq<Option<T>>)
    ensures |r| == |s|
    ensures forall i :: 0 <= i < |s| && s[i].Some? ==> r[i] == s[i]
  {
    match FirstEmpty(s) {
      case None => s
      case Some(i) => s[i := Some(conn)]
    }
  }

  /** The slots after one task has taken a client and put it back. */
  function Cycle<T>(s: seq<Option<T>>): (r: seq<Option<T>>)
    ensures |r| == |s|
  {
    var (c, rest) := Take(s);
    if c.Some? then Put(rest, c.value) else rest
  }

  /** The slots after `n` tasks in a row, each taking a client and putting it
      back. */
  function Cycles<T>(s: seq<Option<T>>, n: nat): (r: seq<Option<T>>)
    ensures |r| == |s|
  {
    if n == 0 then s else Cycle(Cycles(s, n - 1))
  }

  /** The number of occupied slots. */
  function Occupied<T>(s: seq<Option<T>>): (n: nat)
    ensures n <= |s|
  {
    if |s| == 0 then 0 else (if s[0].Some? then 1 else 0) + Occupied(s[1..])
  }

  /** The pool of clients. Its length is fixed when it is built. */
  class ConnectionPool<T> {
    const slots: array<Option<T>>

    /** `max_conns` slots, each holding a freshly built client. */
    constructor(maxConns: nat, newClient: nat -> T)
      ensures fresh(slots) && slots.Length == maxConns
      ensures forall i :: 0 <= i < maxConns ==> slots[i] == Some(newClient(i))
    {
      slots := new Option<T>[maxConns](i => Some(newClient(i)));
    }

    /** Scans from the first slot and takes the client out of the first
        occupied one. */
    method GetOne() returns (c: Option<T>)
      modifies slots
      ensures (c, slots[..]) == Take(old(slots[..]))
    {
      for i := 0 to slots.Length
        invariant forall k :: 0 <= k < i ==> slots[k].None?
        invariant slots[..] == old(slots[..])
      {
        if slots[i].Some? {
          c := slots[i];
          slots[i] := None;
          return;
        }
      }
      c := None;
    }

    /** Scans from the first slot and stores the client in the first empty
        one; with no empty slot the client is dropped. */
    method PutBack(conn: T)
      modifies slots
      ensures slots[..] == Put(old(slots[..]), conn)
    {
      for i := 0 to slots.Length
        invariant forall k :: 0 <= k < i ==> slots[k].Some?
        invariant slots[..] == old(slots[..])
      {
        if slots[i].None? {
          slots[i] := Some(conn);
          return;
        }
      }
    }
  }

  // ---------------------------------------------------------------------
  // Properties of the pool

  /** A new pool of `n` slots has all of them occupied. */
  lemma {:induction false} FullPool<T>(s: seq<Option<T>>)
    requires forall i :: 0 <= i < |s| ==> s[i].Some?
    ensures Occupied(s) == |s|
  {
    if |s| > 0 {
      FullPool(s[1..]);
    }
  }

  /** A pool with every slot occupied has no empty slot, and conversely. */
  lemma {:induction false} OccupiedAll<T>(s: seq<Option<T>>)
    ensures Occupied(s) == |s| <==> forall i :: 0 <= i < |s| ==> s[i].Some?
  {
    if |s| > 0 {
      OccupiedAll(s[1..]);
      if Occupied(s) == |s| {
        forall i | 0 <= i < |s| ensures s[i].Some? {
          if i > 0 {
            assert s[i] == s[1..][i - 1];
          }
        }
      } else {
        assert exists i :: 0 <= i < |s| && s[i].None? by {
          if s[0].Some? {
            var i :| 0 <= i < |s| - 1 && s[1..][i].None?;
            assert s[i + 1].None?;
          }
        }
      }
    }
  }

  /** Emptying an occupied slot lowers the count by one. */
  lemma {:induction false} OccupiedClear<T>(s: seq<Option<T>>, i: nat)
    requires i < |s| && s[i].Some?
    ensures Occupied(s[i := None]) == Occupied(s) - 1
  {
    if i > 0 {
      OccupiedClear(s[1..], i - 1);
      assert s[i := None][1..] == s[1..][i - 1 := None];
    } else {
      assert s[i := None][1..] == s[1..];
    }
  }

  /** Filling an empty slot raises the count by one. */
  lemma {:induction false} OccupiedFill<T>(s: seq<Option<T>>, i: nat, conn: T)
    requires i < |s| && s[i].None?
    ensures Occupied(s[i := Some(conn)]) == Occupied(s) + 1
  {
    if i > 0 {
      OccupiedFill(s[1..], i - 1, conn);
      assert s[i := Some(conn)][1..] == s[1..][i - 1 := Some(conn)];
    } else {
      assert s[i := Some(conn)][1..] == s[1..];
    }
  }

  /** `get_one` returns nothing exactly when every slot is empty; otherwise
      it empties the lowest occupied slot, returns its client, leaves every
      other slot as it was and lowers the occupied count by one. */
  lemma TakeSpec<T>(s: seq<Option<T>>)
    ensures var (c, rest) := Take(s);
            && |rest| == |s|
            && (c.None? <==> forall i :: 0 <= i < |s| ==> s[i].None?)
            && (c.None? ==> rest == s)
            && (c.Some? ==> exists i ::
                  && 0 <= i < |s| && s[i] == c && rest[i].None?
                  && (forall k :: 0 <= k < i ==> s[k].None?)
                  && (forall k :: 0 <= k < |s| && k != i ==> rest[k] == s[k]))
            && (c.Some? ==> Occupied(rest) == Occupied(s) - 1)
  {
    match FirstOccupied(s) {
      case None =>
      case Some(i) =>
        var rest := s[i := None];
        assert Take(s) == (s[i], rest);
        OccupiedClear(s, i);
        assert 0 <= i < |s| && rest[i].None? && forall k :: 0 <= k < |s| && k != i ==> rest[k] == s[k];
    }
  }

  /** `put_back` fills the lowest empty slot and changes nothing else,
      raising the occupied count by one; when no slot is empty it leaves the
      pool as it was. */
  lemma PutSpec<T>(s: seq<Option<T>>, conn: T)
    ensures var rest := Put(s, conn);
            && |rest| == |s|
            && ((forall i :: 0 <= i < |s| ==> s[i].Some?) ==> rest == s)
            && ((exists i :: 0 <= i < |s| && s[i].None?) ==>
                  && Occupied(rest) == Occupied(s) + 1
                  && exists i ::
                       && 0 <= i < |s| && s[i].None? && rest[i] == Some(conn)
                       && (forall k :: 0 <= k < i ==> s[k].Some?)
                       && (forall k :: 0 <= k < |s| && k != i ==> rest[k] == s[k]))
  {
    match FirstEmpty(s) {
      case None =>
      case Some(i) =>
        var rest := s[i := Some(conn)];
        assert Put(s, conn) == rest;
        OccupiedFill(s, i, conn);
        assert 0 <= i < |s| && rest[i] == Some(conn) && forall k :: 0 <= k < |s| && k != i ==> rest[k] == s[k];
    }
  }

  /** In balanced use -- every client that is out was taken from this pool,
      so occupied slots plus clients out equal the pool's size -- `get_one`
      finds a client whenever one is left, and taking it keeps the balance. */
  lemma BalancedTake<T>(s: seq<Option<T>>, out: nat)
    requires Occupied(s) + out == |s|
    ensures out < |s| ==> Take(s).0.Some?
    ensures Take(s).0.Some? ==> Occupied(Take(s).1) + (out + 1) == |s|
  {
    TakeSpec(s);
    if out < |s| && FirstOccupied(s).None? {
      NoneOccupied(s);
    }
  }

  /** In balanced use, returning a client never drops it, and storing it
      keeps the balance. */
  lemma BalancedPut<T>(s: seq<Option<T>>, out: nat, conn: T)
    requires Occupied(s) + out == |s|
    ensures out > 0 ==> FirstEmpty(s).Some? && Occupied(Put(s, conn)) + (out - 1) == |s|
  {
    OccupiedAll(s);
    PutSpec(s, conn);
  }

  /** A pool with no occupied slot counts zero. */
  lemma {:induction false} NoneOccupied<T>(s: seq<Option<T>>)
    requires forall i :: 0 <= i < |s| ==> s[i].None?
    ensures Occupied(s) == 0
  {
    if |s| > 0 {
      NoneOccupied(s[1..]);
    }
  }

  // ---------------------------------------------------------------------
  // Batches and result slots

  /** Task `j` of batch `i` writes its latency at this index of `times`. */
  function SlotIndex(i: nat, j: nat, tasks: nat): nat {
    i * tasks + j
  }

  /** The number of full batches; the source divides by the task count, so
      a task count of zero is a panic there. */
  function Batches(iterations: nat, tasks: nat): (b: nat)
    requires tasks > 0
    ensures b * tasks <= iterations < (b + 1) * tasks
  {
    iterations / tasks
  }

  /** Every task's slot lies inside the `iterations`-long vector. */
  lemma SlotIndexInBounds(iterations: nat, tasks: nat, i: nat, j: nat)
    requires tasks > 0 && i < Batches(iterations, tasks) && j < tasks
    ensures SlotIndex(i, j, tasks) < Batches(iterations, tasks) * tasks <= iterations
  {
    MulStep(i, Batches(iterations, tasks), tasks);
  }

  lemma MulStep(i: nat, b: nat, tasks: nat)
    requires i < b
    ensures i * tasks + tasks <= b * tasks
  {
    assert b * tasks == (b - i - 1) * tasks + i * tasks + tasks;
  }

  /** Two different tasks never write the same slot. */
  lemma SlotIndexInjective(i: nat, j: nat, i': nat, j': nat, tasks: nat)
    requires j < tasks && j' < tasks
    requires SlotIndex(i, j, tasks) == SlotIndex(i', j', tasks)
    ensures i == i' && j == j'
  {
    if i < i' {
      MulStep(i, i', tasks);
    } else if i' < i {
      MulStep(i', i, tasks);
    }
  }

  /** Every slot below `batches * tasks` is written by some task: task
      `n % tasks` of batch `n / tasks`, which is one of the batches run. */
  lemma SlotIndexCovers(iterations: nat, n: nat, tasks: nat)
    requires tasks > 0 && n < Batches(iterations, tasks) * tasks
    ensures n / tasks < Batches(iterations, tasks) && n % tasks < tasks
    ensures SlotIndex(n / tasks, n % tasks, tasks) == n
  {
    var b := Batches(iterations, tasks);
    if b < n / tasks {
      MulStep(b, n / tasks, tasks);
    }
  }

  /** With the default settings every one of the 10000 slots is written. */
  lemma DefaultBatchesFillAll()
    ensures Batches(ITERATIONS, CONCURRENT_TASKS) * CONCURRENT_TASKS == ITERATIONS
  {
  }

  // ---------------------------------------------------------------------
  // Classification in the older binary

  /** Only status exactly 200 can pass; with a failure pattern a matching
      body turns it into an error. */
  function LegacyClassify(response: Engine.Response, failedRegex: Option<Engine.Regex>): (v: Engine.Verdict)
    ensures v == Engine.Pass <==>
              && response.Received?
              && response.status == 200
              && (failedRegex.None? || !failedRegex.value(response.body))
  {
    match response {
      case TransportError => Engine.Fail
      case Received(status, body) =>
        if status == 200 && failedRegex.None? then Engine.Pass
        else if status == 200 then (if failedRegex.value(body) then Engine.Fail else Engine.Pass)
        else Engine.Fail
    }
  }

  /** The two binaries disagree exactly on a clean 2xx response other than
      200, which the older one counts as an error. */
  lemma LegacyDiffersOnlyOnOther2xx(response: Engine.Response, failedRegex: Option<Engine.Regex>)
    ensures LegacyClassify(response, failedRegex) != Engine.Classify(response, failedRegex) <==>
              && response.Received?
              && 201 <= response.status <= 299
              && (failedRegex.None? || !failedRegex.value(response.body))
  {
  }

  /** Passes among the first `n` requests. */
  function PassCount(response: nat -> Engine.Response, failedRegex: Option<Engine.Regex>, n: nat): (c: nat)
    ensures c <= n
  {
    if n == 0 then 0
    else PassCount(response, failedRegex, n - 1) + (if LegacyClassify(response(n - 1), failedRegex) == Engine.Pass then 1 else 0)
  }

  /** The latency vector after the first `m` requests have stored theirs:
      the slots below `m` hold their latency, the rest still hold 0. */
  function Written(latency: nat -> nat, len: nat, m: nat): (t: seq<nat>)
    ensures |t| == len
  {
    seq(len, n => if 0 <= n < m then latency(n) else 0)
  }

  /** One spawned task of `main`, run on its own: it takes a client, makes
      its request, stores the latency at its slot, classifies the response
      and returns the client. With a client available the first attempt of
      the source's retry loop succeeds (`AcquireWithin` with one attempt), so
      the loop is not repeated here. */
  method Task<T>(pool: ConnectionPool<T>, times: array<nat>, slot: nat,
                 response: nat -> Engine.Response, latency: nat -> nat,
                 failedRegex: Option<Engine.Regex>)
    returns (v: Engine.Verdict)
    requires slot < times.Length
    requires Occupied(pool.slots[..]) > 0
    modifies pool.slots, times
    ensures times[..] == old(times[..])[slot := latency(slot)]
    ensures v == LegacyClassify(response(slot), failedRegex)
    ensures Take(old(pool.slots[..])).0.Some?
    ensures pool.slots[..] == Cycle(old(pool.slots[..]))
    ensures Occupied(pool.slots[..]) == old(Occupied(pool.slots[..]))
  {
    ghost var available := Occupied(pool.slots[..]);
    BalancedTake(pool.slots[..], pool.slots.Length - available);
    var client := pool.GetOne();
    times[slot] := latency(slot);
    v := LegacyClassify(response(slot), failedRegex);
    BalancedPut(pool.slots[..], pool.slots.Length - available + 1, client.value);
    pool.PutBack(client.value);
  }

  /** The batches of `main`, run one task after another. Task `j` of batch
      `i` makes request number `SlotIndex(i, j, tasks)`, which gets response
      `response(n)` and latency `latency(n)`. Only full batches run: the
      slots past `Batches(iterations, tasks) * tasks` keep their 0. */
  method RunBatches<T>(pool: ConnectionPool<T>, iterations: nat, tasks: nat,
                       response: nat -> Engine.Response, latency: nat -> nat,
                       failedRegex: Option<Engine.Regex>)
    returns (times: array<nat>, passes: nat, errors: nat)
    requires tasks > 0
    requires Occupied(pool.slots[..]) > 0
    modifies pool.slots
    ensures fresh(times)
    ensures times[..] == Written(latency, iterations, Batches(iterations, tasks) * tasks)
    ensures passes == PassCount(response, failedRegex, Batches(iterations, tasks) * tasks)
    ensures passes + errors == Batches(iterations, tasks) * tasks
    ensures pool.slots[..] == Cycles(old(pool.slots[..]), Batches(iterations, tasks) * tasks)
    ensures Occupied(pool.slots[..]) == old(Occupied(pool.slots[..]))
  {
    ghost var initial := pool.slots[..];
    times := new nat[iterations](_ => 0);
    passes, errors := 0, 0;
    var batches := iterations / tasks;
    assert times[..] == Written(latency, iterations, 0);
    for i := 0 to batches
      invariant BatchState(initial, pool.slots[..], times[..], passes, errors, response, latency, failedRegex, i * tasks)
    {
      passes, errors := RunBatch(pool, times, i, tasks, response, latency, failedRegex, passes, errors, initial);
    }
  }

  /** The state after the first `n` tasks: the pool has gone through `n`
      take-and-return cycles, the first `n` slots hold their latencies, and
      the counters hold the first `n` verdicts. */
  ghost predicate BatchState<T>(initial: seq<Option<T>>, slots: seq<Option<T>>, times: seq<nat>,
                                passes: nat, errors: nat, response: nat -> Engine.Response,
                                latency: nat -> nat, failedRegex: Option<Engine.Regex>, n: nat)
  {
    && slots == Cycles(initial, n)
    && Occupied(slots) == Occupied(initial) > 0
    && times == Written(latency, |times|, n)
    && passes == PassCount(response, failedRegex, n)
    && passes + errors == n
  }

  /** One more task, at slot `n`, moves the state from `n` to `n + 1`. */
  lemma BatchStep<T>(initial: seq<Option<T>>, slots: seq<Option<T>>, times: seq<nat>,
                     passes: nat, errors: nat, response: nat -> Engine.Response,
                     latency: nat -> nat, failedRegex: Option<Engine.Regex>, n: nat,
                     slots': seq<Option<T>>, times': seq<nat>, v: Engine.Verdict)
    requires BatchState(initial, slots, times, passes, errors, response, latency, failedRegex, n)
    requires n < |times|
    requires slots' == Cycle(slots) && Occupied(slots') == Occupied(slots)
    requires times' == times[n := latency(n)]
    requires v == LegacyClassify(response(n), failedRegex)
    ensures BatchState(initial, slots', times',
                       passes + (if v == Engine.Pass then 1 else 0),
                       errors + (if v == Engine.Pass then 0 else 1),
                       response, latency, failedRegex, n + 1)
  {
    assert times' == Written(latency, |times|, n + 1);
  }

  /** A task as the spawned closure runs it: the request, and then the
      verdict added to the shared counters, so that the run has gone one slot
      further. */
  method CountedTask<T>(pool: ConnectionPool<T>, times: array<nat>, slot: nat,
                        response: nat -> Engine.Response, latency: nat -> nat,
                        failedRegex: Option<Engine.Regex>, passes0: nat, errors0: nat,
                        ghost initial: seq<Option<T>>)
    returns (passes: nat, errors: nat)
    requires slot < times.Length
    requires BatchState(initial, pool.slots[..], times[..], passes0, errors0, response, latency, failedRegex, slot)
    modifies pool.slots, times
    ensures BatchState(initial, pool.slots[..], times[..], passes, errors, response, latency, failedRegex, slot + 1)
  {
    ghost var slots, written := pool.slots[..], times[..];
    var v := Task(pool, times, slot, response, latency, failedRegex);
    BatchStep(initial, slots, written, passes0, errors0, response, latency, failedRegex, slot,
              pool.slots[..], times[..], v);
    if v == Engine.Pass {
      passes, errors := passes0 + 1, errors0;
    } else {
      passes, errors := passes0, errors0 + 1;
    }
  }

  /** Batch `i`: its `tasks` tasks, one after another, each writing its own
      slot and adding its verdict to the counters. */
  method RunBatch<T>(pool: ConnectionPool<T>, times: array<nat>, i: nat, tasks: nat,
                     response: nat -> Engine.Response, latency: nat -> nat,
                     failedRegex: Option<Engine.Regex>, passes0: nat, errors0: nat,
                     ghost initial: seq<Option<T>>)
    returns (passes: nat, errors: nat)
    requires tasks > 0 && i < Batches(times.Length, tasks)
    requires BatchState(initial, pool.slots[..], times[..], passes0, errors0, response, latency, failedRegex, i * tasks)
    modifies pool.slots, times
    ensures BatchState(initial, pool.slots[..], times[..], passes, errors, response, latency, failedRegex, (i + 1) * tasks)
  {
    passes, errors := passes0, errors0;
    for j := 0 to tasks
      invariant BatchState(initial, pool.slots[..], times[..], passes, errors, response, latency, failedRegex, SlotIndex(i, j, tasks))
    {
      SlotIndexInBounds(times.Length, tasks, i, j);
      passes, errors := CountedTask(pool, times, SlotIndex(i, j, tasks), response, latency, failedRegex, passes, errors, initial);
    }
    NextBatch(i, tasks);
  }

  lemma NextBatch(i: nat, tasks: nat)
    ensures SlotIndex(i, tasks, tasks) == (i + 1) * tasks
  {
  }

  /** A full pool is left as it was by a task: the client comes out of the
      first slot and goes back into it. */
  lemma FullCycle<T>(s: seq<Option<T>>)
    requires forall i :: 0 <= i < |s| ==> s[i].Some?
    ensures Cycle(s) == s
  {
    if |s| > 0 {
      assert FirstOccupied(s) == Some(0);
      assert FirstEmpty(s[0 := None]) == Some(0);
      assert s[0 := None][0 := s[0]] == s;
    }
  }

  /** So any number of tasks leave a full pool as it was. */
  lemma {:induction false} FullCycles<T>(s: seq<Option<T>>, n: nat)
    requires forall i :: 0 <= i < |s| ==> s[i].Some?
    ensures Cycles(s, n) == s
  {
    if n > 0 {
      FullCycles(s, n - 1);
      FullCycle(s);
    }
  }

  // ---------------------------------------------------------------------
  // Taking a client with the retry loop, and an empty pool

  /** The source's acquire loop, cut off after `attempts` attempts: each
      attempt takes the pool lock and calls `get_one`, and the loop ends at
      the first client handed out. A failed attempt leaves the slots as they
      were. */
  function AcquireWithin<T>(s: seq<Option<T>>, attempts: nat): (r: Option<T>)
    ensures r.Some? ==> attempts > 0 && Take(s).0 == r
  {
    if attempts == 0 then None
    else
      var (c, rest) := Take(s);
      if c.Some? then c else AcquireWithin(rest, attempts - 1)
  }

  /** With at least one client in the pool the first attempt succeeds. */
  lemma AcquireOccupied<T>(s: seq<Option<T>>)
    requires Occupied(s) > 0
    ensures AcquireWithin(s, 1).Some?
  {
    if FirstOccupied(s).None? {
      NoneOccupied(s);
    }
  }

  /** With zero connections the pool has no slots, `put_back` keeps it that
      way whatever other tasks do, and no number of attempts ever yields a
      client: every task spins in its loop forever and the run never ends. */
  lemma {:induction false} EmptyPoolNeverAcquires<T>(s: seq<Option<T>>, attempts: nat, conn: T)
    requires |s| == 0
    ensures Put(s, conn) == s
    ensures AcquireWithin(s, attempts).None?
  {
    if attempts > 0 {
      EmptyPoolNeverAcquires(s, attempts - 1, conn);
    }
  }

  /** The run of `main` with the connection count checked first: zero
      connections is refused instead of hanging, and otherwise a full pool
      of `connections` clients serves every batch and is left as it was. */
  method Run<T>(connections: nat, iterations: nat, tasks: nat, newClient: nat -> T,
                response: nat -> Engine.Response, latency: nat -> nat,
                failedRegex: Option<Engine.Regex>)
    returns (r: Option<(array<nat>, nat, nat)>)
    requires tasks > 0
    ensures r.None? <==> connections == 0
    ensures r.Some? ==>
              var (times, passes, errors) := r.value;
              && fresh(times)
              && times[..] == Written(latency, iterations, Batches(iterations, tasks) * tasks)
              && passes == PassCount(response, failedRegex, Batches(iterations, tasks) * tasks)
              && passes + errors == Batches(iterations, tasks) * tasks
  {
    if connections == 0 {
      return None;
    }
    var pool := new ConnectionPool(connections, newClient);
    FullPool(pool.slots[..]);
    var times, passes, errors := RunBatches(pool, iterations, tasks, response, latency, failedRegex);
    r := Some((times, passes, errors));
  }

  // ---------------------------------------------------------------------
  // Percentiles

  ghost predicate Sorted(s: seq<nat>) {
    forall p, q :: 0 <= p < q < |s| ==> s[p] <= s[q]
  }

  /** Exchanges two elements of `a`, keeping its values. */
  method Swap(a: array<nat>, i: nat, j: nat)
    requires i < a.Length && j < a.Length
    modifies a
    ensures a[..] == old(a[..])[i := old(a[j])][j := old(a[i])]
    ensures multiset(a[..]) == multiset(old(a[..]))
  {
    a[i], a[j] := a[j], a[i];
  }

  /** In-place ascending sort: the result is ordered and holds the same
      values. */
  method Sort(a: array<nat>)
    modifies a
    ensures Sorted(a[..])
    ensures multiset(a[..]) == multiset(old(a[..]))
  {
    for i := 0 to a.Length
      invariant forall p, q :: 0 <= p < q < i ==> a[p] <= a[q]
      invariant multiset(a[..]) == multiset(old(a[..]))
    {
      var j := i;
      while j > 0 && a[j - 1] > a[j]
        invariant 0 <= j <= i
        invariant forall p, q :: 0 <= p < q <= i && p != j && q != j ==> a[p] <= a[q]
        invariant forall q :: j < q <= i ==> a[j] < a[q]
        invariant multiset(a[..]) == multiset(old(a[..]))
      {
        Swap(a, j - 1, j);
        j := j - 1;
      }
    }
  }

  /** The index `percentile` reads for a percentage given in tenths of a
      percent: `(len - 1) * perc / 100` truncated toward zero, with a
      negative product cast to 0 as a float-to-unsigned cast does. */
  function PercentileIndex(len: nat, percTenths: int): (ix: nat)
    requires len > 0
    ensures percTenths <= 1000 ==> ix < len
  {
    if percTenths <= 0 then 0
    else
      var product := (len - 1) * percTenths;
      if percTenths <= 1000 then
        MulLeftMonotone(len - 1, percTenths, 1000);
        DivMonotone(product, (len - 1) * 1000);
        product / 1000
      else
        product / 1000
  }

  /** Sorts the values in place and returns the one at the percentile's
      index. An empty vector is a panic in the source. */
  method Percentile(vals: array<nat>, percTenths: int) returns (p: nat)
    requires vals.Length > 0
    requires PercentileIndex(vals.Length, percTenths) < vals.Length
    modifies vals
    ensures Sorted(vals[..]) && multiset(vals[..]) == multiset(old(vals[..]))
    ensures p == vals[PercentileIndex(vals.Length, percTenths)]
  {
    Sort(vals);
    p := vals[PercentileIndex(vals.Length, percTenths)];
  }

  /** For a percentage from 0 to 100 the index is in bounds, 0 picks the
      first element, 100 the last, and a larger percentage never picks an
      earlier one. */
  lemma PercentileIndexBounds(len: nat, percTenths: int, percTenths': int)
    requires len > 0
    requires 0 <= percTenths <= percTenths' <= 1000
    ensures PercentileIndex(len, percTenths) <= PercentileIndex(len, percTenths') < len
    ensures PercentileIndex(len, 0) == 0
    ensures PercentileIndex(len, 1000) == len - 1
  {
    MulLeftMonotone(len - 1, percTenths, percTenths');
    MulLeftMonotone(len - 1, percTenths', 1000);
    DivMonotone((len - 1) * percTenths, (len - 1) * percTenths');
    DivMonotone((len - 1) * percTenths', (len - 1) * 1000);
  }

  lemma MulLeftMonotone(x: nat, a: int, b: int)
    requires 0 <= a <= b
    ensures x * a <= x * b
  {
    assert x * b == x * a + x * (b - a);
  }

  lemma DivMonotone(x: nat, y: nat)
    requires x <= y
    ensures x / 1000 <= y / 1000
  {
  }

  /** On sorted values the 0th percentile is the minimum, the 100th the
      maximum, and the value never decreases as the percentage grows. */
  lemma PercentileOrder(s: seq<nat>, percTenths: int, percTenths': int)
    requires |s| > 0 && Sorted(s)
    requires 0 <= percTenths <= percTenths' <= 1000
    ensures forall k :: 0 <= k < |s| ==> s[PercentileIndex(|s|, 0)] <= s[k]
    ensures forall k :: 0 <= k < |s| ==> s[k] <= s[PercentileIndex(|s|, 1000)]
    ensures s[PercentileIndex(|s|, percTenths)] <= s[PercentileIndex(|s|, percTenths')]
  {
    PercentileIndexBounds(|s|, percTenths, percTenths');
    var lo, hi := PercentileIndex(|s|, percTenths), PercentileIndex(|s|, percTenths');
    var first, last := PercentileIndex(|s|, 0), PercentileIndex(|s|, 1000);
    assert first == 0 && last == |s| - 1 && lo <= hi < |s|;
    SortedPair(s, lo, hi);
    forall k | 0 <= k < |s|
      ensures s[first] <= s[k] <= s[last]
    {
      SortedPair(s, first, k);
      SortedPair(s, k, last);
    }
  }

  lemma SortedPair(s: seq<nat>, p: nat, q: nat)
    requires Sorted(s) && p <= q < |s|
    ensures s[p] <= s[q]
  {
  }
}
