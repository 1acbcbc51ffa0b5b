/** The batch runner: `AlgProcessManager.start_a_batch` drains the shared
    queue, enqueues the batch, appends one `None` sentinel per worker and
    spawns that many workers; each `worker_task` takes items off the queue
    until it takes a sentinel. Processes are modelled as consumers of one FIFO
    whose interleaving is an arbitrary schedule of worker numbers. */
module AlgProcess {
  import opened Wrappers

  /** A queue item: the `None` sentinel, or a batch entry (a Python tuple, by its fields). */
  datatype Item = Sentinel | Task(fields: seq<string>)

  /** What a worker does with a non-sentinel item: process it when it unpacks
      into `(bucket, file, algorithm)`, otherwise report the ValueError and go on. */
  datatype Handling = Processed(bucket: string, file: string, algorithm: string) | Reported(fields: seq<string>)

  /** The fields a handling was made from: the unpacked names, or the entry as reported. */
  function FieldsOf(h: Handling): seq<string>
  {
    match h
    case Processed(b, f, a) => [b, f, a]
    case Reported(fields) => fields
  }

  /** A well-formed handling: a report is only ever made for an entry that does not unpack. */
  predicate WellFormed(h: Handling)
  {
    h.Reported? ==> |h.fields| != 3
  }

  /** `bucket, file, algorithm = task`: unpacking loses nothing, since the
      fields can be read back from the handling, and it processes exactly
      the three-field entries. */
  function Unpack(fields: seq<string>): (h: Handling)
    ensures h.Processed? <==> |fields| == 3
    ensures h.Processed? ==> [h.bucket, h.file, h.algorithm] == fields
    ensures h.Reported? ==> h.fields == fields
    ensures FieldsOf(h) == fields && WellFormed(h)
  {
    if |fields| == 3 then Processed(fields[0], fields[1], fields[2]) else Reported(fields)
  }

  /** The converse round trip: every well-formed handling is the unpacking of its fields. */
  lemma UnpackFieldsOf(h: Handling)
    requires WellFormed(h)
    ensures Unpack(FieldsOf(h)) == h
  {
    match h
    case Processed(b, f, a) =>
      assert FieldsOf(h) == [b, f, a];
    case Reported(fields) =>
  }

  /** The manager's state: the shared queue, every worker ever spawned (by
      number, in spawn order), and `os.cpu_count()`, which may be `None`. */
  datatype Manager = Manager(queue: seq<Item>, workers: seq<nat>, cores: Option<nat>)

  function Init(cores: Option<nat>): Manager
  {
    Manager([], [], cores)
  }

  function Tasks(batch: seq<seq<string>>): (q: seq<Item>)
    ensures |q| == |batch|
    ensures forall i :: 0 <= i < |q| ==> q[i] == Task(batch[i])
  {
    seq(|batch|, i requires 0 <= i < |batch| => Task(batch[i]))
  }

  function Sentinels(n: nat): (q: seq<Item>)
    ensures |q| == n
    ensures forall i :: 0 <= i < n ==> q[i] == Sentinel
  {
    seq(n, i => Sentinel)
  }

  function Min(a: nat, b: nat): nat
  {
    if a <= b then a else b
  }

  /** The result of one `start_a_batch` call: the manager afterwards, the
      workers spawned by this call, the workers joined, and whether the call
      raised (TypeError from `None * 2` when the core count is unknown, after
      the queue has been drained and filled but before any sentinel). */
  datatype BatchOutcome = BatchOutcome(manager: Manager, spawned: seq<nat>, joined: seq<nat>, raised: bool)

  function StartABatch(m: Manager, batch: seq<seq<string>>): (r: BatchOutcome)
    ensures r.manager.cores == m.cores
    ensures r.raised <==> m.cores.None?
    ensures r.raised ==> r.manager.queue == Tasks(batch) && r.manager.workers == m.workers && r.joined == []
    ensures !r.raised ==>
      var n := Min(|batch|, 2 * m.cores.value);
      && r.manager.queue == Tasks(batch) + Sentinels(n)
      && |r.spawned| == n
      && r.manager.workers == m.workers + r.spawned
      && r.joined == r.manager.workers
  {
    var filled := Tasks(batch);
    match m.cores
    case None => BatchOutcome(Manager(filled, m.workers, m.cores), [], [], true)
    case Some(c) =>
      var n := Min(|batch|, 2 * c);
      var spawned := seq(n, i => |m.workers| + i);
      var workers := m.workers + spawned;
      BatchOutcome(Manager(filled + Sentinels(n), workers, m.cores), spawned, workers, false)
  }

  /** After a successful `start_a_batch`: leftovers from an earlier batch are
      gone, the queue is the batch in order followed by min(n, 2 * cores)
      sentinels (none for an empty batch), every task sits before every
      sentinel, and the worker list has only grown. */
  lemma StartABatchQueue(m: Manager, batch: seq<seq<string>>)
    requires m.cores.Some?
    ensures
      var r := StartABatch(m, batch);
      var q := r.manager.queue;
      var n := Min(|batch|, 2 * m.cores.value);
      && |q| == |batch| + n
      && n <= |batch| && n <= 2 * m.cores.value
      && (n == |batch| || n == 2 * m.cores.value)
      && (batch == [] ==> q == [] && r.spawned == [])
      && (forall i :: 0 <= i < |batch| ==> q[i] == Task(batch[i]))
      && (forall i :: |batch| <= i < |q| ==> q[i] == Sentinel)
      && (forall i, j :: 0 <= i < |q| && 0 <= j < |q| && q[i].Task? && q[j].Sentinel? ==> i < j)
      && m.workers <= r.manager.workers
  {
    var r := StartABatch(m, batch);
    var q := r.manager.queue;
  }

  /** Everything observable about the workers: which worker took which item,
      and for a task whether it was processed or its error reported. */
  datatype Event = Handled(worker: nat, handling: Handling) | Exited(worker: nat)

  /** The shared queue, the workers still looping, and the events so far. */
  datatype Pool = Pool(queue: seq<Item>, live: set<nat>, log: seq<Event>)

  /** Worker `w` takes the head of the queue. A worker that has exited, or
      that would block on an empty queue, makes no step. */
  function Step(p: Pool, w: nat): (p': Pool)
    ensures w in p.live && |p.queue| > 0 ==>
      && p'.queue == p.queue[1..]
      && (w !in p'.live <==> p.queue[0] == Sentinel)
      && p'.live <= p.live && p.live - p'.live <= {w}
    ensures !(w in p.live && |p.queue| > 0) ==> p' == p
  {
    if w !in p.live || |p.queue| == 0 then p
    else match p.queue[0]
      case Sentinel => Pool(p.queue[1..], p.live - {w}, p.log + [Exited(w)])
      case Task(f) => Pool(p.queue[1..], p.live, p.log + [Handled(w, Unpack(f))])
  }

  function Run(p: Pool, schedule: seq<nat>): Pool
    decreases |schedule|
  {
    if |schedule| == 0 then p else Run(Step(p, schedule[0]), schedule[1..])
  }

  function ItemOf(e: Event): Item
  {
    match e
    case Handled(_, h) => Task(FieldsOf(h))
    case Exited(_) => Sentinel
  }

  /** The items taken, in the order they were taken. */
  function ItemsOf(log: seq<Event>): (items: seq<Item>)
    ensures |items| == |log|
  {
    seq(|log|, i requires 0 <= i < |log| => ItemOf(log[i]))
  }

  function Exits(log: seq<Event>): nat
  {
    if |log| == 0 then 0 else Exits(log[..|log| - 1]) + (if log[|log| - 1].Exited? then 1 else 0)
  }

  function SentinelsIn(q: seq<Item>): nat
  {
    if |q| == 0 then 0 else SentinelsIn(q[..|q| - 1]) + (if q[|q| - 1].Sentinel? then 1 else 0)
  }

  /** The set of workers that logged an exit. */
  function ExitedSet(log: seq<Event>): set<nat>
  {
    set i | 0 <= i < |log| && log[i].Exited? :: log[i].worker
  }

  /** Every handling logged is one `Unpack` can produce. */
  predicate LogWellFormed(log: seq<Event>)
  {
    forall i :: 0 <= i < |log| && log[i].Handled? ==> WellFormed(log[i].handling)
  }

  predicate PoolInvariant(p: Pool)
  {
    p.live !! ExitedSet(p.log) && LogWellFormed(p.log)
  }

  lemma {:induction false} ExitsMatchSentinels(log: seq<Event>)
    ensures Exits(log) == SentinelsIn(ItemsOf(log))
    decreases |log|
  {
    if |log| > 0 {
      var init := log[..|log| - 1];
      ExitsMatchSentinels(init);
      assert ItemsOf(log)[..|log| - 1] == ItemsOf(init);
    }
  }

  /** Appending an event to the log extends the items taken by its item,
      counts one more exit exactly for an exit, and adds its worker to the
      exited set exactly for an exit. */
  lemma LogAppend(log: seq<Event>, e: Event)
    ensures ItemsOf(log + [e]) == ItemsOf(log) + [ItemOf(e)]
    ensures Exits(log + [e]) == Exits(log) + (if e.Exited? then 1 else 0)
    ensures ExitedSet(log + [e]) == ExitedSet(log) + (if e.Exited? then {e.worker} else {})
  {
    var log' := log + [e];
    assert log'[..|log'| - 1] == log;
    forall x | x in ExitedSet(log') ensures x in ExitedSet(log) + (if e.Exited? then {e.worker} else {}) {
      var i :| 0 <= i < |log'| && log'[i].Exited? && log'[i].worker == x;
      if i < |log| { assert log[i] == log'[i]; }
    }
    forall x | x in ExitedSet(log) ensures x in ExitedSet(log') {
      var i :| 0 <= i < |log| && log[i].Exited? && log[i].worker == x;
      assert log'[i] == log[i];
    }
    if e.Exited? { assert log'[|log|].worker == e.worker; }
  }

  /** What a run keeps from `p` to `p'`: the items taken followed by what is
      left is the queue as it was; each exit costs one live worker; workers
      only leave the live set, and only by logging their exit; the log only
      grows. */
  predicate Keeps(p: Pool, p': Pool)
  {
    && ItemsOf(p'.log) + p'.queue == ItemsOf(p.log) + p.queue
    && |p'.live| + Exits(p'.log) == |p.live| + Exits(p.log)
    && p'.live <= p.live
    && p'.live + ExitedSet(p'.log) == p.live + ExitedSet(p.log)
    && PoolInvariant(p')
    && p.log <= p'.log
  }

  /** A live worker taking a sentinel keeps the discipline. */
  lemma ExitKeeps(p: Pool, w: nat)
    requires PoolInvariant(p) && w in p.live && |p.queue| > 0 && p.queue[0] == Sentinel
    ensures Keeps(p, Pool(p.queue[1..], p.live - {w}, p.log + [Exited(w)]))
  {
    LogAppend(p.log, Exited(w));
    assert ItemsOf(p.log + [Exited(w)]) + p.queue[1..] == ItemsOf(p.log) + ([Sentinel] + p.queue[1..]);
    assert [p.queue[0]] + p.queue[1..] == p.queue;
    assert |p.live - {w}| == |p.live| - 1;
  }

  /** A live worker taking a task keeps the discipline. */
  lemma HandleKeeps(p: Pool, w: nat, f: seq<string>)
    requires PoolInvariant(p) && w in p.live && |p.queue| > 0 && p.queue[0] == Task(f)
    ensures Keeps(p, Pool(p.queue[1..], p.live, p.log + [Handled(w, Unpack(f))]))
  {
    LogAppend(p.log, Handled(w, Unpack(f)));
    assert ItemsOf(p.log + [Handled(w, Unpack(f))]) + p.queue[1..] == ItemsOf(p.log) + ([Task(f)] + p.queue[1..]);
    assert [p.queue[0]] + p.queue[1..] == p.queue;
  }

  /** One step keeps the queue discipline. */
  lemma StepKeeps(p: Pool, w: nat)
    requires PoolInvariant(p)
    ensures Keeps(p, Step(p, w))
  {
    if w in p.live && |p.queue| > 0 {
      match p.queue[0]
      case Sentinel => ExitKeeps(p, w);
      case Task(f) => HandleKeeps(p, w, f);
    }
  }

  /** The discipline composes along a run. */
  lemma KeepsTrans(p: Pool, q: Pool, r: Pool)
    requires Keeps(p, q) && Keeps(q, r)
    ensures Keeps(p, r)
  {
  }

  /** Any interleaving behaves like a FIFO read in order: the items taken
      followed by what is left is the queue as it was; each exit costs one
      live worker; a worker that exited never takes another item. */
  lemma {:induction false} RunKeeps(p: Pool, schedule: seq<nat>)
    requires PoolInvariant(p)
    ensures Keeps(p, Run(p, schedule))
    decreases |schedule|
  {
    if |schedule| > 0 {
      StepKeeps(p, schedule[0]);
      RunKeeps(Step(p, schedule[0]), schedule[1..]);
      KeepsTrans(p, Step(p, schedule[0]), Run(p, schedule));
    }
  }

  /** The n worker numbers from `lo` on. */
  function Workers(lo: nat, n: nat): (ws: set<nat>)
    ensures |ws| == n
    ensures forall w: nat :: w in ws <==> lo <= w < lo + n
  {
    if n == 0 then {} else Workers(lo, n - 1) + {lo + n - 1}
  }

  lemma {:induction false} SentinelsInBatchQueue(batch: seq<seq<string>>, n: nat)
    ensures SentinelsIn(Tasks(batch) + Sentinels(n)) == n
    decreases |batch| + n
  {
    var q := Tasks(batch) + Sentinels(n);
    if n > 0 {
      assert q[..|q| - 1] == Tasks(batch) + Sentinels(n - 1);
      SentinelsInBatchQueue(batch, n - 1);
    } else if |batch| > 0 {
      var b' := batch[..|batch| - 1];
      assert q[..|q| - 1] == Tasks(b') + Sentinels(0);
      SentinelsInBatchQueue(b', 0);
    }
  }

  /** The batch as the workers ran it: whatever the interleaving, once the
      queue is empty every task was taken exactly once, in batch order,
      before any sentinel, and every one of the n workers has exited. A task
      was processed exactly when it has three fields; any other entry, such
      as a `(file, algorithm)` pair, had its unpacking error reported. */
  lemma BatchDrains(batch: seq<seq<string>>, n: nat, ws: set<nat>, schedule: seq<nat>)
    requires |ws| == n
    requires var p' := Run(Pool(Tasks(batch) + Sentinels(n), ws, []), schedule);
             p'.queue == []
    ensures var p' := Run(Pool(Tasks(batch) + Sentinels(n), ws, []), schedule);
      && ItemsOf(p'.log) == Tasks(batch) + Sentinels(n)
      && p'.live == {}
      && ExitedSet(p'.log) == ws
      && (forall i :: 0 <= i < |batch| ==> p'.log[i] == Handled(p'.log[i].worker, Unpack(batch[i])))
      && (forall i :: 0 <= i < |batch| ==> (p'.log[i].handling.Processed? <==> |batch[i]| == 3))
  {
    var p := Pool(Tasks(batch) + Sentinels(n), ws, []);
    var p' := Run(p, schedule);
    assert ItemsOf([]) == [];
    RunKeeps(p, schedule);
    assert ItemsOf(p'.log) + p'.queue == ItemsOf(p'.log);
    assert ItemsOf(p.log) + p.queue == p.queue;
    assert ItemsOf(p'.log) == Tasks(batch) + Sentinels(n);
    ExitsMatchSentinels(p'.log);
    SentinelsInBatchQueue(batch, n);
    assert |p'.live| == 0;
    forall i | 0 <= i < |batch| ensures p'.log[i] == Handled(p'.log[i].worker, Unpack(batch[i])) {
      assert ItemsOf(p'.log)[i] == Task(batch[i]);
      UnpackFieldsOf(p'.log[i].handling);
    }
    assert ExitedSet([]) == {};
  }

  /** A successful `start_a_batch` followed by its spawned workers running
      under any interleaving that empties the queue: every task of the batch
      was taken once, in order, processed or reported as it unpacks, and
      every spawned worker has exited, whatever workers earlier batches left
      in the manager's list. */
  lemma StartABatchDrains(m: Manager, batch: seq<seq<string>>, schedule: seq<nat>)
    requires m.cores.Some?
    requires var r := StartABatch(m, batch);
      Run(Pool(r.manager.queue, set w | w in r.spawned, []), schedule).queue == []
    ensures var r := StartABatch(m, batch);
      var p' := Run(Pool(r.manager.queue, set w | w in r.spawned, []), schedule);
      && ItemsOf(p'.log) == r.manager.queue
      && p'.live == {}
      && ExitedSet(p'.log) == (set w | w in r.spawned)
      && (forall i :: 0 <= i < |batch| ==> p'.log[i] == Handled(p'.log[i].worker, Unpack(batch[i])))
      && (forall i :: 0 <= i < |batch| ==> (p'.log[i].handling.Processed? <==> |batch[i]| == 3))
  {
    var r := StartABatch(m, batch);
    var n := Min(|batch|, 2 * m.cores.value);
    var ws := set w | w in r.spawned;
    assert ws == Workers(|m.workers|, n) by {
      forall w: nat | w in Workers(|m.workers|, n) ensures w in ws {
        assert r.spawned[w - |m.workers|] == w;
      }
    }
    BatchDrains(batch, n, ws, schedule);
  }

  lemma {:induction false} RunConcat(p: Pool, s1: seq<nat>, s2: seq<nat>)
    ensures Run(p, s1 + s2) == Run(Run(p, s1), s2)
    decreases |s1|
  {
    if |s1| > 0 {
      assert (s1 + s2)[0] == s1[0];
      assert (s1 + s2)[1..] == s1[1..] + s2;
      RunConcat(Step(p, s1[0]), s1[1..], s2);
    } else {
      assert s1 + s2 == s2;
    }
  }

  /** A live worker that meets `k` tasks at the head of the queue takes them all and stays live. */
  lemma {:induction false} TakeTasks(p: Pool, w: nat, k: nat)
    requires w in p.live && k <= |p.queue|
    requires forall i :: 0 <= i < k ==> p.queue[i].Task?
    ensures Run(p, seq(k, i => w)).queue == p.queue[k..]
    ensures Run(p, seq(k, i => w)).live == p.live
    decreases k
  {
    if k > 0 {
      var q := Step(p, w);
      assert seq(k, i => w) == [w] + seq(k - 1, i => w);
      RunConcat(p, [w], seq(k - 1, i => w));
      assert Run(p, [w]) == q;
      TakeTasks(q, w, k - 1);
      assert q.queue[k - 1..] == p.queue[k..];
    }
  }

  /** Distinct live workers meeting one sentinel each all exit. */
  lemma {:induction false} TakeSentinels(p: Pool, ws: seq<nat>)
    requires |ws| <= |p.queue|
    requires forall i :: 0 <= i < |ws| ==> ws[i] in p.live && p.queue[i] == Sentinel
    requires forall i, j :: 0 <= i < j < |ws| ==> ws[i] != ws[j]
    ensures Run(p, ws).queue == p.queue[|ws|..]
    decreases |ws|
  {
    if |ws| > 0 {
      var q := Step(p, ws[0]);
      assert q.live == p.live - {ws[0]};
      TakeSentinels(q, ws[1..]);
      assert q.queue[|ws| - 1..] == p.queue[|ws|..];
    }
  }

  /** Worker 0 takes every task and its sentinel, then workers 1 .. n-1 take one sentinel each. */
  function SequentialSchedule(tasks: nat, n: nat): seq<nat>
  {
    seq(tasks, i => 0) + seq(n, i => i)
  }

  /** Worker 0 alone takes every task of the batch, leaving the sentinels
      for all n workers, who are all still live. */
  lemma SequentialTasksTaken(batch: seq<seq<string>>, n: nat)
    requires |batch| > 0 ==> n > 0
    ensures var mid := Run(Pool(Tasks(batch) + Sentinels(n), Workers(0, n), []), seq(|batch|, i => 0));
      mid.queue == Sentinels(n) && mid.live == Workers(0, n)
  {
    var p := Pool(Tasks(batch) + Sentinels(n), Workers(0, n), []);
    var k := |batch|;
    if k > 0 {
      TakeTasks(p, 0, k);
      assert p.queue[k..] == Sentinels(n);
    } else {
      assert seq(k, i => 0) == [];
      assert p.queue == Sentinels(n);
    }
  }

  /** The workers run one after another, as sequential consumers of the FIFO,
      do empty the queue, so the drained state of BatchDrains is reached. */
  lemma SequentialDrains(batch: seq<seq<string>>, n: nat)
    requires |batch| > 0 ==> n > 0
    ensures Run(Pool(Tasks(batch) + Sentinels(n), Workers(0, n), []), SequentialSchedule(|batch|, n)).queue == []
  {
    var p := Pool(Tasks(batch) + Sentinels(n), Workers(0, n), []);
    RunConcat(p, seq(|batch|, i => 0), seq(n, i => i));
    SequentialTasksTaken(batch, n);
    TakeSentinels(Run(p, seq(|batch|, i => 0)), seq(n, i => i));
  }
}
