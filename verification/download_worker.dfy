/** The task schema shared by the two pipeline stages, as Python values after
    `recv_json` has decoded them. */
module Tasks {
  import opened Wrappers

  /** A decoded JSON value. Objects keep their members in insertion order, as
      Python dicts do; numbers are integers only. */
  datatype Json =
    | JNull
    | JBool(b: bool)
    | JNumber(n: int)
    | JString(s: string)
    | JArray(items: seq<Json>)
    | JObject(members: seq<(string, Json)>)

  /** `d[key]` on a dict: the first member with that key. */
  function Lookup(members: seq<(string, Json)>, key: string): (r: Option<Json>)
    ensures r.Some? <==> exists i :: 0 <= i < |members| && members[i].0 == key
    ensures r.Some? ==> exists i :: 0 <= i < |members| && members[i] == (key, r.value)
  {
    if |members| == 0 then None
    else if members[0].0 == key then Some(members[0].1)
    else Lookup(members[1..], key)
  }

  /** What a download task carries once its three keys have been read. */
  datatype DownloadTask = DownloadTask(bucket: Json, file: Json, algorithms: Json)

  /** What a download worker sends on: the resolved local path and one algorithm. */
  datatype AlgorithmTask = AlgorithmTask(file: string, algorithm: Json)
}

/** The per-task body of the download worker's receive loop. */
module DownloadWorker {
  import opened Wrappers
  import opened Tasks
  import PosixPath

  const SharedDirVariable: string := "SHARED_DOWNLOAD_DIR"
  const DefaultSharedDir: string := "/tmp/shared_audio_files"

  /** `os.getenv('SHARED_DOWNLOAD_DIR', '/tmp/shared_audio_files')`: the
      variable's value when it is set (even to the empty string), else the default. */
  function SharedDownloadDir(env: map<string, string>): (dir: string)
    ensures SharedDirVariable !in env ==> dir == "/tmp/shared_audio_files"
    ensures SharedDirVariable in env ==> dir == env[SharedDirVariable]
  {
    if SharedDirVariable in env then env[SharedDirVariable] else DefaultSharedDir
  }

  /** The Python exception that ends the handling of one task. */
  datatype TaskError =
    | NotSubscriptable   // TypeError: the decoded value is not a dict
    | MissingKey(key: string)   // KeyError
    | FileNotText        // TypeError from os.path.join
    | NotIterable        // TypeError from `for algorithm in algorithms`

  /** Reads 'bucket', 'file' and 'algorithms' in that order; the first absent key raises. */
  function ReadKeys(task: Json): (r: Result<DownloadTask, TaskError>)
    ensures r.Ok? <==> task.JObject? && Lookup(task.members, "bucket").Some?
                       && Lookup(task.members, "file").Some? && Lookup(task.members, "algorithms").Some?
    ensures r.Err? && task.JObject? ==> r.error.MissingKey?
    ensures r.Ok? ==> (r.value.file == Lookup(task.members, "file").value
                       && r.value.algorithms == Lookup(task.members, "algorithms").value)
  {
    match task
    case JObject(m) =>
      (match (Lookup(m, "bucket"), Lookup(m, "file"), Lookup(m, "algorithms"))
       case (None, _, _) => Err(MissingKey("bucket"))
       case (_, None, _) => Err(MissingKey("file"))
       case (_, _, None) => Err(MissingKey("algorithms"))
       case (Some(b), Some(f), Some(a)) => Ok(DownloadTask(b, f, a)))
    case _ => Err(NotSubscriptable)
  }

  /** The values `for x in v` visits: list items, the one-character strings of a
      string, the keys of a dict; anything else is not iterable. */
  function Iterate(v: Json): (r: Result<seq<Json>, TaskError>)
    ensures r.Ok? <==> v.JArray? || v.JString? || v.JObject?
    ensures v.JArray? ==> r == Ok(v.items)
    ensures v.JString? ==> r.Ok? && |r.value| == |v.s|
                           && forall i :: 0 <= i < |v.s| ==> r.value[i] == JString([v.s[i]])
    ensures v.JObject? ==> r.Ok? && |r.value| == |v.members|
                           && forall i :: 0 <= i < |v.members| ==> r.value[i] == JString(v.members[i].0)
  {
    match v
    case JArray(items) => Ok(items)
    case JString(s) => Ok(seq(|s|, i requires 0 <= i < |s| => JString([s[i]])))
    case JObject(m) => Ok(seq(|m|, i requires 0 <= i < |m| => JString(m[i].0)))
    case _ => Err(NotIterable)
  }

  /** One algorithm task per name, in list order, all for the same path. */
  function FanOut(path: string, names: seq<Json>): (ts: seq<AlgorithmTask>)
    ensures |ts| == |names|
    ensures forall i :: 0 <= i < |ts| ==> ts[i].file == path
  {
    seq(|names|, i requires 0 <= i < |names| => AlgorithmTask(path, names[i]))
  }

  /** The algorithm field of each task, in order. */
  function AlgorithmsOf(ts: seq<AlgorithmTask>): (names: seq<Json>)
    ensures |names| == |ts|
  {
    seq(|ts|, i requires 0 <= i < |ts| => ts[i].algorithm)
  }

  /** Fan-out loses nothing: reading the algorithm fields back gives the
      requested list, and every task names the one path. */
  lemma FanOutRoundTrip(path: string, names: seq<Json>)
    ensures AlgorithmsOf(FanOut(path, names)) == names
    ensures forall t :: t in FanOut(path, names) ==> t.file == path
  {
  }

  /** The outcome of handling one well-formed task. */
  datatype Handled = Handled(downloadPath: string, alreadyPresent: bool, dispatched: seq<AlgorithmTask>)

  /** The try-block of one loop iteration. `existing` is the set of paths
      present on disk; it only selects which message is printed, since the
      fetch from object storage is disabled in this version. */
  function HandleTask(dir: string, task: Json, existing: set<string>): (r: Result<Handled, TaskError>)
    ensures r.Ok? <==> ReadKeys(task).Ok? && ReadKeys(task).value.file.JString?
                       && Iterate(ReadKeys(task).value.algorithms).Ok?
    ensures r.Ok? ==>
      var path := PosixPath.Join(dir, ReadKeys(task).value.file.s);
      var names := Iterate(ReadKeys(task).value.algorithms).value;
      && r.value.downloadPath == path
      && r.value.alreadyPresent == (path in existing)
      && |r.value.dispatched| == |names|
      && forall i :: 0 <= i < |names| ==> r.value.dispatched[i] == AlgorithmTask(path, names[i])
  {
    match ReadKeys(task)
    case Err(e) => Err(e)
    case Ok(dt) =>
      if !dt.file.JString? then Err(FileNotText)
      else
        var path := PosixPath.Join(dir, dt.file.s);
        match Iterate(dt.algorithms)
        case Err(e) => Err(e)
        case Ok(names) => Ok(Handled(path, path in existing, FanOut(path, names)))
  }

  /** A task whose 'algorithms' is a list of k entries dispatches exactly k
      tasks carrying those entries in order; an empty list dispatches nothing. */
  lemma ListTaskDispatch(dir: string, bucket: Json, file: string, names: seq<Json>, existing: set<string>)
    ensures
      var task := JObject([("bucket", bucket), ("file", JString(file)), ("algorithms", JArray(names))]);
      var r := HandleTask(dir, task, existing);
      && r.Ok?
      && AlgorithmsOf(r.value.dispatched) == names
      && (forall t :: t in r.value.dispatched ==> t.file == PosixPath.Join(dir, file))
      && (names == [] ==> r.value.dispatched == [])
  {
    var task := JObject([("bucket", bucket), ("file", JString(file)), ("algorithms", JArray(names))]);
    assert task.members[1].0 == "file";
    assert task.members[2].0 == "algorithms";
    assert ReadKeys(task) == Ok(DownloadTask(bucket, JString(file), JArray(names)));
    FanOutRoundTrip(PosixPath.Join(dir, file), names);
  }

  /** What a message off the PULL socket turns out to be. */
  datatype Inbound = Undecodable | Decoded(task: Json)

  /** What one loop iteration leaves behind: a printed download/skip notice,
      a dispatched algorithm task, or an error-log entry naming a task. */
  datatype Event =
    | Announce(path: string, alreadyPresent: bool)
    | Dispatch(sent: AlgorithmTask)
    | ErrorLogged(task: Json)

  /** The events of a worker that has consumed `inbound`, and whether it died.
      `last` is the Python variable `task` from earlier iterations: when
      decoding fails the except-handler logs that stale value, and before the
      first successful decode reading it raises NameError, which ends the worker. */
  datatype WorkerRun = WorkerRun(events: seq<Event>, crashed: bool)

  /** The notice is printed once the three keys are read and the path is
      joined, which needs 'file' to be a string; iterating 'algorithms'
      comes after it. */
  predicate Announces(task: Json)
  {
    ReadKeys(task).Ok? && ReadKeys(task).value.file.JString?
  }

  /** The download path of a task that gets as far as the notice. */
  function DownloadPath(dir: string, task: Json): string
    requires Announces(task)
  {
    PosixPath.Join(dir, ReadKeys(task).value.file.s)
  }

  /** The events of one decoded task, in the order the loop body leaves them:
      the notice (when the path could be joined), then either the dispatches
      or, when 'algorithms' cannot be iterated, the error entry. */
  function StepEvents(dir: string, task: Json, existing: set<string>): seq<Event>
  {
    if !Announces(task) then [ErrorLogged(task)]
    else
      var path := DownloadPath(dir, task);
      var notice := Announce(path, path in existing);
      match Iterate(ReadKeys(task).value.algorithms)
      case Err(_) => [notice, ErrorLogged(task)]
      case Ok(names) => [notice] + DispatchEvents(FanOut(path, names))
  }

  function DispatchEvents(ts: seq<AlgorithmTask>): seq<Event>
  {
    seq(|ts|, i requires 0 <= i < |ts| => Dispatch(ts[i]))
  }

  /** Number of download/skip notices printed. */
  function Notices(events: seq<Event>): nat
  {
    if |events| == 0 then 0
    else (if events[0].Announce? then 1 else 0) + Notices(events[1..])
  }

  /** Number of error-log entries. */
  function Errors(events: seq<Event>): nat
  {
    if |events| == 0 then 0
    else (if events[0].ErrorLogged? then 1 else 0) + Errors(events[1..])
  }

  /** The algorithm tasks sent, in order. */
  function Dispatches(events: seq<Event>): seq<AlgorithmTask>
  {
    if |events| == 0 then []
    else (if events[0].Dispatch? then [events[0].sent] else []) + Dispatches(events[1..])
  }

  lemma {:induction false} DispatchesAppend(a: seq<Event>, b: seq<Event>)
    ensures Dispatches(a + b) == Dispatches(a) + Dispatches(b)
    ensures Notices(a + b) == Notices(a) + Notices(b)
    ensures Errors(a + b) == Errors(a) + Errors(b)
    decreases |a|
  {
    if |a| == 0 {
      assert a + b == b;
    } else {
      var ab := a + b;
      assert ab[0] == a[0];
      assert ab[1..] == a[1..] + b;
      DispatchesAppend(a[1..], b);
      var head := if a[0].Dispatch? then [a[0].sent] else [];
      assert Dispatches(ab) == head + Dispatches(a[1..] + b);
      assert Dispatches(a) == head + Dispatches(a[1..]);
      assert head + (Dispatches(a[1..]) + Dispatches(b)) == (head + Dispatches(a[1..])) + Dispatches(b);
    }
  }

  lemma {:induction false} DispatchEventsOnly(ts: seq<AlgorithmTask>)
    ensures Dispatches(DispatchEvents(ts)) == ts
    ensures Notices(DispatchEvents(ts)) == 0 && Errors(DispatchEvents(ts)) == 0
    decreases |ts|
  {
    if |ts| > 0 {
      DispatchEventsOnly(ts[1..]);
      assert DispatchEvents(ts)[1..] == DispatchEvents(ts[1..]);
      assert [ts[0]] + ts[1..] == ts;
    }
  }

  /** One decoded task prints a notice exactly when its keys are present and
      'file' is a string, leaves an error entry exactly when its handling
      raises, and dispatches only when it does not raise. */
  lemma StepEventsFacts(dir: string, task: Json, existing: set<string>)
    ensures Notices(StepEvents(dir, task, existing)) == (if Announces(task) then 1 else 0)
    ensures Errors(StepEvents(dir, task, existing)) == (if HandleTask(dir, task, existing).Err? then 1 else 0)
    ensures Dispatches(StepEvents(dir, task, existing)) == ExpectedFor(dir, task)
  {
    var ev := StepEvents(dir, task, existing);
    if !Announces(task) {
      assert ev == [ErrorLogged(task)];
      assert Dispatches([ErrorLogged(task)]) == [];
    } else {
      var dt := ReadKeys(task).value;
      var path := DownloadPath(dir, task);
      var head := [Announce(path, path in existing)];
      match Iterate(dt.algorithms)
      case Err(_) =>
        assert ev == head + [ErrorLogged(task)];
        DispatchesAppend(head, [ErrorLogged(task)]);
        assert Dispatches([ErrorLogged(task)]) == [];
      case Ok(names) =>
        var tail := DispatchEvents(FanOut(path, names));
        assert ev == head + tail;
        DispatchEventsOnly(FanOut(path, names));
        DispatchesAppend(head, tail);
    }
  }

  function RunWorker(dir: string, existing: set<string>, last: Option<Json>, inbound: seq<Inbound>): (w: WorkerRun)
    decreases |inbound|
  {
    if |inbound| == 0 then WorkerRun([], false)
    else match inbound[0]
      case Undecodable =>
        (match last
         case None => WorkerRun([], true)
         case Some(t) =>
           var rest := RunWorker(dir, existing, last, inbound[1..]);
           WorkerRun([ErrorLogged(t)] + rest.events, rest.crashed))
      case Decoded(t) =>
        var rest := RunWorker(dir, existing, Some(t), inbound[1..]);
        WorkerRun(StepEvents(dir, t, existing) + rest.events, rest.crashed)
  }

  /** The dispatches a task should cause, defined from the schema alone: no
      file system, no loop state. */
  function ExpectedFor(dir: string, task: Json): seq<AlgorithmTask>
  {
    match ReadKeys(task)
    case Err(_) => []
    case Ok(dt) =>
      if !dt.file.JString? then []
      else match Iterate(dt.algorithms)
        case Err(_) => []
        case Ok(names) => FanOut(PosixPath.Join(dir, dt.file.s), names)
  }

  function ExpectedDispatches(dir: string, inbound: seq<Inbound>): seq<AlgorithmTask>
  {
    if |inbound| == 0 then []
    else (if inbound[0].Decoded? then ExpectedFor(dir, inbound[0].task) else [])
         + ExpectedDispatches(dir, inbound[1..])
  }

  /** The notices a run should print: one per decoded task that gets as far as
      joining its path. */
  function ExpectedNotices(inbound: seq<Inbound>): nat
  {
    if |inbound| == 0 then 0
    else (if inbound[0].Decoded? && Announces(inbound[0].task) then 1 else 0) + ExpectedNotices(inbound[1..])
  }

  /** The error entries a run that does not die should leave: one per
      undecodable message and one per decoded task whose handling raises. */
  function ExpectedErrors(dir: string, existing: set<string>, inbound: seq<Inbound>): nat
  {
    if |inbound| == 0 then 0
    else (if inbound[0].Undecodable? || HandleTask(dir, inbound[0].task, existing).Err? then 1 else 0)
         + ExpectedErrors(dir, existing, inbound[1..])
  }

  /** The worker loop: it dies only on an undecodable FIRST message (nothing
      to log yet); otherwise it prints one notice per task whose path could
      be joined, logs one error per undecodable message or raising task, and
      sends the per-task fan-outs in arrival order, whatever files already
      exist. */
  lemma {:induction false} RunWorkerSpec(dir: string, existing: set<string>, last: Option<Json>, inbound: seq<Inbound>)
    ensures (RunWorker(dir, existing, last, inbound).crashed
             <==> last.None? && |inbound| > 0 && inbound[0].Undecodable?)
    ensures RunWorker(dir, existing, last, inbound).crashed ==> RunWorker(dir, existing, last, inbound).events == []
    ensures !RunWorker(dir, existing, last, inbound).crashed ==>
              && Notices(RunWorker(dir, existing, last, inbound).events) == ExpectedNotices(inbound)
              && Errors(RunWorker(dir, existing, last, inbound).events) == ExpectedErrors(dir, existing, inbound)
              && Dispatches(RunWorker(dir, existing, last, inbound).events) == ExpectedDispatches(dir, inbound)
    decreases |inbound|
  {
    if |inbound| > 0 {
      var w := RunWorker(dir, existing, last, inbound);
      match inbound[0]
      case Undecodable =>
        if last.Some? {
          RunWorkerSpec(dir, existing, last, inbound[1..]);
          var rest := RunWorker(dir, existing, last, inbound[1..]);
          DispatchesAppend([ErrorLogged(last.value)], rest.events);
        }
      case Decoded(t) =>
        RunWorkerSpec(dir, existing, Some(t), inbound[1..]);
        var rest := RunWorker(dir, existing, Some(t), inbound[1..]);
        StepEventsFacts(dir, t, existing);
        DispatchesAppend(StepEvents(dir, t, existing), rest.events);
    }
  }

  /** The events of a task whose handling raises: its notice, when the path
      could be joined, then its error entry. */
  lemma MalformedStepEvents(dir: string, task: Json, existing: set<string>)
    requires HandleTask(dir, task, existing).Err?
    ensures StepEvents(dir, task, existing)
            == (if Announces(task) then [Announce(DownloadPath(dir, task), DownloadPath(dir, task) in existing)] else [])
               + [ErrorLogged(task)]
  {
    if Announces(task) {
      assert Iterate(ReadKeys(task).value.algorithms).Err?;
    }
  }

  /** A malformed task sends nothing: it leaves its notice when the path could
      be joined, then its error entry, and the loop carries on with the next
      message. */
  lemma MalformedTaskDispatchesNothing(dir: string, task: Json, existing: set<string>, rest: seq<Inbound>)
    requires HandleTask(dir, task, existing).Err?
    ensures
      var w := RunWorker(dir, existing, None, [Decoded(task)] + rest);
      var after := RunWorker(dir, existing, Some(task), rest);
      var notice := if Announces(task)
                     then [Announce(DownloadPath(dir, task), DownloadPath(dir, task) in existing)] else [];
      w.events == notice + [ErrorLogged(task)] + after.events && w.crashed == after.crashed
  {
    assert ([Decoded(task)] + rest)[1..] == rest;
    MalformedStepEvents(dir, task, existing);
  }

  /** `download_worker()` as started: the directory is read once from the
      environment at import, and no message has been decoded yet. */
  function DownloadWorkerLoop(env: map<string, string>, existing: set<string>, inbound: seq<Inbound>): WorkerRun
  {
    RunWorker(SharedDownloadDir(env), existing, None, inbound)
  }

  /** Every task the schema expects for one message names its download path. */
  lemma ExpectedForPaths(dir: string, task: Json)
    ensures forall t :: t in ExpectedFor(dir, task) ==> Announces(task) && t.file == DownloadPath(dir, task)
  {
    if Announces(task) && Iterate(ReadKeys(task).value.algorithms).Ok? {
      FanOutRoundTrip(DownloadPath(dir, task), Iterate(ReadKeys(task).value.algorithms).value);
    }
  }

  /** `t` names the download path of some decoded message of `inbound`. */
  predicate PathReceived(dir: string, inbound: seq<Inbound>, t: AlgorithmTask)
  {
    exists i :: 0 <= i < |inbound| && inbound[i].Decoded? && Announces(inbound[i].task)
                && t.file == DownloadPath(dir, inbound[i].task)
  }

  /** Every task the schema expects from `inbound` names the join of `dir`
      and the 'file' of some decoded message. */
  lemma {:induction false} ExpectedDispatchesPaths(dir: string, inbound: seq<Inbound>)
    ensures forall t :: t in ExpectedDispatches(dir, inbound) ==> PathReceived(dir, inbound, t)
    decreases |inbound|
  {
    if |inbound| > 0 {
      var tail := ExpectedDispatches(dir, inbound[1..]);
      ExpectedDispatchesPaths(dir, inbound[1..]);
      if inbound[0].Decoded? {
        ExpectedForPaths(dir, inbound[0].task);
      }
      forall t | t in ExpectedDispatches(dir, inbound) ensures PathReceived(dir, inbound, t) {
        if t in tail {
          assert PathReceived(dir, inbound[1..], t);
          var i :| 0 <= i < |inbound[1..]| && inbound[1..][i].Decoded? && Announces(inbound[1..][i].task)
                   && t.file == DownloadPath(dir, inbound[1..][i].task);
          assert inbound[i + 1] == inbound[1..][i];
        } else {
          assert t in ExpectedFor(dir, inbound[0].task);
        }
      }
    }
  }

  /** The worker as started sends exactly the tasks the schema expects for
      the directory read from the environment, unless it dies on its first
      message; every path it sends is `join(dir, file)` for the 'file' of a
      received task, under `SHARED_DOWNLOAD_DIR` when the variable is set
      and under `/tmp/shared_audio_files` when it is not. */
  lemma WorkerDispatchPaths(env: map<string, string>, existing: set<string>, inbound: seq<Inbound>)
    ensures !DownloadWorkerLoop(env, existing, inbound).crashed ==>
      Dispatches(DownloadWorkerLoop(env, existing, inbound).events) == ExpectedDispatches(SharedDownloadDir(env), inbound)
    ensures SharedDirVariable !in env ==>
      forall t :: t in Dispatches(DownloadWorkerLoop(env, existing, inbound).events) ==>
        exists i :: 0 <= i < |inbound| && inbound[i].Decoded? && Announces(inbound[i].task)
                    && t.file == PosixPath.Join(DefaultSharedDir, ReadKeys(inbound[i].task).value.file.s)
    ensures SharedDirVariable in env ==>
      forall t :: t in Dispatches(DownloadWorkerLoop(env, existing, inbound).events) ==>
        exists i :: 0 <= i < |inbound| && inbound[i].Decoded? && Announces(inbound[i].task)
                    && t.file == PosixPath.Join(env[SharedDirVariable], ReadKeys(inbound[i].task).value.file.s)
  {
    var dir := SharedDownloadDir(env);
    RunWorkerSpec(dir, existing, None, inbound);
    ExpectedDispatchesPaths(dir, inbound);
    assert forall t :: t in Dispatches(DownloadWorkerLoop(env, existing, inbound).events) ==> PathReceived(dir, inbound, t);
    assert DownloadWorkerLoop(env, existing, inbound).crashed ==> Dispatches(DownloadWorkerLoop(env, existing, inbound).events) == [];
  }
}
