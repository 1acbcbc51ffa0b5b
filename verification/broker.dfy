/** The two ROUTER-to-DEALER relays: the download router (intake 5557,
    distribution 5558) and the algorithm router (intake 5559, distribution
    5560). Both share one shape; they differ only in their ports and in the
    log level of the startup abort. Port probes and socket operations are
    inputs: the set of ports found in use, which bind (if any) fails, and the
    stream of results of successive `recv_multipart` calls. */
module Broker {
  import opened Wrappers

  newtype byte = x: int | 0 <= x < 256

  /** One frame of a multipart message, and a whole message (routing identity
      frame followed by payload frames). The relay never looks inside. */
  type Frame = seq<byte>
  type Message = seq<Frame>

  datatype Level = Info | Error

  datatype Config = Config(intake: nat, distribution: nat, abortLevel: Level)

  const DownloadRouter: Config := Config(5557, 5558, Error)
  const AlgorithmRouter: Config := Config(5559, 5560, Info)

  datatype Socket = Frontend | Backend

  /** The exception that leaves the relay loop. */
  datatype Failure = ZmqError | OtherException

  datatype Receive = Received(msg: Message) | Raised(failure: Failure)

  datatype Startup = Aborted(port: nat, level: Level) | Proceed

  /** The two `check_port_in_use` probes: intake first, distribution only when
      intake is free. Returns the ports probed, in order, and the verdict. */
  function CheckPorts(cfg: Config, inUse: set<nat>): (r: (seq<nat>, Startup))
    ensures r.1.Aborted? <==> cfg.intake in inUse || cfg.distribution in inUse
    ensures r.1.Aborted? ==> r.1.level == cfg.abortLevel
    ensures cfg.intake in inUse ==> r.0 == [cfg.intake] && r.1.port == cfg.intake
    ensures cfg.intake !in inUse ==> r.0 == [cfg.intake, cfg.distribution]
    ensures cfg.intake !in inUse && cfg.distribution in inUse ==> r.1.port == cfg.distribution
  {
    if cfg.intake in inUse then ([cfg.intake], Aborted(cfg.intake, cfg.abortLevel))
    else if cfg.distribution in inUse then ([cfg.intake, cfg.distribution], Aborted(cfg.distribution, cfg.abortLevel))
    else ([cfg.intake, cfg.distribution], Proceed)
  }

  /** The receive-and-forward loop: every message received is sent on, as is,
      until the first exception. */
  function Relay(stream: seq<Receive>): (r: (seq<Message>, Option<Failure>))
    ensures |r.0| <= |stream|
    ensures forall j :: 0 <= j < |r.0| ==> stream[j] == Received(r.0[j])
    ensures |r.0| < |stream| ==> stream[|r.0|].Raised? && r.1 == Some(stream[|r.0|].failure)
    ensures |r.0| == |stream| ==> r.1 == None
    decreases |stream|
  {
    if |stream| == 0 then ([], None)
    else match stream[0]
      case Raised(f) => ([], Some(f))
      case Received(m) =>
        var rest := Relay(stream[1..]);
        ([m] + rest.0, rest.1)
  }

  /** How a router process ends up.
      - `AbortedAtStartup`: a probe found a port in use; nothing was bound.
      - `Relaying`: still blocked in `recv_multipart`, having forwarded `forwarded`.
      - `ShutDown`: an exception left the try-block; the finally-block closed
        `closed` in order and terminated the context if `terminated`. When the
        frontend bind failed, `backend` was never assigned, so closing it raises
        and the context is not terminated (`cleanupRaised`). */
  datatype RouterRun =
    | AbortedAtStartup(probed: seq<nat>, port: nat, level: Level)
    | Relaying(probed: seq<nat>, forwarded: seq<Message>)
    | ShutDown(probed: seq<nat>, forwarded: seq<Message>, failure: Failure,
               closed: seq<Socket>, terminated: bool, cleanupRaised: bool)

  function RunRouter(cfg: Config, inUse: set<nat>, bindFailure: Option<Socket>, stream: seq<Receive>): RouterRun
  {
    var (probed, startup) := CheckPorts(cfg, inUse);
    match startup
    case Aborted(port, level) => AbortedAtStartup(probed, port, level)
    case Proceed =>
      match bindFailure
      case Some(Frontend) => ShutDown(probed, [], ZmqError, [Frontend], false, true)
      case Some(Backend) => ShutDown(probed, [], ZmqError, [Frontend, Backend], true, false)
      case None =>
        var (forwarded, stop) := Relay(stream);
        match stop
        case None => Relaying(probed, forwarded)
        case Some(f) => ShutDown(probed, forwarded, f, [Frontend, Backend], true, false)
  }

  /** Messages of a failure-free stream. */
  function Messages(stream: seq<Receive>): seq<Message>
    requires forall j :: 0 <= j < |stream| ==> stream[j].Received?
  {
    seq(|stream|, j requires 0 <= j < |stream| => stream[j].msg)
  }

  /** The relay is an identity on message streams: N messages in, the same N
      byte-identical messages out, in order. */
  lemma {:induction false} RelayIdentity(ms: seq<Message>)
    ensures Relay(seq(|ms|, j requires 0 <= j < |ms| => Received(ms[j]))) == (ms, None)
  {
    var stream := seq(|ms|, j requires 0 <= j < |ms| => Received(ms[j]));
    var r := Relay(stream);
    assert r.0 == ms;
  }

  /** The facts common to both routers, for any ports and level. */
  lemma RouterFacts(cfg: Config, inUse: set<nat>, bindFailure: Option<Socket>, stream: seq<Receive>)
    ensures
      var run := RunRouter(cfg, inUse, bindFailure, stream);
      && (run.AbortedAtStartup? <==> cfg.intake in inUse || cfg.distribution in inUse)
      && (run.AbortedAtStartup? ==> run.level == cfg.abortLevel)
      && (cfg.intake in inUse ==> run.probed == [cfg.intake])
      && (!run.AbortedAtStartup? ==> run.probed == [cfg.intake, cfg.distribution])
      && (!run.AbortedAtStartup? ==>
            && |run.forwarded| <= |stream|
            && (forall j :: 0 <= j < |run.forwarded| ==> stream[j] == Received(run.forwarded[j])))
      && (run.ShutDown? && bindFailure != Some(Frontend) ==>
            run.closed == [Frontend, Backend] && run.terminated && !run.cleanupRaised)
      && (run.Relaying? ==> bindFailure.None? && run.forwarded == Messages(stream))
  {
  }

  /** Download router: 5557 in use aborts at error level before 5558 is
      probed; 5558 in use aborts likewise; otherwise every message received
      before the first exception is forwarded unchanged and in order, and the
      exception leads to both sockets being closed and the context terminated. */
  lemma DownloadRouterRun(inUse: set<nat>, stream: seq<Receive>)
    ensures
      var run := RunRouter(DownloadRouter, inUse, None, stream);
      && (5557 in inUse ==> run == AbortedAtStartup([5557], 5557, Error))
      && (5557 !in inUse && 5558 in inUse ==> run == AbortedAtStartup([5557, 5558], 5558, Error))
      && (5557 !in inUse && 5558 !in inUse ==>
            && run.probed == [5557, 5558]
            && |run.forwarded| <= |stream|
            && (forall j :: 0 <= j < |run.forwarded| ==> stream[j] == Received(run.forwarded[j]))
            && (run.ShutDown? <==> exists j :: 0 <= j < |stream| && stream[j].Raised?)
            && (run.ShutDown? ==> stream[|run.forwarded|] == Raised(run.failure)
                                   && run.closed == [Frontend, Backend] && run.terminated))
  {
    var run := RunRouter(DownloadRouter, inUse, None, stream);
    if 5557 !in inUse && 5558 !in inUse {
      var r := Relay(stream);
      if exists j :: 0 <= j < |stream| && stream[j].Raised? {
        var j :| 0 <= j < |stream| && stream[j].Raised?;
        assert |r.0| <= j;
      }
    }
  }

  /** Algorithm router: the same relay on 5559/5560, but a port found in use
      is logged at info level, not error level. */
  lemma AlgorithmRouterRun(inUse: set<nat>, stream: seq<Receive>)
    ensures
      var run := RunRouter(AlgorithmRouter, inUse, None, stream);
      && (5559 in inUse ==> run == AbortedAtStartup([5559], 5559, Info))
      && (5559 !in inUse && 5560 in inUse ==> run == AbortedAtStartup([5559, 5560], 5560, Info))
      && (5559 !in inUse && 5560 !in inUse ==>
            && run.probed == [5559, 5560]
            && |run.forwarded| <= |stream|
            && (forall j :: 0 <= j < |run.forwarded| ==> stream[j] == Received(run.forwarded[j]))
            && (run.ShutDown? <==> exists j :: 0 <= j < |stream| && stream[j].Raised?)
            && (run.ShutDown? ==> stream[|run.forwarded|] == Raised(run.failure)
                                   && run.closed == [Frontend, Backend] && run.terminated))
  {
    var run := RunRouter(AlgorithmRouter, inUse, None, stream);
    if 5559 !in inUse && 5560 !in inUse {
      var r := Relay(stream);
      if exists j :: 0 <= j < |stream| && stream[j].Raised? {
        var j :| 0 <= j < |stream| && stream[j].Raised?;
        assert |r.0| <= j;
      }
    }
  }

  /** A failed frontend bind leaves `backend` unassigned: the finally-block
      closes the frontend, then raises on the backend, so the context is
      never terminated. A failed backend bind cleans up fully. */
  lemma BindFailureCleanup(cfg: Config, inUse: set<nat>, stream: seq<Receive>)
    requires cfg.intake !in inUse && cfg.distribution !in inUse
    ensures RunRouter(cfg, inUse, Some(Frontend), stream).closed == [Frontend]
    ensures !RunRouter(cfg, inUse, Some(Frontend), stream).terminated
    ensures RunRouter(cfg, inUse, Some(Frontend), stream).cleanupRaised
    ensures RunRouter(cfg, inUse, Some(Backend), stream).closed == [Frontend, Backend]
    ensures RunRouter(cfg, inUse, Some(Backend), stream).terminated
    ensures RunRouter(cfg, inUse, Some(Backend), stream).forwarded == []
  {
  }
}
