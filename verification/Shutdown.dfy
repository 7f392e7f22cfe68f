/** Graceful shutdown: HTTP is drained first, then billing and background work, and only after all of
    it succeeded are the shared resources closed. */
module Shutdown {
  /** Limits in the clock's unit. */
  datatype Config = Config(httpGrace: nat, httpForce: nat, workTimeout: nat, resourceTimeout: nat)

  /** How a call ends: without error, at its deadline, because the server is closed already, or with
      another error. */
  datatype Outcome = Fine | TimedOut | AlreadyClosed | Failed

  /** A call of a hook: how it ends and how long it takes. */
  datatype Call = Call(outcome: Outcome, took: nat)

  datatype Pprof = Absent | Present(shutdown: Call, closeFails: bool)

  /** How every call would go, if it is made. */
  datatype Env = Env(
    server: Call, idle: Call, serverClose: Outcome, forcedIdle: Call, pprof: Pprof,
    billing: Outcome, steps: seq<Call>, resources: Call)

  datatype WorkStep =
    BillingProducers | BillingRoots | BatchFlush | BillingChildren | DumpCleaner | SensitiveAudit | Background

  const ORDER: seq<WorkStep> := [
    BillingProducers, BillingRoots, BatchFlush, BillingChildren, DumpCleaner, SensitiveAudit, Background]

  datatype Event =
    | BeginHttpDrain | ServerShutdown | WaitIdle | CancelLongLived | ServerClose | ForcedWaitIdle
    | BeginBillingDrain | Step(step: WorkStep) | CloseResources

  datatype Failure =
    | ServerFailed | IdleFailed | ServerCloseFailed | DrainIncomplete | PprofFailed
    | BillingFailed | StepFailed(step: WorkStep) | WorkTimedOut | ResourcesFailed | ResourcesTimedOut

  predicate ValidEnv(env: Env) {
    |env.steps| == |ORDER|
  }

  function Max(a: nat, b: nat): nat {
    if a < b then b else a
  }

  // ----- what a run should do -----

  /** The server and the first wait both ended without any error. */
  predicate DrainedGracefully(env: Env) {
    env.server.outcome == Fine && env.idle.outcome == Fine
  }

  /** The last wait for idle succeeded. */
  predicate HttpIdle(env: Env) {
    DrainedGracefully(env) || env.forcedIdle.outcome == Fine
  }

  function HttpTrace(env: Env): seq<Event> {
    [BeginHttpDrain, ServerShutdown, WaitIdle]
    + (if DrainedGracefully(env) then [] else [CancelLongLived, ServerClose, ForcedWaitIdle])
  }

  function StepTrace(n: nat): seq<Event>
    requires n <= |ORDER|
  {
    seq(n, i requires 0 <= i < n => Step(ORDER[i]))
  }

  /** The time taken by the first `n` work steps. */
  function StepsTook(env: Env, n: nat): nat
    requires ValidEnv(env) && n <= |ORDER|
  {
    if n == 0 then 0 else StepsTook(env, n - 1) + env.steps[n - 1].took
  }

  predicate AllStepsFine(env: Env)
    requires ValidEnv(env)
  {
    forall i :: 0 <= i < |ORDER| ==> env.steps[i].outcome == Fine
  }

  /** The work stage was entered, and every step succeeded before the deadline. */
  predicate WorkDrained(cfg: Config, env: Env)
    requires ValidEnv(env)
  {
    && HttpIdle(env) && env.billing == Fine
    && AllStepsFine(env) && StepsTook(env, |ORDER|) < cfg.workTimeout
  }

  /** The calls of a run, in order. */
  function Trace(cfg: Config, env: Env): seq<Event>
    requires ValidEnv(env)
  {
    HttpTrace(env)
    + (if HttpIdle(env) then [BeginBillingDrain] else [])
    + (if HttpIdle(env) && env.billing == Fine then StepTrace(|ORDER|) else [])
    + (if WorkDrained(cfg, env) then [CloseResources] else [])
  }

  // ----- what the calls of a run guarantee -----

  /** The resources are closed only if the last wait for idle succeeded, the billing drain began, and
      every step succeeded before the deadline; and then all of it happened before, each step once and
      in order. */
  lemma ResourcesCloseLast(cfg: Config, env: Env, at: nat)
    requires ValidEnv(env) && at < |Trace(cfg, env)| && Trace(cfg, env)[at] == CloseResources
    ensures WorkDrained(cfg, env)
    ensures at == |Trace(cfg, env)| - 1
    ensures Trace(cfg, env)[..at] == HttpTrace(env) + [BeginBillingDrain] + StepTrace(|ORDER|)
  {
    hide WorkDrained, HttpIdle;
    var before := HttpTrace(env)
                  + (if HttpIdle(env) then [BeginBillingDrain] else [])
                  + (if HttpIdle(env) && env.billing == Fine then StepTrace(|ORDER|) else []);
    assert CloseResources !in before;
    assert Trace(cfg, env) == before + (if WorkDrained(cfg, env) then [CloseResources] else []);
    assert at >= |before|;
    WorkDrainedMeans(cfg, env);
  }

  lemma WorkDrainedMeans(cfg: Config, env: Env)
    requires ValidEnv(env)
    ensures WorkDrained(cfg, env) ==> HttpIdle(env) && env.billing == Fine
  {
  }

  /** Once the work stage is entered, every step is attempted, in order and whatever earlier ones
      returned; a step is attempted only if the HTTP drain and the billing drain succeeded. */
  lemma EveryStepIsAttempted(cfg: Config, env: Env, i: nat)
    requires ValidEnv(env) && i < |ORDER|
    ensures Step(ORDER[i]) in Trace(cfg, env) <==> HttpIdle(env) && env.billing == Fine
    ensures HttpIdle(env) && env.billing == Fine ==>
              |Trace(cfg, env)| > |HttpTrace(env)| + 1 + i &&
                Trace(cfg, env)[|HttpTrace(env)| + 1 + i] == Step(ORDER[i])
  {
    if HttpIdle(env) && env.billing == Fine {
      assert Trace(cfg, env)[|HttpTrace(env)| + 1 + i] == StepTrace(|ORDER|)[i];
    }
  }

  /** What every list of calls guarantees. */
  lemma TraceGuarantees(cfg: Config, env: Env)
    requires ValidEnv(env)
    ensures ClosesLast(Trace(cfg, env), cfg, env)
    ensures BeginBillingDrain in Trace(cfg, env) <==> HttpIdle(env)
    ensures forall step :: Step(step) in Trace(cfg, env) <==> HttpIdle(env) && env.billing == Fine
  {
    forall at | 0 <= at < |Trace(cfg, env)| && Trace(cfg, env)[at] == CloseResources
      ensures WorkDrained(cfg, env) && at == |Trace(cfg, env)| - 1
      ensures Trace(cfg, env)[..at] == HttpTrace(env) + [BeginBillingDrain] + StepTrace(|ORDER|)
    {
      ResourcesCloseLast(cfg, env, at);
    }
    forall step
      ensures Step(step) in Trace(cfg, env) <==> HttpIdle(env) && env.billing == Fine
    {
      EveryStepIsAttempted(cfg, env, OrderOf(step));
    }
  }

  lemma ClosesWhenDrained(cfg: Config, env: Env)
    requires ValidEnv(env)
    ensures WorkDrained(cfg, env) ==> CloseResources in Trace(cfg, env)
    ensures CloseResources in Trace(cfg, env) ==> WorkDrained(cfg, env)
  {
    if CloseResources in Trace(cfg, env) {
      var at :| 0 <= at < |Trace(cfg, env)| && Trace(cfg, env)[at] == CloseResources;
      ResourcesCloseLast(cfg, env, at);
    }
  }

  function OrderOf(step: WorkStep): (i: nat)
    ensures i < |ORDER| && ORDER[i] == step
  {
    match step
    case BillingProducers => 0
    case BillingRoots => 1
    case BatchFlush => 2
    case BillingChildren => 3
    case DumpCleaner => 4
    case SensitiveAudit => 5
    case Background => 6
  }

  /** Closing the resources is the last call, made only after the last wait for idle succeeded, the
      billing drain began and all steps succeeded before the deadline, and everything else happened
      before, each step once and in order. */
  ghost predicate ClosesLast(trace: seq<Event>, cfg: Config, env: Env)
    requires ValidEnv(env)
  {
    forall at :: 0 <= at < |trace| && trace[at] == CloseResources ==>
      && WorkDrained(cfg, env) && at == |trace| - 1
      && trace[..at] == HttpTrace(env) + [BeginBillingDrain] + StepTrace(|ORDER|)
  }

  // ----- the code -----

  predicate PprofClosesFine(p: Pprof, wait: bool, sinceStart: nat) {
    match p
    case Absent => true
    case Present(shutdown, closeFails) =>
      if !wait && sinceStart < shutdown.took then !closeFails
      else
        match shutdown.outcome
        case Fine => true
        case AlreadyClosed => true
        case TimedOut => !closeFails
        case Failed => false
  }

  method FinishPprofShutdown(p: Pprof, wait: bool, sinceStart: nat) returns (failures: seq<Failure>, waited: nat)
    ensures failures == if PprofClosesFine(p, wait, sinceStart) then [] else [PprofFailed]
    ensures failures != [] <==>
              && p.Present?
              && if !wait && p.shutdown.took > sinceStart then p.closeFails
                 else p.shutdown.outcome == Failed || (p.shutdown.outcome == TimedOut && p.closeFails)
    ensures wait && p.Present? ==>
              waited == if p.shutdown.took > sinceStart then p.shutdown.took else sinceStart
    ensures !(wait && p.Present?) ==> waited == sinceStart
  {
    waited := sinceStart;
    if p.Absent? {
      return [], waited;
    }
    if !wait && sinceStart < p.shutdown.took {
      return if p.closeFails then [PprofFailed] else [], waited;
    }
    waited := Max(sinceStart, p.shutdown.took);
    match p.shutdown.outcome {
      case Fine => return [], waited;
      case AlreadyClosed => return [], waited;
      case TimedOut => return if p.closeFails then [PprofFailed] else [], waited;
      case Failed => return [PprofFailed], waited;
    }
  }

  /** A drained server leaves no error behind. */
  predicate HttpClean(env: Env) {
    if DrainedGracefully(env) then
      PprofClosesFine(env.pprof, true, env.server.took + env.idle.took)
    else
      && env.server.outcome != Failed && env.idle.outcome in {Fine, TimedOut}
      && env.serverClose in {Fine, AlreadyClosed}
      && env.forcedIdle.outcome == Fine
      && PprofClosesFine(env.pprof, false, env.server.took + env.idle.took + env.forcedIdle.took)
  }

  method DrainHttp(cfg: Config, env: Env) returns (trace: seq<Event>, failures: seq<Failure>, now: nat)
    ensures trace == HttpTrace(env)
    ensures failures == [] <==> HttpClean(env)
    ensures var drained := env.server.outcome == Fine && env.idle.outcome == Fine;
            && trace == [BeginHttpDrain, ServerShutdown, WaitIdle]
                        + (if drained then [] else [CancelLongLived, ServerClose, ForcedWaitIdle])
            && (DrainIncomplete in failures <==> !drained && env.forcedIdle.outcome != Fine)
            && (ServerFailed in failures <==> env.server.outcome == Failed)
            && (IdleFailed in failures <==> !drained && env.idle.outcome in {AlreadyClosed, Failed})
            && (ServerCloseFailed in failures <==> !drained && env.serverClose in {TimedOut, Failed})
            && (PprofFailed in failures <==>
                  && env.pprof.Present?
                  && var call := env.pprof.shutdown;
                     if drained || call.took <= env.server.took + env.idle.took + env.forcedIdle.took then
                       call.outcome == Failed || (call.outcome == TimedOut && env.pprof.closeFails)
                     else
                       env.pprof.closeFails)
            && (forall f :: f in failures ==>
                  f in {DrainIncomplete, ServerFailed, IdleFailed, ServerCloseFailed, PprofFailed})
    ensures HttpPrompt(cfg, env) ==> now <= cfg.httpGrace + cfg.httpForce
  {
    hide PprofClosesFine;
    trace, failures := [BeginHttpDrain], [];
    trace := trace + [ServerShutdown];
    now := env.server.took;
    trace := trace + [WaitIdle];
    now := now + env.idle.took;
    if env.server.outcome == Fine && env.idle.outcome == Fine {
      var more, waited := FinishPprofShutdown(env.pprof, true, now);
      return trace, more, waited;
    }
    if env.server.outcome == Failed {
      failures := failures + [ServerFailed];
    }
    if env.idle.outcome != Fine && env.idle.outcome != TimedOut {
      failures := failures + [IdleFailed];
    }
    trace := trace + [CancelLongLived];
    trace := trace + [ServerClose];
    if env.serverClose != Fine && env.serverClose != AlreadyClosed {
      failures := failures + [ServerCloseFailed];
    }
    trace := trace + [ForcedWaitIdle];
    now := now + env.forcedIdle.took;
    if env.forcedIdle.outcome != Fine {
      failures := failures + [DrainIncomplete];
    }
    var more, waited := FinishPprofShutdown(env.pprof, false, now);
    failures := failures + more;
    now := waited;
  }

  /** A call that heeds its deadline: it ends by then, or at once if it starts later. */
  predicate EndsBy(start: nat, took: nat, deadline: nat) {
    start + took <= Max(start, deadline)
  }

  /** The HTTP calls heed their deadlines. */
  predicate HttpPrompt(cfg: Config, env: Env) {
    && EndsBy(0, env.server.took, cfg.httpGrace)
    && EndsBy(env.server.took, env.idle.took, cfg.httpGrace)
    && env.forcedIdle.took <= cfg.httpForce
    && (env.pprof.Present? ==> env.pprof.shutdown.took <= cfg.httpGrace)
  }

  /** The work steps heed the common deadline. */
  predicate WorkPrompt(cfg: Config, env: Env)
    requires ValidEnv(env)
  {
    forall i :: 0 <= i < |ORDER| ==> EndsBy(StepsTook(env, i), env.steps[i].took, cfg.workTimeout)
  }

  lemma StepTraceStep(i: nat)
    requires i < |ORDER|
    ensures StepTrace(0) == [] && StepTrace(i + 1) == StepTrace(i) + [Step(ORDER[i])]
  {
  }

  predicate Clean(cfg: Config, env: Env)
    requires ValidEnv(env)
  {
    && HttpClean(env) && WorkDrained(cfg, env)
    && env.resources.outcome == Fine && env.resources.took <= cfg.resourceTimeout
  }

  function UpperBound(cfg: Config): nat {
    cfg.httpGrace + cfg.httpForce + cfg.workTimeout + cfg.resourceTimeout
  }

  /** The billing drain and the work steps. */
  method DrainWork(cfg: Config, env: Env, started: nat)
      returns (trace: seq<Event>, failures: seq<Failure>, now: nat)
    requires ValidEnv(env)
    ensures trace == [BeginBillingDrain] + (if env.billing == Fine then StepTrace(|ORDER|) else [])
    ensures failures == [] <==>
              env.billing == Fine && AllStepsFine(env) && StepsTook(env, |ORDER|) < cfg.workTimeout
    ensures BillingFailed in failures <==> env.billing != Fine
    ensures forall step :: StepFailed(step) in failures <==>
              env.billing == Fine && env.steps[OrderOf(step)].outcome != Fine
    ensures WorkTimedOut in failures <==> env.billing == Fine && StepsTook(env, |ORDER|) >= cfg.workTimeout
    ensures forall f :: f in failures ==> f.BillingFailed? || f.StepFailed? || f.WorkTimedOut?
    ensures now == started + if env.billing == Fine then StepsTook(env, |ORDER|) else 0
    ensures WorkPrompt(cfg, env) ==> now <= started + cfg.workTimeout
  {
    hide StepTrace;
    trace, failures, now := [BeginBillingDrain], [], started;
    StepTraceStep(0);
    if env.billing != Fine {
      return trace, failures + [BillingFailed], now;
    }
    for i := 0 to |ORDER|
      invariant trace == [BeginBillingDrain] + StepTrace(i)
      invariant now == started + StepsTook(env, i)
      invariant failures == [] <==> forall j :: 0 <= j < i ==> env.steps[j].outcome == Fine
      invariant forall f :: f in failures ==> f.StepFailed?
      invariant forall step :: StepFailed(step) in failures <==>
                  OrderOf(step) < i && env.steps[OrderOf(step)].outcome != Fine
      invariant WorkPrompt(cfg, env) ==> StepsTook(env, i) <= cfg.workTimeout
    {
      OrderIsUnique(i);
      trace := trace + [Step(ORDER[i])];
      StepTraceStep(i);
      assert trace == [BeginBillingDrain] + StepTrace(i + 1);
      now := now + env.steps[i].took;
      if env.steps[i].outcome != Fine {
        failures := failures + [StepFailed(ORDER[i])];
      }
    }
    if now - started >= cfg.workTimeout {
      failures := failures + [WorkTimedOut];
    }
  }

  lemma OrderIsUnique(i: nat)
    requires i < |ORDER|
    ensures forall step :: OrderOf(step) == i <==> step == ORDER[i]
  {
  }

  /** Closing the shared resources within their own limit. */
  method ReleaseResources(cfg: Config, env: Env, started: nat) returns (failures: seq<Failure>, now: nat)
    ensures failures == if env.resources.took > cfg.resourceTimeout then [ResourcesTimedOut]
                        else if env.resources.outcome != Fine then [ResourcesFailed]
                        else []
    ensures now <= started + cfg.resourceTimeout
    ensures env.resources.took <= cfg.resourceTimeout ==> now == started + env.resources.took
  {
    failures, now := [], started;
    if env.resources.took <= cfg.resourceTimeout {
      now := now + env.resources.took;
      if env.resources.outcome != Fine {
        failures := failures + [ResourcesFailed];
      }
    } else {
      now := now + cfg.resourceTimeout;
      failures := failures + [ResourcesTimedOut];
    }
  }

  /** A run makes exactly the specified calls, so it closes the resources last and only after a complete
      drain, stops no work before HTTP is idle, and attempts every step once the work stage is entered,
      whatever earlier steps returned. It reports no failure exactly if everything went well, and ends
      within the sum of its limits if the calls heed their deadlines. */
  method RunGracefulShutdown(cfg: Config, env: Env)
      returns (trace: seq<Event>, failures: seq<Failure>, finished: nat)
    requires ValidEnv(env)
    ensures trace == Trace(cfg, env)
    ensures CloseResources in trace <==> WorkDrained(cfg, env)
    ensures ClosesLast(trace, cfg, env)
    ensures BeginBillingDrain in trace <==> HttpIdle(env)
    ensures forall step :: Step(step) in trace <==> HttpIdle(env) && env.billing == Fine
    ensures var drained := env.server.outcome == Fine && env.idle.outcome == Fine;
            var entered := (drained || env.forcedIdle.outcome == Fine) && env.billing == Fine;
            var inTime := StepsTook(env, |ORDER|) < cfg.workTimeout;
            && [BeginHttpDrain, ServerShutdown, WaitIdle]
               + (if drained then [] else [CancelLongLived, ServerClose, ForcedWaitIdle]) <= trace
            && (CloseResources in trace <==>
                  entered && inTime && forall i :: 0 <= i < |env.steps| ==> env.steps[i].outcome == Fine)
            && (WorkTimedOut in failures <==> entered && !inTime)
            && (forall step :: StepFailed(step) in failures <==>
                                 entered && env.steps[OrderOf(step)].outcome != Fine)
            && (ResourcesTimedOut in failures <==>
                  CloseResources in trace && env.resources.took > cfg.resourceTimeout)
            && (ResourcesFailed in failures <==>
                  CloseResources in trace && env.resources.took <= cfg.resourceTimeout
                  && env.resources.outcome != Fine)
    ensures failures == [] <==> Clean(cfg, env)
    ensures HttpPrompt(cfg, env) && WorkPrompt(cfg, env) ==> finished <= UpperBound(cfg)
  {
    hide HttpTrace, HttpClean, HttpPrompt, StepTrace, ClosesLast, StepsTook, WorkPrompt, OrderOf;
    TraceGuarantees(cfg, env);
    ClosesWhenDrained(cfg, env);
    trace, failures, finished := DrainHttp(cfg, env);
    if DrainIncomplete in failures {
      return trace, failures, finished;
    }
    var workTrace, workFailures, workEnd := DrainWork(cfg, env, finished);
    trace, failures, finished := trace + workTrace, failures + workFailures, workEnd;
    if workFailures != [] {
      return trace, failures, finished;
    }
    trace := trace + [CloseResources];
    var resourceFailures, end := ReleaseResources(cfg, env, finished);
    return trace, failures + resourceFailures, end;
  }

  // ----- retrying until the deadline -----

  datatype Attempt = Attempt(ok: bool, took: nat)

  datatype Retry = NotStarted | Succeeded | GaveUp

  /** Attempt `k`, started at a time, heeds the deadline. */
  ghost predicate AttemptsPrompt(run: (nat, nat) -> Attempt, deadline: nat) {
    forall k: nat, at: nat :: EndsBy(at, run(k, at).took, deadline)
  }

  /** Attempts start one interval after the end of the one before; those after the first start before
      the deadline, and all but the last fail. */
  ghost predicate Attempted(starts: seq<nat>, start: nat, deadline: nat, interval: int, run: (nat, nat) -> Attempt) {
    if |starts| == 0 then
      true
    else if |starts| == 1 then
      starts[0] == start
    else
      var n := |starts| - 1;
      var last := run(n - 1, starts[n - 1]);
      && Attempted(starts[..n], start, deadline, interval, run)
      && !last.ok && starts[n] == starts[n - 1] + last.took + interval && starts[n] < deadline
  }

  /** Runs the function again after a pause until it succeeds or the deadline passes. The interval is
      positive, or nothing is run. Giving up means that the last attempt failed and that the next one
      would not have started before the deadline. */
  method RetryUntilContext(start: nat, deadline: nat, interval: int, run: (nat, nat) -> Attempt)
      returns (result: Retry, finished: nat, ghost starts: seq<nat>)
    ensures result == NotStarted <==> interval <= 0
    ensures starts == [] <==> interval <= 0
    ensures Attempted(starts, start, deadline, interval, run)
    ensures starts != [] ==>
              var n := |starts| - 1;
              var ended := starts[n] + run(n, starts[n]).took;
              && (result == Succeeded <==> run(n, starts[n]).ok)
              && (result == Succeeded ==> finished == ended)
              && (result == GaveUp ==> ended + interval >= deadline && finished == Max(ended, deadline))
    ensures AttemptsPrompt(run, deadline) ==> finished <= Max(start, deadline)
  {
    finished, starts := start, [];
    if interval <= 0 {
      return NotStarted, finished, starts;
    }
    var tries := 0;
    while true
      invariant tries == |starts|
      invariant Attempted(starts, start, deadline, interval, run)
      invariant tries == 0 ==> finished == start
      invariant tries > 0 ==>
                  && finished < deadline && !run(tries - 1, starts[tries - 1]).ok
                  && finished == starts[tries - 1] + run(tries - 1, starts[tries - 1]).took + interval
      decreases if tries == 0 then 1 else 0, deadline - finished
    {
      var attempt := run(tries, finished);
      assert (starts + [finished])[..tries] == starts;
      starts := starts + [finished];
      tries := tries + 1;
      assert AttemptsPrompt(run, deadline) ==> EndsBy(finished, attempt.took, deadline);
      finished := finished + attempt.took;
      if attempt.ok {
        return Succeeded, finished, starts;
      }
      if finished >= deadline {
        return GaveUp, finished, starts;
      }
      if finished + interval >= deadline {
        finished := deadline;
        return GaveUp, finished, starts;
      }
      finished := finished + interval;
    }
  }
}
