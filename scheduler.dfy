/** The main scheduling loop of `runMain`: after an optional grace period it
    repeatedly reads the activity window and either sleeps through the
    window, polls again later, or runs the shutdown sequence (sync the
    filesystems, arm the companion controller's power-off countdown, shut
    the operating system down). Its effects are recorded as a trace of
    events; the window, the clock and the replies of the controller and of
    `/sbin/poweroff` are inputs. */
module Scheduler {
  import opened Clock
  import opened Override

  /** Time given to an operator after start-up before the window is applied. */
  const InitialGracePeriod: Duration := 20 * Minute

  /** How long the loop sleeps after an iteration outside the window. */
  const PollInterval: Duration := 5 * Minute

  /** Minutes taken off the countdown so that the controller restores power
      before the window opens. */
  const PowerOffMargin: int := 2

  /** The smallest countdown the loop can send: the first minute count above
      the threshold, less the margin. */
  const MinCountdown: int := TurnOffThreshold + 1 - PowerOffMargin

  /** An effect of the loop, in the order it happens. */
  datatype Event =
    | Sync                     // unix.Sync()
    | PowerOff(minutes: int)   // attiny.PowerOff(minutes)
    | Shutdown                 // shutdown(): runs /sbin/poweroff
    | Sleep(duration: Duration)

  /** The failures that `log.Fatal` turns into process exit. */
  datatype FatalError = PowerOffFailed | ShutdownFailed

  /** Where the loop stands after some iterations: still looping, parked
      because no window is configured, or terminated by a fatal error. */
  datatype Status = Running | Idle | Fatal(error: FatalError)

  /** The settings the loop consults: `OnWindow.NoWindow` from the
      configuration and the `--skip-wait` and `--skip-system-shutdown` flags. */
  datatype Config = Config(noWindow: bool, skipWait: bool, skipSystemShutdown: bool)

  /** What the window reports at one iteration: `Active()`, `Until()` and
      `UntilEnd()`. */
  datatype Window = Window(active: bool, until: Duration, untilEnd: Duration)

  /** Whether `attiny.PowerOff` and `/sbin/poweroff` succeed, if called. */
  datatype Replies = Replies(powerOffOk: bool, shutdownOk: bool)

  /** One thing that happens to the supervisor: an iteration of the loop at
      instant `now`, or a D-Bus call asking to stay on until `newTime`.
      Each iteration reads the override store at most once, so interleaving
      requests between whole iterations covers every interleaving the
      mutex allows. */
  datatype Step =
    | Iteration(now: Instant, window: Window, replies: Replies)
    | StayOnRequest(now: Instant, newTime: Instant)

  datatype TickResult = TickResult(events: seq<Event>, status: Status)
  datatype RunResult = RunResult(events: seq<Event>, stayOnUntil: Instant, status: Status)

  /** Every sync is followed at once by a power-off request, every power-off
      request directly follows a sync, and every OS shutdown directly follows
      a power-off request. */
  predicate ShutdownOrdered(ev: seq<Event>) {
    (forall i :: 0 <= i < |ev| && ev[i].Sync? ==> i + 1 < |ev| && ev[i + 1].PowerOff?) &&
    (forall i :: 0 <= i < |ev| && ev[i].PowerOff? ==> 0 < i && ev[i - 1].Sync?) &&
    (forall i :: 0 <= i < |ev| && ev[i].Shutdown? ==> 0 < i && ev[i - 1].PowerOff?)
  }

  predicate CountdownsAtLeast(ev: seq<Event>, bound: int) {
    forall i :: 0 <= i < |ev| && ev[i].PowerOff? ==> ev[i].minutes >= bound
  }

  /** A power-off countdown is sent somewhere in `ev`. */
  predicate Arms(ev: seq<Event>) {
    exists i :: 0 <= i < |ev| && ev[i].PowerOff?
  }

  /** The operating system is told to shut down somewhere in `ev`. */
  predicate ShutsDown(ev: seq<Event>) {
    exists i :: 0 <= i < |ev| && ev[i].Shutdown?
  }

  /** Nothing but sleeping happens in `ev`. */
  predicate Quiet(ev: seq<Event>) {
    forall i :: 0 <= i < |ev| ==> ev[i].Sleep?
  }

  /** The shutdown sequence with countdown `countdown`: sync, arm, then
      unless suppressed shut down, stopping at the first fatal failure. */
  function ShutdownSequence(c: Config, countdown: int, rep: Replies): TickResult {
    if !rep.powerOffOk then
      TickResult([Sync, PowerOff(countdown)], Fatal(PowerOffFailed))
    else if c.skipSystemShutdown then
      TickResult([Sync, PowerOff(countdown), Sleep(PollInterval)], Running)
    else if !rep.shutdownOk then
      TickResult([Sync, PowerOff(countdown), Shutdown], Fatal(ShutdownFailed))
    else
      TickResult([Sync, PowerOff(countdown), Shutdown, Sleep(PollInterval)], Running)
  }

  /** One iteration of the `for` loop of `runMain`, with the override
      deadline `stayOnUntil` in force. */
  function Iterate(c: Config, stayOnUntil: Instant, now: Instant, w: Window, rep: Replies): (r: TickResult)
    ensures r.status != Idle
    ensures ShutdownOrdered(r.events) && CountdownsAtLeast(r.events, MinCountdown)
    ensures w.active ==> r == TickResult([Sleep(w.untilEnd)], Running)
    ensures Arms(r.events) <==> !w.active && ShouldTurnOffAt(now, stayOnUntil, WholeMinutes(w.until))
    ensures forall i :: 0 <= i < |r.events| && r.events[i].PowerOff? ==>
              r.events[i].minutes == WholeMinutes(w.until) - PowerOffMargin &&
              (r.events[i].minutes + PowerOffMargin) * Minute <= w.until
    ensures ShutsDown(r.events) <==> Arms(r.events) && rep.powerOffOk && !c.skipSystemShutdown
    ensures r.status == Fatal(PowerOffFailed) <==> Arms(r.events) && !rep.powerOffOk
    ensures r.status == Fatal(ShutdownFailed) <==> ShutsDown(r.events) && !rep.shutdownOk
    ensures r.status == Running ==> |r.events| > 0 && r.events[|r.events| - 1].Sleep?
    ensures !w.active && r.status == Running ==> r.events[|r.events| - 1] == Sleep(PollInterval)
    ensures !w.active && !Arms(r.events) ==> r == TickResult([Sleep(PollInterval)], Running)
    ensures Arms(r.events) ==>
              r.events == [Sync, PowerOff(WholeMinutes(w.until) - PowerOffMargin)]
                          + (if ShutsDown(r.events) then [Shutdown] else [])
                          + (if r.status == Running then [Sleep(PollInterval)] else [])
  {
    if w.active then
      TickResult([Sleep(w.untilEnd)], Running)
    else
      var minutesUntilActive := WholeMinutes(w.until);
      if ShouldTurnOffAt(now, stayOnUntil, minutesUntilActive) then
        var r := ShutdownSequence(c, minutesUntilActive - PowerOffMargin, rep);
        assert r.events[1].PowerOff?;
        assert rep.powerOffOk && !c.skipSystemShutdown ==> r.events[2].Shutdown?;
        r
      else
        TickResult([Sleep(PollInterval)], Running)
  }

  /** The loop run over `steps` from a store holding `stayOnUntil`; it stops at
      the first fatal error. The loop of `runMain` never ends of its own accord,
      so this is the behaviour over a finite prefix of its life. */
  function Loop(c: Config, stayOnUntil: Instant, steps: seq<Step>): (r: RunResult)
    decreases |steps|
  {
    if steps == [] then RunResult([], stayOnUntil, Running)
    else match steps[0]
      case StayOnRequest(now, newTime) =>
        Loop(c, SetStayOnUntilAt(now, stayOnUntil, newTime).stayOnUntil, steps[1..])
      case Iteration(now, w, rep) =>
        var t := Iterate(c, stayOnUntil, now, w, rep);
        if t.status.Fatal? then RunResult(t.events, stayOnUntil, t.status)
        else
          var rest := Loop(c, stayOnUntil, steps[1..]);
          RunResult(t.events + rest.events, rest.stayOnUntil, rest.status)
  }

  /** The deadline left by the stay-on requests in `steps` once the main
      goroutine has parked: the D-Bus service keeps serving `setStayOnUntil`,
      while no loop iteration happens any more, so iterations are ignored. */
  function Parked(stayOnUntil: Instant, steps: seq<Step>): (d: Instant)
    decreases |steps|
  {
    if steps == [] then stayOnUntil
    else match steps[0]
      case StayOnRequest(now, newTime) =>
        Parked(SetStayOnUntilAt(now, stayOnUntil, newTime).stayOnUntil, steps[1..])
      case Iteration(_, _, _) => Parked(stayOnUntil, steps[1..])
  }

  /** While parked, the last accepted stay-on request decides the deadline. */
  lemma {:induction false} ParkedKeepsLastAccepted(stayOnUntil: Instant, steps: seq<Step>, at: Instant, newTime: Instant)
    requires newTime - at <= MaxDelay
    ensures Parked(stayOnUntil, steps + [StayOnRequest(at, newTime)]) == newTime
    decreases |steps|
  {
    var all := steps + [StayOnRequest(at, newTime)];
    if steps == [] {
      assert all[1..] == [];
    } else {
      assert all[0] == steps[0] && all[1..] == steps[1..] + [StayOnRequest(at, newTime)];
      var next := match steps[0]
        case StayOnRequest(now, t) => SetStayOnUntilAt(now, stayOnUntil, t).stayOnUntil
        case Iteration(_, _, _) => stayOnUntil;
      ParkedKeepsLastAccepted(next, steps[1..], at, newTime);
    }
  }

  /** While parked, a request beyond the 12-hour bound changes nothing. */
  lemma {:induction false} ParkedIgnoresRejected(stayOnUntil: Instant, steps: seq<Step>, at: Instant, newTime: Instant)
    requires newTime - at > MaxDelay
    ensures Parked(stayOnUntil, steps + [StayOnRequest(at, newTime)]) == Parked(stayOnUntil, steps)
    decreases |steps|
  {
    var all := steps + [StayOnRequest(at, newTime)];
    if steps == [] {
      assert all[1..] == [];
    } else {
      assert all[0] == steps[0] && all[1..] == steps[1..] + [StayOnRequest(at, newTime)];
      var next := match steps[0]
        case StayOnRequest(now, t) => SetStayOnUntilAt(now, stayOnUntil, t).stayOnUntil
        case Iteration(_, _, _) => stayOnUntil;
      ParkedIgnoresRejected(next, steps[1..], at, newTime);
    }
  }

  /** `runMain` from the window check on: park when no window is configured
      (stay-on requests are still stored), otherwise sleep out the grace
      period unless told to skip it, then loop. */
  function Supervise(c: Config, stayOnUntil: Instant, steps: seq<Step>): (r: RunResult)
    ensures c.noWindow ==> r == RunResult([], Parked(stayOnUntil, steps), Idle)
    ensures !c.noWindow ==> r.status != Idle
    ensures !c.noWindow && !c.skipWait ==> |r.events| > 0 && r.events[0] == Sleep(InitialGracePeriod)
    ensures ShutdownOrdered(r.events) && CountdownsAtLeast(r.events, MinCountdown)
    ensures c.skipSystemShutdown ==> !ShutsDown(r.events)
  {
    if c.noWindow then RunResult([], Parked(stayOnUntil, steps), Idle)
    else
      var grace := if c.skipWait then [] else [Sleep(InitialGracePeriod)];
      var run := Loop(c, stayOnUntil, steps);
      LoopShutdownOrdered(c, stayOnUntil, steps);
      LoopKeepsToSettings(c, stayOnUntil, steps);
      OrderedConcat(grace, run.events);
      assert c.skipSystemShutdown ==> !ShutsDown(grace + run.events) by {
        if c.skipSystemShutdown {
          forall i | 0 <= i < |grace + run.events| ensures !(grace + run.events)[i].Shutdown? {
            if i >= |grace| {
              assert (grace + run.events)[i] == run.events[i - |grace|];
            }
          }
        }
      }
      RunResult(grace + run.events, run.stayOnUntil, run.status)
  }

  /** The ordering and countdown bounds survive concatenating two traces. */
  lemma OrderedConcat(a: seq<Event>, b: seq<Event>)
    requires ShutdownOrdered(a) && ShutdownOrdered(b)
    requires CountdownsAtLeast(a, MinCountdown) && CountdownsAtLeast(b, MinCountdown)
    ensures ShutdownOrdered(a + b) && CountdownsAtLeast(a + b, MinCountdown)
  {
  }

  /** Over any run of the loop the shutdown sequence keeps its order and
      every countdown sent is at least 14 minutes. */
  lemma {:induction false} LoopShutdownOrdered(c: Config, stayOnUntil: Instant, steps: seq<Step>)
    ensures ShutdownOrdered(Loop(c, stayOnUntil, steps).events)
    ensures CountdownsAtLeast(Loop(c, stayOnUntil, steps).events, MinCountdown)
    decreases |steps|
  {
    if steps != [] {
      match steps[0]
      case StayOnRequest(now, newTime) =>
        LoopShutdownOrdered(c, SetStayOnUntilAt(now, stayOnUntil, newTime).stayOnUntil, steps[1..]);
      case Iteration(now, w, rep) =>
        var t := Iterate(c, stayOnUntil, now, w, rep);
        if !t.status.Fatal? {
          LoopShutdownOrdered(c, stayOnUntil, steps[1..]);
          OrderedConcat(t.events, Loop(c, stayOnUntil, steps[1..]).events);
        }
    }
  }

  /** Over any run: with `--skip-system-shutdown` the OS is never shut down;
      the loop never parks; a run stopped by a fatal error ends with the call
      that failed, and a run still going ends asleep. */
  lemma {:induction false} LoopKeepsToSettings(c: Config, stayOnUntil: Instant, steps: seq<Step>)
    ensures var r := Loop(c, stayOnUntil, steps);
      (c.skipSystemShutdown ==> !ShutsDown(r.events)) &&
      r.status != Idle &&
      (r.status == Fatal(PowerOffFailed) ==> |r.events| > 0 && r.events[|r.events| - 1].PowerOff?) &&
      (r.status == Fatal(ShutdownFailed) ==> |r.events| > 0 && r.events[|r.events| - 1].Shutdown?) &&
      (r.status == Running && r.events != [] ==> r.events[|r.events| - 1].Sleep?)
    decreases |steps|
  {
    if steps != [] {
      match steps[0]
      case StayOnRequest(now, newTime) =>
        LoopKeepsToSettings(c, SetStayOnUntilAt(now, stayOnUntil, newTime).stayOnUntil, steps[1..]);
      case Iteration(now, w, rep) =>
        var t := Iterate(c, stayOnUntil, now, w, rep);
        if !t.status.Fatal? {
          var rest := Loop(c, stayOnUntil, steps[1..]);
          LoopKeepsToSettings(c, stayOnUntil, steps[1..]);
          var ev := t.events + rest.events;
          if c.skipSystemShutdown {
            forall i | 0 <= i < |ev| ensures !ev[i].Shutdown? {
              if i < |t.events| { assert ev[i] == t.events[i]; }
              else { assert ev[i] == rest.events[i - |t.events|]; }
            }
          }
          if rest.events != [] {
            assert ev[|ev| - 1] == rest.events[|rest.events| - 1];
          }
        }
    }
  }

  /** While every iteration happens before the deadline in force and no
      request arrives, the loop only sleeps and the deadline stays put. */
  lemma {:induction false} LoopQuietWhileOverridden(c: Config, stayOnUntil: Instant, steps: seq<Step>)
    requires forall k :: 0 <= k < |steps| ==> steps[k].Iteration? && steps[k].now < stayOnUntil
    ensures var r := Loop(c, stayOnUntil, steps);
      Quiet(r.events) && r.status == Running && r.stayOnUntil == stayOnUntil
    decreases |steps|
  {
    if steps != [] {
      assert steps[0].Iteration? && steps[0].now < stayOnUntil;
      var t := Iterate(c, stayOnUntil, steps[0].now, steps[0].window, steps[0].replies);
      assert t.events == [Sleep(if steps[0].window.active then steps[0].window.untilEnd else PollInterval)];
      LoopQuietWhileOverridden(c, stayOnUntil, steps[1..]);
      var rest := Loop(c, stayOnUntil, steps[1..]);
      var ev := t.events + rest.events;
      forall i | 0 <= i < |ev| ensures ev[i].Sleep? {
        if 0 < i { assert ev[i] == rest.events[i - 1]; }
      }
    }
  }

  /** A stay-on request within the 12-hour bound keeps the host from being
      synced, armed or shut down at every later iteration before the new
      deadline, until another request arrives. */
  lemma OverrideRequestHoldsOff(c: Config, stayOnUntil: Instant, at: Instant, newTime: Instant, steps: seq<Step>)
    requires newTime - at <= MaxDelay
    requires forall k :: 0 <= k < |steps| ==> steps[k].Iteration? && steps[k].now < newTime
    ensures Quiet(Loop(c, stayOnUntil, [StayOnRequest(at, newTime)] + steps).events)
  {
    assert ([StayOnRequest(at, newTime)] + steps)[1..] == steps;
    LoopQuietWhileOverridden(c, newTime, steps);
  }

  /** A request beyond the 12-hour bound leaves no trace in the run. */
  lemma RejectedRequestIsInvisible(c: Config, stayOnUntil: Instant, at: Instant, newTime: Instant, steps: seq<Step>)
    requires newTime - at > MaxDelay
    ensures Loop(c, stayOnUntil, [StayOnRequest(at, newTime)] + steps) == Loop(c, stayOnUntil, steps)
  {
  }

  /** The deadline after a run is the one it started with or the deadline of
      an accepted request in it: nothing else writes the store. */
  lemma {:induction false} LoopDeadlineFromRequests(c: Config, stayOnUntil: Instant, steps: seq<Step>)
    ensures var d := Loop(c, stayOnUntil, steps).stayOnUntil;
      d == stayOnUntil ||
      exists k :: 0 <= k < |steps| && steps[k].StayOnRequest? &&
        steps[k].newTime == d && steps[k].newTime - steps[k].now <= MaxDelay
    decreases |steps|
  {
    if steps != [] {
      var d := Loop(c, stayOnUntil, steps).stayOnUntil;
      var next := match steps[0]
        case StayOnRequest(now, newTime) => SetStayOnUntilAt(now, stayOnUntil, newTime).stayOnUntil
        case Iteration(_, _, _) => stayOnUntil;
      LoopDeadlineFromRequests(c, next, steps[1..]);
      if d != stayOnUntil {
        if d == next {
          assert steps[0].StayOnRequest?;
        } else {
          var k :| 0 <= k < |steps[1..]| && steps[1..][k].StayOnRequest? &&
            steps[1..][k].newTime == d && steps[1..][k].newTime - steps[1..][k].now <= MaxDelay;
          assert steps[k + 1] == steps[1..][k];
        }
      }
    }
  }

  /** The supervisor's main goroutine: the loop with its effects, driving the
      shared override store. */
  class Supervisor {
    const config: Config
    const store: OverrideStore
    /** Every effect performed so far, oldest first. */
    var trace: seq<Event>

    constructor (config: Config, store: OverrideStore)
      ensures this.config == config && this.store == store && trace == []
    {
      this.config := config;
      this.store := store;
      trace := [];
    }

    /** One iteration of the loop: performs the effects in order and reports
        whether the process goes on or dies. */
    method Tick(now: Instant, w: Window, rep: Replies) returns (status: Status)
      modifies this
      ensures var r := Iterate(config, store.stayOnUntil, now, w, rep);
        trace == old(trace) + r.events && status == r.status
    {
      if w.active {
        trace := trace + [Sleep(w.untilEnd)];
        return Running;
      }
      var minutesUntilActive := WholeMinutes(w.until);
      var off := store.ShouldTurnOff(now, minutesUntilActive);
      if off {
        trace := trace + [Sync];
        trace := trace + [PowerOff(minutesUntilActive - PowerOffMargin)];
        if !rep.powerOffOk {
          return Fatal(PowerOffFailed);
        }
        if !config.skipSystemShutdown {
          trace := trace + [Shutdown];
          if !rep.shutdownOk {
            return Fatal(ShutdownFailed);
          }
        }
      }
      trace := trace + [Sleep(PollInterval)];
      status := Running;
    }

    /** The main goroutine has parked (`runtime.Goexit`); the D-Bus service
        still serves the stay-on requests in `steps`. */
    method Park(steps: seq<Step>)
      modifies store
      ensures store.stayOnUntil == Parked(old(store.stayOnUntil), steps)
    {
      ghost var parked := Parked(store.stayOnUntil, steps);
      for i := 0 to |steps|
        invariant Parked(store.stayOnUntil, steps[i..]) == parked
      {
        assert steps[i..][1..] == steps[i + 1..];
        if steps[i].StayOnRequest? {
          var _ := store.SetStayOnUntil(steps[i].now, steps[i].newTime);
        }
      }
    }

    /** The `for` loop of `runMain` over the iterations and D-Bus requests in
        `steps`, until they run out or a call fails fatally. */
    method RunLoop(steps: seq<Step>) returns (status: Status)
      modifies this, store
      ensures var r := Loop(config, old(store.stayOnUntil), steps);
        trace == old(trace) + r.events && store.stayOnUntil == r.stayOnUntil && status == r.status
    {
      ghost var goal := Loop(config, store.stayOnUntil, steps);
      var i := 0;
      while i < |steps|
        invariant 0 <= i <= |steps|
        invariant var rest := Loop(config, store.stayOnUntil, steps[i..]);
          old(trace) + goal.events == trace + rest.events &&
          goal.stayOnUntil == rest.stayOnUntil && goal.status == rest.status
      {
        assert steps[i..][1..] == steps[i + 1..];
        var step := steps[i];
        if step.StayOnRequest? {
          var _ := store.SetStayOnUntil(step.now, step.newTime);
        } else {
          var s := Tick(step.now, step.window, step.replies);
          if s.Fatal? {
            return s;
          }
        }
        i := i + 1;
      }
      status := Running;
    }

    /** `runMain` from the window check on, over the iterations and D-Bus
        requests in `steps`: park, or sleep out the grace period and loop. */
    method RunMain(steps: seq<Step>) returns (status: Status)
      modifies this, store
      ensures var r := Supervise(config, old(store.stayOnUntil), steps);
        trace == old(trace) + r.events && store.stayOnUntil == r.stayOnUntil && status == r.status
    {
      if config.noWindow {
        Park(steps);
        return Idle;
      }
      if !config.skipWait {
        trace := trace + [Sleep(InitialGracePeriod)];
      }
      status := RunLoop(steps);
    }
  }
}
