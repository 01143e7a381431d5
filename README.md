# attiny-controller: override store and scheduling loop

This project models the decision core of the attiny-controller power
supervisor. The supervisor runs on a battery-backed computer. A companion
ATtiny microcontroller switches that computer's power. The model covers two
pieces of `main.go`:

- **The override store.** `stayOnUntil` is a single timestamp. While the clock
  is before it, scheduled shutdown is held off. `shouldTurnOff` reads it;
  `setStayOnUntil` (called over D-Bus) writes it. A deadline more than 12 hours
  ahead is refused. The store is `Override.OverrideStore`, a class whose
  methods are proved against the pure functions `ShouldTurnOffAt` and
  `SetStayOnUntilAt`.
- **The scheduling loop of `runMain`.** If no window is configured, the loop
  parks. Otherwise it sleeps out the 20-minute grace period unless
  `--skip-wait` is given. Then, on every iteration:
  - if the window is active, it sleeps until the window ends;
  - otherwise it takes the whole minutes until the window opens and asks
    `shouldTurnOff`. On yes, it syncs the filesystems, asks the controller
    for a power-off of `minutes - 2` and, unless `--skip-system-shutdown` is
    given, runs `/sbin/poweroff`. It then sleeps 5 minutes.

  A failed power-off request or a failed `/sbin/poweroff` ends the process
  (`log.Fatal`). The model records each effect as an event in a trace: `Sync`,
  `PowerOff(n)`, `Shutdown` and `Sleep(d)`. Fatal exits become the status
  `Fatal(PowerOffFailed)` or `Fatal(ShutdownFailed)`.

Time is kept in whole nanoseconds, as Go's `time.Duration` is (module
`Clock`). The clock, the window's `Active`/`Until`/`UntilEnd` and the replies
of the controller and of `/sbin/poweroff` are inputs to each step. A run is a
finite sequence of `Step`s: loop iterations, with D-Bus stay-on requests
between them. Each iteration reads the store at most once, under the mutex
(an iteration inside the window does not read it), so putting requests
between whole iterations covers every interleaving the mutex allows. When no
window is configured the main goroutine parks, but the D-Bus service started
before it (main.go:128-132) still stores accepted requests; the model applies
them too. `Scheduler.Supervisor` is the imperative form: its `Tick` and
`RunMain` methods (with `Park` and `RunLoop` for the two branches) perform
the effects step by step on a `trace` field and the shared store, and are
proved equal to the pure `Iterate`, `Parked`, `Loop` and `Supervise`.

Files: `clock.dfy` (time units, minute truncation), `override.dfy` (the
store), `scheduler.dfy` (the loop), `scenarios.dfy` (concrete runs with a
09:00–17:00 window, given as the `Until`/`UntilEnd` values it would report).

Once `/sbin/poweroff` returns successfully, the code sleeps 5 minutes and
loops again (main.go:176-183); the model does the same. The real process is
expected to be killed by the OS meanwhile.

## Model

| member | source | states |
|---|---|---|
| Clock.WholeMinutes | main.go:164 | `int(d.Minutes())` truncates toward zero: for d >= 0 the result m satisfies m·1min <= d < (m+1)·1min; for d < 0, (m-1)·1min < d <= m·1min and m <= 0 |
| Override.ShouldTurnOffAt | main.go:46-53 | while now is strictly before the deadline the answer is false whatever the minutes; otherwise it is true exactly when more than 15 minutes remain until the window opens |
| Override.SetStayOnUntilAt | main.go:55-64 | accepted exactly when newTime - now <= 12h; when accepted, the stored deadline is newTime (past times too); when refused, the error is DelayTooLong and the deadline is unchanged |
| Override.ThresholdBoundary | main.go:52 | with no override in force, 15 minutes gives false and 16 gives true |
| Override.ShouldTurnOffMonotone | main.go:49-52 | a yes stays a yes when the clock advances, the deadline moves earlier or the window recedes |
| Override.AcceptedOverrideHoldsOff | main.go:49-61 | after an accepted request for newTime, the answer is false at every instant before newTime, for every minute count |
| Override.OverrideLapsesWithinMaxDelay | main.go:49-58 | after an accepted request made at now, from now + 12h on the answer depends only on the minute count (> 15) |
| Override.OverrideStore.constructor | main.go:43 | the deadline starts at the start time, so no override is in force at start-up |
| Override.OverrideStore.ShouldTurnOff | main.go:46-53 | returns ShouldTurnOffAt of the stored deadline and changes no state |
| Override.OverrideStore.SetStayOnUntil | main.go:55-64 | reports Ok exactly when newTime - now <= 12h; then stores newTime, otherwise leaves the deadline as it was |
| Scheduler.Iterate | main.go:158-184 | an active window yields only Sleep(UntilEnd); an inactive iteration that does not arm yields exactly the 5-minute poll sleep; a power-off is armed exactly when the window is inactive and shouldTurnOff says yes on the truncated minutes, and then the events are exactly Sync, PowerOff(minutes - 2), Shutdown if it happens, and the 5-minute sleep if still running; the countdown is at least 14 and ends at least 2 minutes before the window opens; shutdown happens exactly when arming succeeded and shutdown is not skipped; each fatal status matches exactly its failing call |
| Scheduler.Supervise | main.go:128-185 | with no window no event happens, the status is Idle and the deadline is the one the stay-on requests leave (Parked); otherwise the first event is the 20-minute grace sleep unless skipped, the status is never Idle, the whole trace keeps the sync/power-off/shutdown order with countdowns >= 14, and with --skip-system-shutdown no shutdown ever occurs |
| Scheduler.LoopShutdownOrdered | main.go:157-185 | over any run, every sync is directly followed by a power-off, every power-off directly follows a sync, every shutdown directly follows a power-off, and every countdown is at least 14 |
| Scheduler.LoopKeepsToSettings | main.go:157-185 | over any run: with --skip-system-shutdown there is no shutdown; the loop never parks; a run ended by PowerOffFailed ends with the power-off and one ended by ShutdownFailed with the shutdown; a run still going ends asleep |
| Scheduler.LoopQuietWhileOverridden | main.go:157-185 | while every iteration happens before the deadline in force and no request comes in, the loop only sleeps, keeps running and keeps the deadline |
| Scheduler.OverrideRequestHoldsOff | main.go:49-61 | a stay-on request within 12h stops any sync, power-off or shutdown at all later iterations before its deadline, until another request arrives |
| Scheduler.RejectedRequestIsInvisible | main.go:56-58 | a request beyond 12h leaves the whole run, its trace, deadline and status, as if it had not been made |
| Scheduler.LoopDeadlineFromRequests | main.go:55-61 | the deadline after a run is the initial one or the newTime of an accepted request in the run; nothing else writes the store |
| Scheduler.Supervisor.Tick | main.go:158-184 | performing one iteration appends exactly Iterate's events to the trace and returns its status |
| Scheduler.ParkedKeepsLastAccepted | main.go:55-61 | with the main goroutine parked, an accepted stay-on request leaves exactly its newTime stored |
| Scheduler.ParkedIgnoresRejected | main.go:56-58 | with the main goroutine parked, a request beyond 12h leaves the deadline as the earlier requests set it |
| Scheduler.Supervisor.Park | main.go:147-150 | with the main goroutine parked, applying the stay-on requests one by one leaves the store holding Parked's deadline |
| Scheduler.Supervisor.RunLoop | main.go:157-185 | running the loop over the steps appends exactly Loop's events, leaves the store at Loop's deadline and returns its status |
| Scheduler.Supervisor.RunMain | main.go:147-185 | running the steps appends exactly Supervise's events to the trace, leaves the store holding Supervise's deadline and returns its status |
| Scenarios.SleepsToTheEndOfTheWindow | main.go:158-162 | an active window with UntilEnd of 10 minutes (16:50 in a 09:00–17:00 window) yields only a 10-minute sleep |
| Scenarios.ArmsEighteenMinutesAtTwentyToNine | main.go:164-181 | an Until of 20 minutes (08:40 in a 09:00–17:00 window) with no override: sync, PowerOff(18), shutdown, then the 5-minute sleep |
| Scenarios.RecentOverrideHoldsOffAtTwentyToNine | main.go:49-61 | with an Until of 20 minutes, a 30-minute override requested 5 minutes earlier leaves only the poll sleep |
| Scenarios.JustUnderSixteenMinutesKeepsHostOn | main.go:164-166 | an Until of 16 minutes less half a second truncates to 15 minutes, which keeps the host on |

## Left out

- The window's `Active`, `Until` and `UntilEnd`, the configuration loader, `connectATtiny` and the attiny methods (`PowerOff`, `PingWatchdog`, `checkIsOnBattery`, `readBatteryValue`, `UpdateWifiState`) are not part of this model. Their results are inputs to each step.
- Start-up before the window check (main.go:94-145) is left out: argument parsing, logging set-up, config parsing with its fall-back to `justPingWatchdog`, controller detection, the battery reads and `startService`. These are calls into code that is not modelled.
- `updateWatchdogTimer` and `justPingWatchdog` (main.go:188-219) are left out. They are an unbounded ping loop whose only logic is "a failed ping is fatal".
- The `sync.Mutex` and the goroutines are left out. Each store method is one critical section, and D-Bus requests are interleaved between whole loop iterations.
- Sleeping is the event `Sleep(d)`. Real time does not pass in the model; the clock reading of each iteration is an input.
- `unix.Sync` and `/sbin/poweroff` are the events `Sync` and `Shutdown`. Their output and the log lines are not modelled.
- Clock.WholeMinutes: models `int(d.Minutes())` as exact truncation of the nanosecond count. Go's `Minutes()` adds the float of the whole minutes to the float of the remainder, and from about 2^18 minutes (roughly 182 days) a remainder just under a minute can round up to one more whole minute. A daily window's `Until()` is far below that.
- Override.SetStayOnUntilAt: computes `newTime - now` on unbounded integers. Go's `time.Until` saturates at the int64 range, and monotonic-clock readings are not modelled.
- The countdown passed to the controller is an unbounded integer. Its encoding into two bytes happens in the attiny code, which is not part of this model.
- The loop in `runMain` never ends. The model runs it over a finite sequence of steps, so it describes every finite prefix of a run.
