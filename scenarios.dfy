/** Concrete runs of the loop. The window itself is not modelled: each
    lemma supplies the `Until`/`UntilEnd` values that a 09:00-17:00 window
    would report at the clock time named in its comment. */
module Scenarios {
  import opened Clock
  import opened Override
  import opened Scheduler

  /** An active window with an `UntilEnd` of 10 minutes (as at 16:50 in a
      09:00-17:00 window): the loop sleeps those 10 minutes and does nothing else. */
  lemma SleepsToTheEndOfTheWindow(c: Config, stayOnUntil: Instant, now: Instant, rep: Replies)
    ensures Iterate(c, stayOnUntil, now, Window(true, 0, 10 * Minute), rep)
         == TickResult([Sleep(10 * Minute)], Running)
  {
  }

  /** An inactive window with an `Until` of 20 minutes (as at 08:40 in a
      09:00-17:00 window) and no override: the loop syncs, asks for an
      18-minute power-off and shuts the system down. */
  lemma ArmsEighteenMinutesAtTwentyToNine(stayOnUntil: Instant, now: Instant)
    requires stayOnUntil <= now
    ensures Iterate(Config(false, false, false), stayOnUntil, now,
                    Window(false, 20 * Minute, 0), Replies(true, true)).events
         == [Sync, PowerOff(18), Shutdown, Sleep(PollInterval)]
  {
  }

  /** As above, with an `Until` of 20 minutes, but 5 minutes earlier someone
      asked to stay on for 30 minutes: the loop only polls again. */
  lemma RecentOverrideHoldsOffAtTwentyToNine(c: Config, stayOnUntil: Instant, at: Instant, rep: Replies)
    ensures Loop(c, stayOnUntil,
                 [StayOnRequest(at, at + 30 * Minute),
                  Iteration(at + 5 * Minute, Window(false, 20 * Minute, 0), rep)]).events
         == [Sleep(PollInterval)]
  {
    var tick := Iteration(at + 5 * Minute, Window(false, 20 * Minute, 0), rep);
    var steps := [StayOnRequest(at, at + 30 * Minute), tick];
    var deadline := at + 30 * Minute;
    assert SetStayOnUntilAt(at, stayOnUntil, deadline).stayOnUntil == deadline;
    assert steps[1..] == [tick] && [tick][1..] == [];
    assert Iterate(c, deadline, tick.now, tick.window, rep).events == [Sleep(PollInterval)];
    assert Loop(c, deadline, [tick]).events == [Sleep(PollInterval)] + Loop(c, deadline, []).events;
  }

  /** An `Until` half a second under 16 minutes counts as 15 whole minutes,
      which keeps the host on. */
  lemma JustUnderSixteenMinutesKeepsHostOn(c: Config, stayOnUntil: Instant, now: Instant, rep: Replies)
    requires stayOnUntil <= now
    ensures Iterate(c, stayOnUntil, now, Window(false, 16 * Minute - Second / 2, 0), rep).events
         == [Sleep(PollInterval)]
  {
  }
}
