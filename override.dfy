/** The override store: the one timestamp `stayOnUntil` before which the
    supervisor will not power the host off, its decision function, and the
    bounded update that the D-Bus endpoint calls. */
module Override {
  import opened Clock

  /** The furthest ahead a caller may set the override deadline. */
  const MaxDelay: Duration := 12 * Hour

  /** Minutes until the activity window opens that still warrant a power-off;
      at or below this the host stays on. */
  const TurnOffThreshold: int := 15

  datatype OverrideError = DelayTooLong
  datatype SetResult = Ok | Err(error: OverrideError)

  /** What a call to `setStayOnUntil` reports, with the deadline stored afterwards. */
  datatype SetReply = SetReply(result: SetResult, stayOnUntil: Instant)

  /** An override is in force while the clock is strictly before the deadline
      (`time.Now().Before(stayOnUntil)`); at the deadline itself it has lapsed. */
  predicate InForce(now: Instant, stayOnUntil: Instant) {
    now < stayOnUntil
  }

  /** The answer `shouldTurnOff(minutesUntilActive)` gives at instant `now`. */
  function ShouldTurnOffAt(now: Instant, stayOnUntil: Instant, minutesUntilActive: int): (off: bool)
    ensures InForce(now, stayOnUntil) ==> !off
    ensures !InForce(now, stayOnUntil) ==> (off <==> minutesUntilActive > TurnOffThreshold)
  {
    if now < stayOnUntil then false else minutesUntilActive > TurnOffThreshold
  }

  /** The effect of `setStayOnUntil(newTime)` called at `now` on a store
      holding `stayOnUntil`. */
  function SetStayOnUntilAt(now: Instant, stayOnUntil: Instant, newTime: Instant): (r: SetReply)
    ensures r.result.Ok? <==> newTime - now <= MaxDelay
    ensures r.result.Ok? ==> r.stayOnUntil == newTime
    ensures r.result.Err? ==> r.result.error == DelayTooLong && r.stayOnUntil == stayOnUntil
  {
    if newTime - now > MaxDelay then SetReply(Err(DelayTooLong), stayOnUntil)
    else SetReply(Ok, newTime)
  }

  /** With the override lapsed, the threshold is exact: 15 minutes keeps the
      host on and 16 turns it off. */
  lemma ThresholdBoundary(now: Instant, stayOnUntil: Instant)
    requires !InForce(now, stayOnUntil)
    ensures !ShouldTurnOffAt(now, stayOnUntil, 15)
    ensures ShouldTurnOffAt(now, stayOnUntil, 16)
  {
  }

  /** The decision only grows more eager as the window recedes, as the clock
      advances and as the deadline moves earlier. */
  lemma ShouldTurnOffMonotone(now: Instant, now': Instant, d: Instant, d': Instant, m: int, m': int)
    requires ShouldTurnOffAt(now, d, m)
    requires now <= now' && d' <= d && m <= m'
    ensures ShouldTurnOffAt(now', d', m')
  {
  }

  /** An accepted override keeps the host on at every instant before the new
      deadline, whatever the window says. */
  lemma AcceptedOverrideHoldsOff(now: Instant, stayOnUntil: Instant, newTime: Instant)
    requires newTime - now <= MaxDelay
    ensures var r := SetStayOnUntilAt(now, stayOnUntil, newTime);
      r.result == Ok &&
      forall t, m :: t < newTime ==> !ShouldTurnOffAt(t, r.stayOnUntil, m)
  {
  }

  /** No accepted override holds the host on beyond 12 hours after the request:
      from then on the window alone decides. */
  lemma OverrideLapsesWithinMaxDelay(now: Instant, stayOnUntil: Instant, newTime: Instant, t: Instant, m: int)
    requires SetStayOnUntilAt(now, stayOnUntil, newTime).result.Ok?
    requires now + MaxDelay <= t
    ensures ShouldTurnOffAt(t, SetStayOnUntilAt(now, stayOnUntil, newTime).stayOnUntil, m)
            <==> m > TurnOffThreshold
  {
  }

  /** The process-wide override deadline. The Go program guards it with a
      mutex held only around the single read or write; each method below is
      one such critical section. */
  class OverrideStore {
    var stayOnUntil: Instant

    /** At start-up the deadline is the start time, so no override is in force. */
    constructor (start: Instant)
      ensures stayOnUntil == start
      ensures !InForce(start, stayOnUntil)
    {
      stayOnUntil := start;
    }

    /** `shouldTurnOff`: reads the deadline, changes nothing. */
    method ShouldTurnOff(now: Instant, minutesUntilActive: int) returns (off: bool)
      ensures off == ShouldTurnOffAt(now, stayOnUntil, minutesUntilActive)
    {
      if now < stayOnUntil {
        return false;
      }
      off := minutesUntilActive > TurnOffThreshold;
    }

    /** `setStayOnUntil`: stores `newTime` unless it lies more than 12 hours
        after `now`, in which case the store is left as it was. */
    method SetStayOnUntil(now: Instant, newTime: Instant) returns (result: SetResult)
      modifies this
      ensures SetReply(result, stayOnUntil) == SetStayOnUntilAt(now, old(stayOnUntil), newTime)
      ensures result.Ok? <==> newTime - now <= MaxDelay
      ensures stayOnUntil == if result.Ok? then newTime else old(stayOnUntil)
    {
      if newTime - now > MaxDelay {
        return Err(DelayTooLong);
      }
      stayOnUntil := newTime;
      result := Ok;
    }
  }
}
