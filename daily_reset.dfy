/** The daily-boundary check (src/hooks/useDailyReset.ts): a persisted
    "last login" marker, compared by calendar day with the current instant
    whenever the check runs. When the days differ the `onReset` callback
    fires and the marker moves to now; otherwise nothing happens. The callback
    only logs, so it is modelled by the number of times it has fired. */
module DailyReset {
  import opened Dates
  import opened Wrappers

  /** The marker at start-up: the stored value, or the start-up instant when
      nothing is stored yet. */
  function InitialMarker(stored: Option<Instant>, boot: Instant): (r: Instant)
    ensures stored.Some? ==> r == stored.value
    ensures stored.None? ==> r == boot
  {
    stored.GetOr(boot)
  }

  /** The check fires exactly when the marker is on another calendar day. */
  predicate Fires(marker: Instant, now: Instant) {
    !IsSameDay(now, marker)
  }

  /** The marker after one run of the check at instant `now`. */
  function NextMarker(marker: Instant, now: Instant): (r: Instant)
    ensures IsSameDay(r, now)
    ensures r == marker || r == now
    ensures r != marker ==> Fires(marker, now)
  {
    if Fires(marker, now) then now else marker
  }

  /** Firing is the same as the day number having changed: the check reacts
      to crossing midnight into any other day, past or future, never to
      elapsed time within one day. */
  lemma FiresIffDayChanged(marker: Instant, now: Instant)
    ensures Fires(marker, now) <==> DayNumber(marker) != DayNumber(now)
  {
    SameDayIffSameDayNumber(now, marker);
  }

  /** With nothing stored, the marker defaults to the start-up instant, so
      the first run does not fire when it happens on the start-up day. */
  lemma FirstRunQuiet(boot: Instant, now: Instant)
    requires IsSameDay(boot, now)
    ensures !Fires(InitialMarker(None, boot), now)
  {
  }

  /** Running the check again later the same day does not fire again. */
  lemma SecondRunQuiet(marker: Instant, now: Instant, later: Instant)
    requires IsSameDay(later, now)
    ensures !Fires(NextMarker(marker, now), later)
    ensures NextMarker(NextMarker(marker, now), later) == NextMarker(marker, now)
  {
  }

  /** The persisted marker together with the number of times `onReset` has
      been invoked. */
  class DailyResetCheck {
    var lastLogin: Instant
    var resets: nat

    constructor(stored: Option<Instant>, boot: Instant)
      ensures lastLogin == InitialMarker(stored, boot)
      ensures resets == 0
    {
      lastLogin := InitialMarker(stored, boot);
      resets := 0;
    }

    /** The effect body: fire and move the marker to now when the marker is
        on another calendar day, otherwise leave everything as it is. */
    method Run(now: Instant)
      modifies this
      ensures Fires(old(lastLogin), now) ==> resets == old(resets) + 1 && lastLogin == now
      ensures !Fires(old(lastLogin), now) ==> resets == old(resets) && lastLogin == old(lastLogin)
      ensures lastLogin == NextMarker(old(lastLogin), now)
      ensures IsSameDay(lastLogin, now)
    {
      if !IsSameDay(now, lastLogin) {
        resets := resets + 1;
        lastLogin := now;
      }
    }
  }
}
