/**
 * The toast's auto-dismiss timer over integer milliseconds. The clock is
 * the field `clock`, advanced by the `dt` each event carries, so `Date.now()`
 * never goes backwards here; the three refs are the fields `hasInterval`
 * (with `running` telling whether that interval is still scheduled),
 * `startTime` and `remaining`.
 */
module Toasts {
  import opened Wrappers

  /** The toast's look; the prop may also be absent. */
  datatype Variant = Default | Destructive | Success

  /** The default of the `duration` prop, in milliseconds. */
  const DefaultDuration := 5000

  /** `getProgressColor`: green for success, red for destructive, blue for anything else. */
  function ProgressColor(variant: Option<Variant>): (color: string)
    ensures color == "bg-green-500" <==> variant == Some(Success)
    ensures color == "bg-red-500" <==> variant == Some(Destructive)
    ensures color == "bg-blue-500" <==> variant != Some(Success) && variant != Some(Destructive)
  {
    match variant
    case Some(Success) => "bg-green-500"
    case Some(Destructive) => "bg-red-500"
    case _ => "bg-blue-500"
  }

  /** `handleClick`: `onClick` runs only for a clickable toast that has one, and not from inside the close button. */
  function ClickCallsOnClick(insideClose: bool, clickable: bool, hasOnClick: bool): (calls: bool)
    ensures calls <==> !insideClose && clickable && hasOnClick
  {
    if insideClose then false else clickable && hasOnClick
  }

  /** `Math.max(0, stored - elapsed)`: what is left of `stored` after `elapsed`. */
  function Countdown(stored: int, elapsed: int): (r: int)
    ensures r >= 0
    ensures elapsed >= 0 && stored >= 0 ==> r <= stored
    ensures r == 0 <==> stored <= elapsed
    ensures stored > elapsed ==> r == stored - elapsed
  {
    if stored - elapsed < 0 then 0 else stored - elapsed
  }

  /**
   * Pausing loses no time: counting down `e1`, storing the result and then
   * counting down `e2` leaves what counting down `e1 + e2` at once leaves.
   */
  lemma CountdownSplit(stored: int, e1: nat, e2: nat)
    ensures Countdown(Countdown(stored, e1), e2) == Countdown(stored, e1 + e2)
  {
    if stored - e1 < 0 {
      assert Countdown(stored, e1) == 0;
    }
  }

  class Toast {
    /** The `duration` prop; it does not change while the toast is up. */
    const duration: int
    var clock: nat
    var isPaused: bool
    /** `intervalRef.current` holds an id: set by the first start and never reset, since `clearInterval` leaves it. */
    var hasInterval: bool
    /** The interval behind that id is still scheduled. */
    var running: bool
    var startTime: nat
    var remaining: int
    /** The remaining time the last tick computed; the bar's width is `shown / duration`. */
    var shown: int

    ghost predicate Valid()
      reads this
    {
      && (duration <= 0 ==> !hasInterval && remaining == duration && shown == duration)
      && (duration > 0 ==> 0 <= remaining <= duration && 0 <= shown <= duration)
      && (running ==> hasInterval && !isPaused)
      && (isPaused ==> hasInterval)
      && (hasInterval ==> duration > 0 && startTime <= clock)
    }

    /** Mounting, with the effect's first run: a positive duration starts the timer at once. */
    constructor(duration: int := DefaultDuration)
      ensures Valid()
      ensures this.duration == duration && clock == 0 && !isPaused
      ensures remaining == duration && shown == duration
      ensures running <==> duration > 0
      ensures hasInterval <==> duration > 0
      ensures startTime == 0
    {
      this.duration := duration;
      clock, isPaused, remaining, shown, startTime := 0, false, duration, duration, 0;
      hasInterval, running := duration > 0, duration > 0;
    }

    /** The progress bar renders only for a positive duration; without one no timer ever runs, so `onClose` is never called by it. */
    function ShowsProgressBar(): (shows: bool)
      requires Valid()
      reads this
      ensures shows <==> duration > 0
      ensures !shows ==> !hasInterval && !running && !isPaused
    {
      duration > 0
    }

    /**
     * The interval fires `dt` ms after the previous event: it recomputes the
     * remaining time from the stored one and, when nothing is left, clears
     * itself and calls `onClose` (`closes`).
     */
    method Tick(dt: nat) returns (closes: bool)
      requires Valid() && running
      modifies this
      ensures Valid()
      ensures clock == old(clock) + dt
      ensures shown == Countdown(remaining, clock - startTime)
      ensures closes <==> shown == 0
      ensures closes <==> remaining <= clock - startTime
      ensures running <==> !closes
      ensures (isPaused, hasInterval, startTime, remaining) == old((isPaused, hasInterval, startTime, remaining))
    {
      clock := clock + dt;
      var elapsed := clock - startTime;
      var r := Countdown(remaining, elapsed);
      shown := r;
      closes := false;
      if r <= 0 {
        running := false;
        closes := true;
      }
    }

    /**
     * `handleMouseEnter`, `dt` ms after the previous event: while an interval
     * id exists, the interval is cleared, the time since the last start is
     * taken off the stored remaining time, and the toast pauses.
     */
    method MouseEnter(dt: nat)
      requires Valid()
      modifies this
      ensures Valid()
      ensures clock == old(clock) + dt
      ensures remaining <= old(remaining)
      ensures !old(hasInterval) ==> (isPaused, running, remaining) == old((isPaused, running, remaining))
      ensures old(hasInterval) ==> isPaused && !running && remaining == Countdown(old(remaining), clock - startTime)
      ensures (hasInterval, startTime, shown) == old((hasInterval, startTime, shown))
    {
      clock := clock + dt;
      if hasInterval {
        running := false;
        remaining := Countdown(remaining, clock - startTime);
        isPaused := true;
      }
    }

    /**
     * `handleMouseLeave`, `dt` ms after the previous event. Unpausing re-runs
     * the effect, which starts a fresh interval whose countdown begins now
     * from the stored remaining time; when not paused nothing changes.
     */
    method MouseLeave(dt: nat)
      requires Valid()
      modifies this
      ensures Valid()
      ensures clock == old(clock) + dt && !isPaused
      ensures (hasInterval, remaining, shown) == old((hasInterval, remaining, shown))
      ensures old(isPaused) ==> running && startTime == clock
      ensures !old(isPaused) ==> running == old(running) && startTime == old(startTime)
    {
      clock := clock + dt;
      if isPaused {
        isPaused := false;
        startTime, running := clock, true;
      }
    }

    /**
     * The effect re-runs `dt` ms after the previous event because the parent
     * passed a new `onClose`: the cleanup clears the interval and, unless
     * paused, a fresh one starts now from the stored remaining time, which
     * the running timer had not updated.
     */
    method RestartEffect(dt: nat)
      requires Valid()
      modifies this
      ensures Valid()
      ensures clock == old(clock) + dt
      ensures (isPaused, remaining, shown) == old((isPaused, remaining, shown))
      ensures duration > 0 && !isPaused ==> running && hasInterval && startTime == clock
      ensures duration <= 0 || isPaused ==> !running && hasInterval == old(hasInterval) && startTime == old(startTime)
    {
      clock := clock + dt;
      running := false;
      if duration > 0 && !isPaused {
        startTime, running, hasInterval := clock, true, true;
      }
    }
  }
}
