// The auto-clicker window: its interval and start-delay settings, the
// start/stop toggle, the delayed start of the click timer, and the two
// mutually exclusive mouse-button checkboxes.

module Clicker {
  import opened Optional

  const StartText := "Start (F6)"
  const StopText := "Stop (F6)"

  /** The toggle button's caption while clicking is on or off. */
  function ToggleLabel(clicking: bool): (caption: string)
    ensures caption == StopText <==> clicking
    ensures caption == StartText <==> !clicking
  {
    if clicking then StopText else StartText
  }

  /** The ranges of the four interval spin boxes. */
  predicate IntervalInRange(hours: int, minutes: int, seconds: int, milliseconds: int) {
    0 <= hours <= 23 && 0 <= minutes <= 59 && 0 <= seconds <= 59 && 0 <= milliseconds <= 999
  }

  /** The ranges of the two start-delay spin boxes. */
  predicate DelayInRange(minutes: int, seconds: int) {
    0 <= minutes <= 59 && 0 <= seconds <= 59
  }

  /** The click interval in milliseconds: the whole hours, minutes and
      seconds as seconds, times 1000, plus the milliseconds. */
  function ClickIntervalMs(hours: int, minutes: int, seconds: int, milliseconds: int): (ms: int)
    ensures ms == 1000 * ((hours * 60 + minutes) * 60 + seconds) + milliseconds
  {
    hours * 3600000 + minutes * 60000 + seconds * 1000 + milliseconds
  }

  /** The delay before clicking starts, in milliseconds: the same
      conversion as the interval, with no hours and no milliseconds. */
  function StartDelayMs(minutes: int, seconds: int): (ms: int)
    ensures ms == ClickIntervalMs(0, minutes, seconds, 0)
  {
    minutes * 60000 + seconds * 1000
  }

  /** Within the spin-box ranges the interval lies between 0 and just under
      a day. */
  lemma IntervalBounds(hours: int, minutes: int, seconds: int, milliseconds: int)
    requires IntervalInRange(hours, minutes, seconds, milliseconds)
    ensures 0 <= ClickIntervalMs(hours, minutes, seconds, milliseconds) <= 86399999
  {
  }

  /** Dividing by an hour, a minute or a second in milliseconds splits a
      sum into whole units and the remainder below one unit. */
  lemma DivHour(units: int, rest: int)
    requires 0 <= rest < 3600000
    ensures (units * 3600000 + rest) / 3600000 == units
    ensures (units * 3600000 + rest) % 3600000 == rest
  {
  }

  lemma DivMinute(units: int, rest: int)
    requires 0 <= rest < 60000
    ensures (units * 60000 + rest) / 60000 == units
    ensures (units * 60000 + rest) % 60000 == rest
  {
  }

  lemma DivSecond(units: int, rest: int)
    requires 0 <= rest < 1000
    ensures (units * 1000 + rest) / 1000 == units
    ensures (units * 1000 + rest) % 1000 == rest
  {
  }

  /** Within the spin-box ranges the interval determines every spin box:
      hours, minutes, seconds and milliseconds can be read back from it. */
  lemma IntervalDecodes(hours: int, minutes: int, seconds: int, milliseconds: int)
    requires IntervalInRange(hours, minutes, seconds, milliseconds)
    ensures var ms := ClickIntervalMs(hours, minutes, seconds, milliseconds);
            && ms / 3600000 == hours
            && ms % 3600000 / 60000 == minutes
            && ms % 60000 / 1000 == seconds
            && ms % 1000 == milliseconds
  {
    var belowHour := minutes * 60000 + seconds * 1000 + milliseconds;
    var belowMinute := seconds * 1000 + milliseconds;
    DivHour(hours, belowHour);
    DivMinute(minutes, belowMinute);
    DivMinute(hours * 60 + minutes, belowMinute);
    DivSecond(seconds, milliseconds);
    DivSecond(hours * 3600 + minutes * 60 + seconds, milliseconds);
  }

  /** Two in-range settings give the same interval only if they are equal. */
  lemma IntervalInjective(h1: int, m1: int, s1: int, ms1: int, h2: int, m2: int, s2: int, ms2: int)
    requires IntervalInRange(h1, m1, s1, ms1) && IntervalInRange(h2, m2, s2, ms2)
    requires ClickIntervalMs(h1, m1, s1, ms1) == ClickIntervalMs(h2, m2, s2, ms2)
    ensures h1 == h2 && m1 == m2 && s1 == s2 && ms1 == ms2
  {
    IntervalDecodes(h1, m1, s1, ms1);
    IntervalDecodes(h2, m2, s2, ms2);
  }

  /** Within the spin-box ranges the delay lies between 0 and 3599 seconds,
      and is a whole number of seconds. */
  lemma DelayBounds(minutes: int, seconds: int)
    requires DelayInRange(minutes, seconds)
    ensures 0 <= StartDelayMs(minutes, seconds) <= 3599000
    ensures StartDelayMs(minutes, seconds) % 1000 == 0
  {
  }

  /** Within the spin-box ranges the delay determines both spin boxes. */
  lemma DelayDecodes(minutes: int, seconds: int)
    requires DelayInRange(minutes, seconds)
    ensures StartDelayMs(minutes, seconds) / 60000 == minutes
    ensures StartDelayMs(minutes, seconds) % 60000 / 1000 == seconds
  {
  }

  /** The spin boxes' initial values give a one-second interval and no
      start delay. */
  lemma DefaultTimings()
    ensures ClickIntervalMs(0, 0, 1, 0) == 1000
    ensures StartDelayMs(0, 0) == 0
  {
  }

  /** Clamps a value into a spin box's range, as setting a spin box does. */
  function Clamp(v: int, lo: int, hi: int): (r: int)
    requires lo <= hi
    ensures lo <= r <= hi
    ensures lo <= v <= hi ==> r == v
  {
    if v < lo then lo else if v > hi then hi else v
  }

  datatype MouseButton = Left | Right

  class AutoClickerWindow {
    var isClicking: bool
    var toggleText: string
    var hours: int
    var minutes: int
    var seconds: int
    var milliseconds: int
    var delayMinutes: int
    var delaySeconds: int
    var leftChecked: bool
    var rightChecked: bool
    /** Whether the repeating click timer runs, and its period. */
    var timerActive: bool
    var timerInterval: int
    /** The delays of every one-shot start ever scheduled, in order; a
        scheduled start cannot be cancelled. */
    var scheduledStarts: seq<int>

    /** The spin boxes hold values in their ranges, and the toggle button
        says what pressing it would do. */
    ghost predicate Valid()
      reads this
    {
      && IntervalInRange(hours, minutes, seconds, milliseconds)
      && DelayInRange(delayMinutes, delaySeconds)
      && toggleText == ToggleLabel(isClicking)
      && !(leftChecked && rightChecked)
    }

    constructor ()
      ensures Valid()
      ensures !isClicking && toggleText == StartText
      ensures hours == 0 && minutes == 0 && seconds == 1 && milliseconds == 0
      ensures delayMinutes == 0 && delaySeconds == 0
      ensures leftChecked && !rightChecked
      ensures !timerActive && scheduledStarts == []
    {
      isClicking := false;
      toggleText := StartText;
      hours, minutes, seconds, milliseconds := 0, 0, 1, 0;
      delayMinutes, delaySeconds := 0, 0;
      leftChecked, rightChecked := true, false;
      timerActive, timerInterval := false, 0;
      scheduledStarts := [];
    }

    /** The user sets the interval spin boxes; out-of-range values are
        clamped. */
    method SetInterval(h: int, m: int, s: int, ms: int)
      requires Valid()
      modifies this`hours, this`minutes, this`seconds, this`milliseconds
      ensures Valid()
      ensures hours == Clamp(h, 0, 23) && minutes == Clamp(m, 0, 59)
      ensures seconds == Clamp(s, 0, 59) && milliseconds == Clamp(ms, 0, 999)
    {
      hours, minutes := Clamp(h, 0, 23), Clamp(m, 0, 59);
      seconds, milliseconds := Clamp(s, 0, 59), Clamp(ms, 0, 999);
    }

    /** The user sets the start-delay spin boxes; out-of-range values are
        clamped. */
    method SetStartDelay(m: int, s: int)
      requires Valid()
      modifies this`delayMinutes, this`delaySeconds
      ensures Valid()
      ensures delayMinutes == Clamp(m, 0, 59) && delaySeconds == Clamp(s, 0, 59)
    {
      delayMinutes, delaySeconds := Clamp(m, 0, 59), Clamp(s, 0, 59);
    }

    /** Flips clicking on or off. Turning it on schedules a one-shot start
        after the configured delay; turning it off stops the click timer.
        Either way the button caption follows the new state. */
    method ToggleClicking()
      requires Valid()
      modifies this`isClicking, this`toggleText, this`timerActive, this`scheduledStarts
      ensures Valid()
      ensures isClicking == !old(isClicking)
      ensures isClicking ==> scheduledStarts == old(scheduledStarts) + [StartDelayMs(delayMinutes, delaySeconds)]
                             && timerActive == old(timerActive)
      ensures !isClicking ==> scheduledStarts == old(scheduledStarts) && !timerActive
    {
      isClicking := !isClicking;
      if isClicking {
        var delay := delayMinutes * 60000 + delaySeconds * 1000;
        scheduledStarts := scheduledStarts + [delay];
        toggleText := StopText;
      } else {
        timerActive := false;
        toggleText := StartText;
      }
    }

    /** A scheduled one-shot start fires: the click timer (re)starts with the
        interval the spin boxes hold now. It does not look at whether
        clicking is still on. */
    method StartClicking()
      requires Valid()
      modifies this`timerActive, this`timerInterval
      ensures Valid()
      ensures timerActive
      ensures timerInterval == ClickIntervalMs(hours, minutes, seconds, milliseconds)
      ensures 0 <= timerInterval <= 86399999
    {
      IntervalBounds(hours, minutes, seconds, milliseconds);
      var interval := hours * 3600000 + minutes * 60000 + seconds * 1000 + milliseconds;
      timerActive, timerInterval := true, interval;
    }

    /** The click timer fires: the left button is clicked if its box is
        checked, otherwise the right button if its box is, otherwise none. */
    method PerformClick() returns (click: Option<MouseButton>)
      ensures click == Some(Left) <==> leftChecked
      ensures click == Some(Right) <==> !leftChecked && rightChecked
      ensures click == None <==> !leftChecked && !rightChecked
    {
      if leftChecked {
        click := Some(Left);
      } else if rightChecked {
        click := Some(Right);
      } else {
        click := None;
      }
    }

    /** Sets the left checkbox; only a change of state emits `toggled`,
        whose handler unchecks the right box when the left one becomes
        checked. */
    method SetLeftChecked(checked: bool)
      modifies this`leftChecked, this`rightChecked
      decreases if checked then 3 else 1
      ensures leftChecked == checked
      ensures rightChecked == (if checked && !old(leftChecked) then false else old(rightChecked))
    {
      if leftChecked != checked {
        leftChecked := checked;
        OnLeftClickToggled(checked);
      }
    }

    /** Sets the right checkbox; only a change of state emits `toggled`,
        whose handler unchecks the left box when the right one becomes
        checked. */
    method SetRightChecked(checked: bool)
      modifies this`leftChecked, this`rightChecked
      decreases if checked then 3 else 1
      ensures rightChecked == checked
      ensures leftChecked == (if checked && !old(rightChecked) then false else old(leftChecked))
    {
      if rightChecked != checked {
        rightChecked := checked;
        OnRightClickToggled(checked);
      }
    }

    /** Handler of the left box's `toggled` signal. */
    method OnLeftClickToggled(checked: bool)
      modifies this`leftChecked, this`rightChecked
      decreases if checked then 2 else 0
      ensures leftChecked == old(leftChecked)
      ensures rightChecked == (if checked then false else old(rightChecked))
    {
      if checked {
        SetRightChecked(false);
      }
    }

    /** Handler of the right box's `toggled` signal. */
    method OnRightClickToggled(checked: bool)
      modifies this`leftChecked, this`rightChecked
      decreases if checked then 2 else 0
      ensures rightChecked == old(rightChecked)
      ensures leftChecked == (if checked then false else old(leftChecked))
    {
      if checked {
        SetLeftChecked(false);
      }
    }
  }

  /** Any change to either checkbox keeps at most one box checked, so the
      click timer never has two buttons to choose from. */
  method CheckboxesExclusive(w: AutoClickerWindow, left: bool, checked: bool) returns (both: bool)
    requires w.Valid()
    modifies w`leftChecked, w`rightChecked
    ensures w.Valid()
    ensures !both
    ensures both == (w.leftChecked && w.rightChecked)
  {
    if left {
      w.SetLeftChecked(checked);
    } else {
      w.SetRightChecked(checked);
    }
    both := w.leftChecked && w.rightChecked;
  }

  /** Turning clicking on and straight off again, before the start delay
      elapses, still lets the scheduled start fire: the click timer then
      runs although clicking is off and the button offers to start. */
  method StaleStart() returns (clicking: bool, timerRunning: bool, caption: string)
    ensures !clicking && timerRunning && caption == StartText
  {
    var w := new AutoClickerWindow();
    w.ToggleClicking();
    w.ToggleClicking();
    w.StartClicking();
    clicking, timerRunning, caption := w.isClicking, w.timerActive, w.toggleText;
  }
}
