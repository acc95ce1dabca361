/**
 * The Pomodoro timer of src/hooks/use-pomodoro.tsx, in two layers:
 * `PomodoroTimer` holds the records and the pure decisions and transitions
 * (what one tick, one mode switch, one toggle does to the state record),
 * and `Pomodoro` holds the provider object whose fields those operations
 * replace step by step.
 */
module PomodoroTimer {
  import opened Wrappers

  datatype Mode = Focus | ShortBreak | LongBreak

  /** Durations are in minutes. Nothing validates them: zero and negative values are accepted. */
  datatype Settings = Settings(
    focusDuration: int,
    shortBreakDuration: int,
    longBreakDuration: int,
    sessionsUntilLongBreak: int)

  /** A `Partial<PomodoroSettings>`: `None` marks a field the caller did not supply. */
  datatype SettingsPatch = SettingsPatch(
    focusDuration: Option<int>,
    shortBreakDuration: Option<int>,
    longBreakDuration: Option<int>,
    sessionsUntilLongBreak: Option<int>)

  /** The countdown record the provider keeps beside its settings. */
  datatype TimerState = TimerState(minutes: int, seconds: int, isActive: bool, mode: Mode, sessionCount: int)

  /** What an interval completion announces: the toast's title and the text shared by toast and desktop notification. */
  datatype Notice = Notice(title: string, text: string)

  /** The new state record after one tick, and the notice it raised, if any. */
  datatype Ticked = Ticked(timer: TimerState, notice: Option<Notice>)

  const DefaultSettings: Settings := Settings(25, 5, 15, 4)

  /** Settings at start-up: the stored record when there is one, otherwise 25/5/15/4. */
  function InitialSettings(stored: Option<Settings>): (r: Settings)
    ensures stored.Some? ==> r == stored.value
    ensures stored.None? ==> (r.focusDuration == 25 && r.shortBreakDuration == 5
                              && r.longBreakDuration == 15 && r.sessionsUntilLongBreak == 4)
  {
    stored.GetOr(DefaultSettings)
  }

  /** The state record at start-up: a stopped focus interval at full length, no session done. */
  function InitialState(st: Settings): (r: TimerState)
    ensures r.mode == Focus && !r.isActive && r.sessionCount == 0
    ensures r.minutes == st.focusDuration && r.seconds == 0
  {
    TimerState(st.focusDuration, 0, false, Focus, 0)
  }

  /** The configured length, in minutes, of an interval of mode `m`. */
  function Duration(st: Settings, m: Mode): (r: int)
    ensures m.Focus? ==> r == st.focusDuration
    ensures m.ShortBreak? ==> r == st.shortBreakDuration
    ensures m.LongBreak? ==> r == st.longBreakDuration
  {
    match m
    case Focus => st.focusDuration
    case ShortBreak => st.shortBreakDuration
    case LongBreak => st.longBreakDuration
  }

  /** Seconds left on the countdown, as the timer page computes it. */
  function Remaining(t: TimerState): int {
    t.minutes * 60 + t.seconds
  }

  /** The shape every reachable state record has. */
  predicate WellFormed(t: TimerState) {
    0 <= t.seconds <= 59 && t.sessionCount >= 0
  }

  /** The tick finds neither seconds nor minutes left to count down, so the interval is over. */
  predicate AtZero(t: TimerState) {
    !(t.seconds > 0) && !(t.minutes > 0)
  }

  /** Stopped and showing the full length of its mode. */
  predicate Armed(st: Settings, t: TimerState) {
    !t.isActive && t.minutes == Duration(st, t.mode) && t.seconds == 0
  }

  function Abs(x: int): nat {
    if x < 0 then -x else x
  }

  /**
   * JavaScript's `a % b` on integers: the remainder of truncating division, which takes the
   * sign of the dividend. `None` stands for NaN, which is what a zero divisor yields.
   */
  function JsRemainder(a: int, b: int): (r: Option<int>)
    ensures r.None? <==> b == 0
    ensures r.Some? ==> Abs(r.value) < Abs(b)
    ensures r.Some? ==> (a >= 0 ==> r.value >= 0) && (a <= 0 ==> r.value <= 0)
    ensures r.Some? && a >= 0 ==> r.value == a % b
  {
    if b == 0 then None
    else if a >= 0 then Some(a % b)
    else Some(-((-a) % b))
  }

  /** `newSessionCount % sessionsUntilLongBreak === 0`; a NaN remainder never equals 0. */
  predicate LongBreakDue(newSessionCount: int, sessionsUntilLongBreak: int)
    ensures LongBreakDue(newSessionCount, sessionsUntilLongBreak) ==> sessionsUntilLongBreak != 0
    ensures newSessionCount >= 0 && sessionsUntilLongBreak != 0 ==>
              (LongBreakDue(newSessionCount, sessionsUntilLongBreak) <==> newSessionCount % sessionsUntilLongBreak == 0)
  {
    JsRemainder(newSessionCount, sessionsUntilLongBreak) == Some(0)
  }

  /** A long break is due exactly when the divisor is non-zero and divides the count. */
  lemma LongBreakDueIff(n: int, k: int)
    ensures LongBreakDue(n, k) <==> k != 0 && n % k == 0
  {
    if k != 0 && n < 0 {
      assert (-n) % k == 0 <==> n % k == 0 by {
        assert n - (-n) == 2 * n;
        NegatedRemainder(n, k);
      }
    }
  }

  lemma NegatedRemainder(n: int, k: int)
    requires k != 0
    ensures (-n) % k == 0 <==> n % k == 0
  {
    if n % k == 0 {
      var q := n / k;
      assert n == q * k;
      assert -n == (-q) * k;
      DivisibleByMultiple(-n, -q, k);
    }
    if (-n) % k == 0 {
      var q := (-n) / k;
      assert -n == q * k;
      assert n == (-q) * k;
      DivisibleByMultiple(n, -q, k);
    }
  }

  lemma DivisibleByMultiple(a: int, q: int, k: int)
    requires k != 0 && a == q * k
    ensures a % k == 0
  {
    var r := a % k;
    var d := a / k;
    assert a == d * k + r;
    assert 0 <= r < Abs(k);
    assert (q - d) * k == r;
    if q - d != 0 {
      assert Abs((q - d) * k) >= Abs(k) by { MulAbs(q - d, k); }
    }
  }

  lemma MulAbs(x: int, k: int)
    requires x != 0 && k != 0
    ensures Abs(x * k) >= Abs(k)
  {
    if x > 0 && k > 0 { assert x * k >= k; }
    else if x > 0 && k < 0 { assert x * k <= k; }
    else if x < 0 && k > 0 { assert x * k <= -k; }
    else { assert x * k >= -k; }
  }

  /** The mode that follows a completed interval of mode `m`, given the session count after it. */
  function NextMode(m: Mode, newSessionCount: int, sessionsUntilLongBreak: int): (r: Mode)
    ensures m != Focus ==> r == Focus
    ensures m == Focus ==> r != Focus && (r == LongBreak <==> LongBreakDue(newSessionCount, sessionsUntilLongBreak))
  {
    if m == Focus then
      if LongBreakDue(newSessionCount, sessionsUntilLongBreak) then LongBreak else ShortBreak
    else Focus
  }

  /** `getModeName`: the label shown for each mode. */
  function ModeName(m: Mode): (r: string)
    ensures r == "Focus" <==> m == Focus
    ensures r == "Short Break" <==> m == ShortBreak
    ensures r == "Long Break" <==> m == LongBreak
  {
    match m
    case Focus => "Focus"
    case ShortBreak => "Short Break"
    case LongBreak => "Long Break"
  }

  /** The body of the completion notice: a break is announced exactly when a focus interval ends. */
  function NotificationText(finished: Mode): (r: string)
    ensures r == "Time for a break!" <==> finished == Focus
    ensures r != "Time for a break!" ==> r == "Time to get back to focus!"
  {
    if finished == Focus then "Time for a break!" else "Time to get back to focus!"
  }

  /** The notice raised when an interval of mode `finished` completes. */
  function Notify(finished: Mode): (r: Notice)
    ensures r.title == "\U{1F514} " + ModeName(finished) + " Finished!"
    ensures r.text == NotificationText(finished)
  {
    Notice("\U{1F514} " + ModeName(finished) + " Finished!", NotificationText(finished))
  }

  /** `setSettings(partial)`: the supplied fields replace the old ones, the others stay. */
  function Merge(st: Settings, p: SettingsPatch): (r: Settings)
    ensures p.focusDuration.Some? ==> r.focusDuration == p.focusDuration.value
    ensures p.focusDuration.None? ==> r.focusDuration == st.focusDuration
    ensures p.shortBreakDuration.Some? ==> r.shortBreakDuration == p.shortBreakDuration.value
    ensures p.shortBreakDuration.None? ==> r.shortBreakDuration == st.shortBreakDuration
    ensures p.longBreakDuration.Some? ==> r.longBreakDuration == p.longBreakDuration.value
    ensures p.longBreakDuration.None? ==> r.longBreakDuration == st.longBreakDuration
    ensures p.sessionsUntilLongBreak.Some? ==> r.sessionsUntilLongBreak == p.sessionsUntilLongBreak.value
    ensures p.sessionsUntilLongBreak.None? ==> r.sessionsUntilLongBreak == st.sessionsUntilLongBreak
  {
    Settings(
      p.focusDuration.GetOr(st.focusDuration),
      p.shortBreakDuration.GetOr(st.shortBreakDuration),
      p.longBreakDuration.GetOr(st.longBreakDuration),
      p.sessionsUntilLongBreak.GetOr(st.sessionsUntilLongBreak))
  }

  /** Applying the same patch twice is applying it once; an empty patch changes nothing. */
  lemma MergeIdempotent(st: Settings, p: SettingsPatch)
    ensures Merge(Merge(st, p), p) == Merge(st, p)
    ensures Merge(st, SettingsPatch(None, None, None, None)) == st
  {
  }

  /**
   * `switchMode(m)`: its first updater stops the timer and sets the mode, its second
   * sets the countdown to the configured length of `m`.
   */
  function SwitchModeState(st: Settings, t: TimerState, m: Mode): (r: TimerState)
    ensures r.mode == m && Armed(st, r)
    ensures Remaining(r) == Duration(st, m) * 60
    ensures r.sessionCount == t.sessionCount
    ensures WellFormed(t) ==> WellFormed(r)
  {
    var stopped := t.(isActive := false, mode := m);
    match m
    case Focus => stopped.(minutes := st.focusDuration, seconds := 0)
    case ShortBreak => stopped.(minutes := st.shortBreakDuration, seconds := 0)
    case LongBreak => stopped.(minutes := st.longBreakDuration, seconds := 0)
  }

  /** The effect that runs after settings, mode or `isActive` change: a stopped timer is re-armed. */
  function Rearm(st: Settings, t: TimerState): (r: TimerState)
    ensures t.isActive ==> r == t
    ensures !t.isActive ==> Armed(st, r) && r.mode == t.mode && r.sessionCount == t.sessionCount
    ensures WellFormed(t) ==> WellFormed(r)
  {
    if !t.isActive then SwitchModeState(st, t, t.mode) else t
  }

  /** Re-arming a state that a mode switch has just produced changes nothing. */
  lemma RearmAfterSwitch(st: Settings, t: TimerState, m: Mode)
    ensures Rearm(st, SwitchModeState(st, t, m)) == SwitchModeState(st, t, m)
  {
  }

  /** The start-up state is already armed, so the effect's first run leaves it as it is. */
  lemma InitialStateArmed(st: Settings)
    ensures Rearm(st, InitialState(st)) == InitialState(st)
  {
  }

  /** A settings change while stopped re-arms the countdown at the current mode's new length. */
  lemma IdleSettingsChange(st: Settings, t: TimerState, p: SettingsPatch)
    requires !t.isActive
    ensures Remaining(Rearm(Merge(st, p), t)) == Duration(Merge(st, p), t.mode) * 60
    ensures t.mode == Focus && p.focusDuration.Some? ==> Remaining(Rearm(Merge(st, p), t)) == p.focusDuration.value * 60
  {
  }

  /**
   * A settings change while running leaves the countdown alone, so shortening the current
   * mode mid-run leaves more time on the clock than the new length.
   */
  lemma RunningSettingsChange(st: Settings, t: TimerState, p: SettingsPatch)
    requires t.isActive
    ensures Rearm(Merge(st, p), t) == t
    ensures var running := TimerState(25, 0, true, Focus, 0);
            var shorter := Merge(DefaultSettings, SettingsPatch(Some(5), None, None, None));
            Remaining(Rearm(shorter, running)) > Duration(shorter, Focus) * 60
  {
  }

  /**
   * `toggleTimer` followed by the re-arm effect: starting keeps the countdown where it is,
   * pausing throws the elapsed part of the interval away.
   */
  function Toggle(st: Settings, t: TimerState): (r: TimerState)
    ensures !t.isActive ==> r == t.(isActive := true)
    ensures t.isActive ==> r == SwitchModeState(st, t, t.mode)
  {
    Rearm(st, t.(isActive := !t.isActive))
  }

  /** Start then pause: the timer ends up stopped at the full length of its mode. */
  lemma {:induction false} StartThenPause(st: Settings, t: TimerState)
    requires !t.isActive
    ensures Toggle(st, Toggle(st, t)) == SwitchModeState(st, t, t.mode)
    ensures Toggle(st, Toggle(st, t)) == t <==> Armed(st, t)
  {
    var started := Toggle(st, t);
    assert started == t.(isActive := true);
    assert Toggle(st, started) == SwitchModeState(st, started, started.mode);
  }

  /**
   * The interval callback's updater, with the `switchMode` updaters it queues applied after it.
   * While time is left it counts `minutes:seconds` down by one second, borrowing a minute when
   * the seconds are 0; otherwise the interval completes.
   */
  function Tick(st: Settings, t: TimerState): (r: Ticked)
    ensures !AtZero(t) ==> r.notice == None
    ensures !AtZero(t) && WellFormed(t) ==> Remaining(r.timer) == Remaining(t) - 1
    ensures !AtZero(t) ==> (r.timer.mode == t.mode && r.timer.isActive == t.isActive
                            && r.timer.sessionCount == t.sessionCount)
    ensures !AtZero(t) && t.minutes >= 0 ==> r.timer.minutes >= 0
    ensures AtZero(t) ==> r.notice == Some(Notify(t.mode)) && Armed(st, r.timer)
    ensures AtZero(t) && t.mode == Focus ==>
              r.timer.sessionCount == t.sessionCount + 1 && r.timer.mode != Focus
              && (r.timer.mode == LongBreak <==> LongBreakDue(t.sessionCount + 1, st.sessionsUntilLongBreak))
    ensures AtZero(t) && t.mode != Focus ==> r.timer.sessionCount == t.sessionCount && r.timer.mode == Focus
    ensures WellFormed(t) ==> WellFormed(r.timer)
  {
    if t.seconds > 0 then
      Ticked(t.(seconds := t.seconds - 1), None)
    else if t.minutes > 0 then
      Ticked(t.(minutes := t.minutes - 1, seconds := 59), None)
    else if t.mode == Focus then
      var newSessionCount := t.sessionCount + 1;
      var done := t.(sessionCount := newSessionCount, isActive := false);
      Ticked(SwitchModeState(st, done, NextMode(Focus, newSessionCount, st.sessionsUntilLongBreak)), Some(Notify(t.mode)))
    else
      Ticked(SwitchModeState(st, t.(isActive := false), Focus), Some(Notify(t.mode)))
  }

  /** The state record after `n` ticks. */
  function Ticks(st: Settings, t: TimerState, n: nat): TimerState
    decreases n
  {
    if n == 0 then t else Ticks(st, Tick(st, t).timer, n - 1)
  }

  lemma SplitSeconds(m: int, s: int)
    requires 0 <= s < 60
    ensures (m * 60 + s) / 60 == m && (m * 60 + s) % 60 == s
  {
  }

  /**
   * While time is left, `k` ticks take `k` seconds off the countdown and touch nothing else:
   * the display then shows the remaining seconds split into minutes and seconds.
   */
  lemma {:induction false} CountdownAfter(st: Settings, t: TimerState, k: nat)
    requires WellFormed(t) && t.minutes >= 0 && k <= Remaining(t)
    ensures Ticks(st, t, k) == t.(minutes := (Remaining(t) - k) / 60, seconds := (Remaining(t) - k) % 60)
    decreases k
  {
    if k == 0 {
      SplitSeconds(t.minutes, t.seconds);
    } else {
      var next := Tick(st, t).timer;
      CountdownAfter(st, next, k - 1);
    }
  }

  /**
   * An interval armed at `d >= 0` minutes runs `d * 60` ticks without completing, shows 0:00
   * after them, and completes on the next tick: it lasts `d * 60 + 1` ticks.
   */
  lemma {:induction false} IntervalLength(st: Settings, t: TimerState)
    requires t.minutes == Duration(st, t.mode) && t.seconds == 0 && t.minutes >= 0 && t.sessionCount >= 0
    ensures forall k: nat :: k < t.minutes * 60 ==> !AtZero(Ticks(st, t, k)) && Ticks(st, t, k).mode == t.mode
    ensures AtZero(Ticks(st, t, t.minutes * 60))
    ensures Tick(st, Ticks(st, t, t.minutes * 60)).notice == Some(Notify(t.mode))
  {
    var n := t.minutes * 60;
    forall k: nat | k < n
      ensures !AtZero(Ticks(st, t, k)) && Ticks(st, t, k).mode == t.mode
    {
      CountdownAfter(st, t, k);
    }
    CountdownAfter(st, t, n);
  }

  /** With the default settings, one second before the end of the first focus interval. */
  lemma FirstFocusScenario()
    ensures Tick(DefaultSettings, TimerState(0, 1, true, Focus, 0)) == Ticked(TimerState(0, 0, true, Focus, 0), None)
    ensures Tick(DefaultSettings, TimerState(0, 0, true, Focus, 0)).timer == TimerState(5, 0, false, ShortBreak, 1)
    ensures Tick(DefaultSettings, TimerState(0, 0, true, Focus, 0)).notice.value.text == "Time for a break!"
  {
    assert LongBreakDue(1, 4) == false by { assert JsRemainder(1, 4) == Some(1); }
  }

  /** With the default settings, the fourth completed focus interval is followed by a long break. */
  lemma FourthFocusScenario()
    ensures Tick(DefaultSettings, TimerState(0, 0, true, Focus, 3)).timer == TimerState(15, 0, false, LongBreak, 4)
  {
  }

  /** With `sessionsUntilLongBreak` set to 0, a focus interval is always followed by a short break. */
  lemma NoLongBreakWhenZero(st: Settings, t: TimerState)
    requires st.sessionsUntilLongBreak == 0 && AtZero(t) && t.mode == Focus
    ensures Tick(st, t).timer.mode == ShortBreak
  {
  }
}

/** The provider object: the settings and state records and the storage copy it keeps. */
module Pomodoro {
  import opened Wrappers
  import opened PomodoroTimer

  class PomodoroProvider {
    var settings: Settings
    var state: TimerState
    /** The settings record last written to storage, as the effect writes it after every change. */
    var saved: Option<Settings>

    ghost predicate Valid()
      reads this
    {
      WellFormed(state) && saved == Some(settings)
    }

    /** Mounting: settings from storage or the defaults, a stopped focus interval, then the first effect run. */
    constructor (stored: Option<Settings>)
      ensures Valid()
      ensures settings == InitialSettings(stored)
      ensures state == InitialState(settings)
    {
      var initial := stored.GetOr(DefaultSettings);
      settings := initial;
      state := TimerState(initial.focusDuration, 0, false, Focus, 0);
      saved := None;
      new;
      RearmEffect();
    }

    /** `switchMode(newMode)`. */
    method SwitchMode(newMode: Mode)
      requires Valid()
      modifies this
      ensures Valid() && settings == old(settings) && saved == old(saved)
      ensures state == SwitchModeState(settings, old(state), newMode)
    {
      state := state.(isActive := false, mode := newMode);
      if newMode == Focus {
        state := state.(minutes := settings.focusDuration, seconds := 0);
      } else if newMode == ShortBreak {
        state := state.(minutes := settings.shortBreakDuration, seconds := 0);
      } else if newMode == LongBreak {
        state := state.(minutes := settings.longBreakDuration, seconds := 0);
      }
    }

    /** The effect on settings, `isActive` and mode: write the settings out, re-arm a stopped timer. */
    method RearmEffect()
      requires WellFormed(state)
      modifies this
      ensures Valid() && settings == old(settings)
      ensures state == Rearm(settings, old(state))
    {
      saved := Some(settings);
      if !state.isActive {
        SwitchMode(state.mode);
      }
    }

    /** One run of the interval callback. */
    method Tick() returns (notice: Option<Notice>)
      requires Valid()
      modifies this
      ensures Valid() && settings == old(settings)
      ensures Ticked(state, notice) == PomodoroTimer.Tick(old(settings), old(state))
    {
      var s := state;
      if s.seconds > 0 {
        state := s.(seconds := s.seconds - 1);
        return None;
      }
      if s.minutes > 0 {
        state := s.(minutes := s.minutes - 1, seconds := 59);
        return None;
      }
      notice := Some(Notify(s.mode));
      if s.mode == Focus {
        var newSessionCount := s.sessionCount + 1;
        state := s.(sessionCount := newSessionCount, isActive := false);
        if LongBreakDue(newSessionCount, settings.sessionsUntilLongBreak) {
          SwitchMode(LongBreak);
        } else {
          SwitchMode(ShortBreak);
        }
      } else {
        state := s.(isActive := false);
        SwitchMode(Focus);
      }
      RearmEffect();
    }

    /** `toggleTimer`, followed by the effect its change of `isActive` triggers. */
    method ToggleTimer()
      requires Valid()
      modifies this
      ensures Valid() && settings == old(settings)
      ensures state == Toggle(settings, old(state))
    {
      state := state.(isActive := !state.isActive);
      RearmEffect();
    }

    /** `resetTimer(newMode = mode)`. */
    method ResetTimer(newMode: Option<Mode>)
      requires Valid()
      modifies this
      ensures Valid() && settings == old(settings)
      ensures state == SwitchModeState(settings, old(state), newMode.GetOr(old(state).mode))
    {
      SwitchMode(newMode.GetOr(state.mode));
    }

    /** `setSettings(partial)`, followed by the effect its new settings record triggers. */
    method SetSettings(patch: SettingsPatch)
      requires Valid()
      modifies this
      ensures Valid()
      ensures settings == Merge(old(settings), patch)
      ensures state == Rearm(settings, old(state))
    {
      settings := Merge(settings, patch);
      RearmEffect();
    }
  }
}
