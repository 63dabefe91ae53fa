/** The pomodoro focus timer: an Idle/Running state machine with a seconds
    counter, driven by the pomodoro button (or the "timer" command) and by a
    one-second periodic tick. */
module Pomodoro {
  import opened Wrappers

  datatype Phase = Idle | Running

  /** The timer state. The periodic tick source is active exactly while the
      phase is `Running`: the controller starts it when it enters `Running`
      and stops it whenever it enters `Idle`. */
  datatype Timer = Timer(phase: Phase, seconds: int)

  /** The state at start-up. */
  const Initial := Timer(Idle, 0)

  /** The message box a transition shows, if any. */
  datatype Notice = Silent | Started(minutes: int) | Stopped | TimesUp

  /** A new state together with the notice it shows. */
  datatype Step = Step(state: Timer, notice: Notice)

  /** A value the minutes dialog can return: it is bounded to [1, 120]. */
  type Minutes = m: int | 1 <= m <= 120 witness 25

  /** The pomodoro button. When idle it asks for a number of minutes
      (`dialog`, `None` when cancelled) and, if given, starts a countdown of
      that many minutes; when running it stops at once, whatever remains. */
  function Toggle(t: Timer, dialog: Option<Minutes>): (r: Step)
    ensures t.phase == Running ==> r.state.phase == Idle && r.notice == Stopped
    ensures t.phase == Idle && dialog.None? ==> r == Step(t, Silent)
    ensures t.phase == Idle && dialog.Some? ==>
      r.state == Timer(Running, 60 * dialog.value) && r.notice == Started(dialog.value)
    ensures r.state.phase == Running ==> 60 <= r.state.seconds <= 7200
  {
    if t.phase == Idle then
      match dialog
      case Some(m) => Step(Timer(Running, m * 60), Started(m))
      case None => Step(t, Silent)
    else
      Step(Timer(Idle, t.seconds), Stopped)
  }

  /** One tick: the counter drops by exactly one second, and the timer goes
      idle, announcing that time is up, once it reaches zero or below. */
  function Tick(t: Timer): (r: Step)
    ensures r.state.seconds == t.seconds - 1
    ensures r.notice == TimesUp <==> t.seconds <= 1
    ensures t.seconds <= 1 ==> r.state.phase == Idle
    ensures t.seconds > 1 ==> r.state.phase == t.phase && r.notice == Silent
  {
    var left := t.seconds - 1;
    if left <= 0 then Step(Timer(Idle, left), TimesUp) else Step(Timer(t.phase, left), Silent)
  }

  /** One second of wall-clock time: the tick fires only while the timer is
      running. */
  function Fire(t: Timer): (r: Step)
    ensures t.phase == Idle ==> r == Step(t, Silent)
  {
    if t.phase == Running then Tick(t) else Step(t, Silent)
  }

  /** The state after `k` seconds, with the number of "time's up" notices
      shown along the way. */
  datatype Run = Run(state: Timer, expiries: nat)

  function Elapse(t: Timer, k: nat): Run
    decreases k
  {
    if k == 0 then Run(t, 0)
    else
      var s := Fire(t);
      var rest := Elapse(s.state, k - 1);
      Run(rest.state, rest.expiries + (if s.notice == TimesUp then 1 else 0))
  }

  /** A running timer with `n` seconds left keeps running for the first
      `n - 1` seconds, goes idle on the `n`-th, announces that exactly once,
      and then stays idle at zero: no tick is processed after expiry. */
  lemma {:induction false} ElapseFromRunning(n: int, k: nat)
    requires n >= 1
    ensures k < n ==> Elapse(Timer(Running, n), k) == Run(Timer(Running, n - k), 0)
    ensures k >= n ==> Elapse(Timer(Running, n), k) == Run(Timer(Idle, 0), 1)
  {
    if k > 0 {
      if n == 1 {
        IdleStaysIdle(Timer(Idle, 0), k - 1);
      } else {
        ElapseFromRunning(n - 1, k - 1);
      }
    }
  }

  /** An idle timer does not change and announces nothing. */
  lemma {:induction false} IdleStaysIdle(t: Timer, k: nat)
    requires t.phase == Idle
    ensures Elapse(t, k) == Run(t, 0)
  {
    if k > 0 {
      IdleStaysIdle(t, k - 1);
    }
  }

  /** Starting with `m` minutes, exactly `60 * m` seconds reach Idle: every
      earlier second leaves the timer running, and the expiry is announced
      exactly once. */
  lemma StartThenCountDown(t: Timer, m: Minutes, k: nat)
    requires t.phase == Idle
    ensures var s := Toggle(t, Some(m)).state;
      && (k < 60 * m ==> Elapse(s, k).state.phase == Running && Elapse(s, k).expiries == 0)
      && (k >= 60 * m ==> Elapse(s, k) == Run(Timer(Idle, 0), 1))
  {
    ElapseFromRunning(60 * m, k);
  }

  /** Stopping and starting again restarts the countdown from the full
      duration chosen the second time, whatever was left before. */
  lemma StopThenRestart(t: Timer, m: Minutes)
    requires t.phase == Running
    ensures Toggle(Toggle(t, None).state, Some(m)).state == Timer(Running, 60 * m)
  {
  }
}
