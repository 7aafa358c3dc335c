// The foreground watchdog: while the shell waits for a foreground child an
// alarm of 10 seconds is pending; if it goes off first the child is
// terminated. Modelled are the shell's own variables foreground_pid and
// timer_active and the pending alarm; the wait itself and the moment the
// alarm goes off are inputs.

module Watchdog {
  import opened Options

  /** The alarm setup_timer arms, in seconds. */
  const TIMEOUT_SECONDS := 10

  /** How waitpid reports the end of the child. */
  datatype Status = Exited(code: int) | Signaled(signal: int)

  class Controller {
    /** foreground_pid: the child waited for, -1 when there is none. */
    var foregroundPid: int
    /** timer_active. */
    var timerActive: bool
    /** Seconds of the alarm pending for the process, 0 when none is. */
    var alarmSeconds: nat

    /** No foreground child, no timer, no alarm: the state between commands. */
    predicate Idle()
      reads this
    {
      foregroundPid == -1 && !timerActive && alarmSeconds == 0
    }

    /** The state at start-up (shell.c:21-22). */
    constructor()
      ensures Idle()
    {
      foregroundPid := -1;
      timerActive := false;
      alarmSeconds := 0;
    }

    /** setup_timer (shell.c:366-370): mark the timer active and arm the
        alarm. */
    method SetupTimer()
      modifies this
      ensures timerActive && alarmSeconds == TIMEOUT_SECONDS
      ensures foregroundPid == old(foregroundPid)
    {
      timerActive := true;
      alarmSeconds := TIMEOUT_SECONDS;
    }

    /** cancel_timer (shell.c:372-377): disarm the alarm only if the timer is
        still marked active. */
    method CancelTimer()
      modifies this
      ensures !timerActive
      ensures alarmSeconds == if old(timerActive) then 0 else old(alarmSeconds)
      ensures foregroundPid == old(foregroundPid)
    {
      if timerActive {
        alarmSeconds := 0;
        timerActive := false;
      }
    }

    /** The alarm goes off and timer_handler runs (shell.c:356-364): with a
        foreground child it returns that child as the one sent SIGTERM and
        forgets it; otherwise it does nothing. */
    method AlarmFires() returns (terminated: Option<int>)
      modifies this
      ensures alarmSeconds == 0
      ensures old(foregroundPid) > 0 ==> terminated == Some(old(foregroundPid)) && foregroundPid == -1 && !timerActive
      ensures old(foregroundPid) <= 0 ==> terminated == None && foregroundPid == old(foregroundPid) && timerActive == old(timerActive)
    {
      alarmSeconds := 0;
      terminated := None;
      if foregroundPid > 0 {
        terminated := Some(foregroundPid);
        foregroundPid := -1;
        timerActive := false;
      }
    }

    /** The foreground branch of execute_command (shell.c:180-193) for a
        child pid: record it, arm the timer, wait (the alarm going off
        first when expires holds), cancel the timer, forget the child and
        report a nonzero exit. Whether or not the alarm went off, the shell
        is idle again afterwards. */
    method ForegroundWait(pid: int, expires: bool, status: Status) returns (terminated: Option<int>, errorNotice: bool)
      requires pid > 0
      requires Idle()
      modifies this
      ensures Idle()
      ensures terminated == if expires then Some(pid) else None
      ensures errorNotice <==> status.Exited? && status.code != 0
    {
      foregroundPid := pid;
      SetupTimer();
      terminated := None;
      if expires {
        terminated := AlarmFires();
      }
      CancelTimer();
      foregroundPid := -1;
      errorNotice := status.Exited? && status.code != 0;
    }
  }
}
