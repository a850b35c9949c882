/**
  The choice `install` makes between the three POSIX interval timers and
  the signal each of them delivers.
*/
module Timers {
  import opened Wrappers

  /** The interval timers of setitimer(2). */
  datatype Timer = ItimerReal | ItimerVirtual | ItimerProf

  /** The signals the profiler's handler is installed for. */
  datatype Signal = SigAlrm | SigVtalrm | SigProf

  /** What an interval timer counts down. */
  datatype Clock = WallClock | UserTime | CpuTime

  /** setitimer(2): ITIMER_REAL runs in real time, ITIMER_VIRTUAL while the
      process runs in user mode, ITIMER_PROF while the process runs in user
      mode or the system runs on its behalf. */
  function Measures(t: Timer): Clock {
    match t
    case ItimerReal => WallClock
    case ItimerVirtual => UserTime
    case ItimerProf => CpuTime
  }

  /** setitimer(2): the signal sent when each timer expires. */
  function Delivers(t: Timer): Signal {
    match t
    case ItimerReal => SigAlrm
    case ItimerVirtual => SigVtalrm
    case ItimerProf => SigProf
  }

  /** The clock each target name of the command line stands for. */
  function ClockNamed(target: string): Option<Clock> {
    if target == "cpu" then Some(CpuTime)
    else if target == "user" then Some(UserTime)
    else if target == "real" then Some(WallClock)
    else None
  }

  /** The `ttype`/`sigtype` pair `install` hands to the operating system. */
  datatype Selection = Selection(timer: Timer, signal: Signal)

  /** The `if`/`elif` chain of `install`; `None` stands for the missing
      `else`, after which `sigtype` is never bound. */
  function SelectTimer(target: string): (r: Option<Selection>)
    ensures r.None? <==> ClockNamed(target).None?
    ensures r.Some? ==> ClockNamed(target) == Some(Measures(r.value.timer))
    ensures r.Some? ==> r.value.signal == Delivers(r.value.timer)
  {
    if target == "cpu" then Some(Selection(ItimerProf, SigProf))
    else if target == "user" then Some(Selection(ItimerVirtual, SigVtalrm))
    else if target == "real" then Some(Selection(ItimerReal, SigAlrm))
    else None
  }
}
