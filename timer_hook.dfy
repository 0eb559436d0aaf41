/**
 * The `usePomodoroTimer` hook as an object: the state the hook keeps in its
 * `useState` setters and refs becomes one field each, and every command or
 * tick is one atomic method call proved to perform the matching step of
 * TimerSpec. Alarms go to a ghost log instead of being played.
 */
module TimerHook {
  import opened TimerSpec

  class PomodoroTimer {
    const config: Config
    var status: Status
    var remainingSeconds: int
    var cycleCount: int
    var pomodoros: seq<Pomodoro>
    var pausedStatus: RunStatus
    /** Every alarm played so far, oldest first. */
    ghost var alarms: seq<Alarm>

    function State(): TimerState
      reads this
    {
      TimerState(status, remainingSeconds, cycleCount, pomodoros, pausedStatus)
    }

    ghost predicate Valid()
      reads this
    {
      config.Valid() && Inv(config, State())
    }

    constructor (config: Config)
      requires config.Valid()
      ensures Valid() && this.config == config
      ensures State() == Initial(config) && alarms == []
    {
      this.config := config;
      status := Idle;
      remainingSeconds := config.workDuration;
      cycleCount := 0;
      pomodoros := [];
      pausedStatus := Work;
      alarms := [];
    }

    /** `tick`: the step the hook's one-second interval runs. */
    method Tick()
      requires Valid()
      modifies this
      ensures Valid()
      ensures State() == TimerSpec.Tick(config, old(State())).state
      ensures alarms == old(alarms) + TimerSpec.Tick(config, old(State())).alarms
    {
      TickKeepsInv(config, State());
      if status == Idle || status == Paused {
        return;
      }
      var nextRemainingSeconds := remainingSeconds - 1;
      if nextRemainingSeconds > 0 {
        CountDown(nextRemainingSeconds);
      } else {
        Expire();
      }
    }

    /** The part of `tick` that takes one second off a running interval. */
    method CountDown(nextRemainingSeconds: int)
      requires config.Valid() && (status == Work || status == Break)
      requires nextRemainingSeconds == remainingSeconds - 1 > 0
      modifies this
      ensures State() == TimerSpec.Tick(config, old(State())).state
      ensures alarms == old(alarms) + TimerSpec.Tick(config, old(State())).alarms
    {
      var cycleIndex := cycleCount;
      remainingSeconds := nextRemainingSeconds;
      if nextRemainingSeconds <= config.lowAlarmThreshold {
        alarms := alarms + [Low];
      }
      if status == Work {
        pomodoros := UpdatePomodoroColor(pomodoros, cycleIndex, nextRemainingSeconds,
                                         config.workDuration);
      }
    }

    /** The part of `tick` that ends a running interval and starts the next one. */
    method Expire()
      requires config.Valid() && (status == Work || status == Break)
      requires remainingSeconds - 1 <= 0
      modifies this
      ensures State() == TimerSpec.Tick(config, old(State())).state
      ensures alarms == old(alarms) + TimerSpec.Tick(config, old(State())).alarms
    {
      var cycleIndex := cycleCount;
      alarms := alarms + [Completion];

      if status == Break {
        pomodoros := AddPomodoro(pomodoros, cycleIndex);
      } else if status == Work {
        pomodoros := UpdatePomodoroColor(pomodoros, cycleIndex, 0, config.workDuration);
      }

      if status == Work {
        var nextCycleCount := cycleIndex + 1;
        cycleCount := nextCycleCount;
        status := Break;
        var isLongBreak := nextCycleCount % config.maxCycleCount == 0;
        remainingSeconds := if isLongBreak then config.longBreakDuration
                            else config.shortBreakDuration;
      } else {
        status := Work;
        remainingSeconds := config.workDuration;
      }
    }

    /** `handleStart` */
    method HandleStart()
      requires Valid()
      modifies this
      ensures Valid() && alarms == old(alarms)
      ensures State() == Start(config, old(State()))
    {
      StartKeepsInv(config, State());
      if status != Idle {
        return;
      }
      status := Work;
      remainingSeconds := config.workDuration;
      pomodoros := AddPomodoro(pomodoros, cycleCount);
    }

    /** `handlePause` */
    method HandlePause()
      requires Valid()
      modifies this
      ensures Valid() && alarms == old(alarms)
      ensures State() == Pause(old(State()))
    {
      PauseKeepsInv(config, State());
      if status == Work || status == Break {
        pausedStatus := status;
        status := Paused;
      }
    }

    /** `handleResume` */
    method HandleResume()
      requires Valid()
      modifies this
      ensures Valid() && alarms == old(alarms)
      ensures State() == Resume(old(State()))
    {
      ResumeKeepsInv(config, State());
      if status == Paused {
        status := pausedStatus;
      }
    }

    /** `handleReset` */
    method HandleReset()
      requires Valid()
      modifies this
      ensures Valid() && alarms == old(alarms)
      ensures State() == Reset(config, old(State()))
    {
      InitialInv(config);
      remainingSeconds := config.workDuration;
      cycleCount := 0;
      pausedStatus := Work;
      pomodoros := [];
      status := Idle;
    }
  }
}
