/**
 * The state machine of the Pomodoro timer hook as pure functions: one value
 * per step (a command or a one-second tick), the alarms a step raises, the
 * invariant every reachable state satisfies, and the values the hook derives
 * for display.
 */
module TimerSpec {
  import opened PomodoroUtils

  datatype Status = Idle | Work | Break | Paused

  /** The two statuses a pause can come from. */
  type RunStatus = s: Status | s == Work || s == Break witness Work

  /** The durations and thresholds the hook takes from its constants module. */
  datatype Config = Config(
    workDuration: int,
    shortBreakDuration: int,
    longBreakDuration: int,
    maxCycleCount: int,
    lowAlarmThreshold: int)
  {
    predicate Valid() {
      workDuration > 0 && shortBreakDuration > 0 && longBreakDuration > 0 &&
      maxCycleCount > 0 && lowAlarmThreshold > 0
    }
  }

  datatype Pomodoro = Pomodoro(id: int, color: Rgb)

  datatype Alarm = Low | Completion

  datatype TimerState = TimerState(
    status: Status,
    remainingSeconds: int,
    cycleCount: int,
    pomodoros: seq<Pomodoro>,
    pausedStatus: RunStatus)

  /** The state after a step and the alarms the step plays, in order. */
  datatype Step = Step(state: TimerState, alarms: seq<Alarm>)

  // ---------------------------------------------------------------------------
  // The pomodoro list
  // ---------------------------------------------------------------------------

  predicate HasId(ps: seq<Pomodoro>, id: int) {
    exists i :: 0 <= i < |ps| && ps[i].id == id
  }

  predicate DistinctIds(ps: seq<Pomodoro>) {
    forall i, j :: 0 <= i < j < |ps| ==> ps[i].id != ps[j].id
  }

  /** The ids are 0, 1, ..., count - 1 in this order. */
  predicate IdsCountUp(ps: seq<Pomodoro>, count: int) {
    |ps| == count && forall i :: 0 <= i < |ps| ==> ps[i].id == i
  }

  /**
   * `addPomodoro`: appends a pomodoro with the base colour unless one with
   * that id is already present. Existing entries are never touched.
   */
  function AddPomodoro(ps: seq<Pomodoro>, cycleIndex: int): (r: seq<Pomodoro>)
    ensures |ps| <= |r| <= |ps| + 1 && r[..|ps|] == ps
    ensures HasId(r, cycleIndex)
    ensures |r| == |ps| <==> HasId(ps, cycleIndex)
    ensures |r| > |ps| ==> r[|ps|] == Pomodoro(cycleIndex, BasePomodoroColor)
  {
    if HasId(ps, cycleIndex) then ps
    else
      var r := ps + [Pomodoro(cycleIndex, BasePomodoroColor)];
      assert r[|ps|].id == cycleIndex;
      r
  }

  /**
   * `updatePomodoroColor`: gives every pomodoro with id `cycleIndex` the colour
   * for `remainingSeconds` of a work interval; the list keeps its length and
   * order, every id, and every other entry.
   */
  function UpdatePomodoroColor(ps: seq<Pomodoro>, cycleIndex: int, remainingSeconds: int,
                               workDuration: int): (r: seq<Pomodoro>)
    requires workDuration > 0
    ensures |r| == |ps|
    ensures forall i :: 0 <= i < |r| ==> r[i].id == ps[i].id
    ensures forall i :: 0 <= i < |r| && ps[i].id != cycleIndex ==> r[i] == ps[i]
    ensures forall i :: 0 <= i < |r| && ps[i].id == cycleIndex ==>
              r[i].color == ColorForRemainingSeconds(remainingSeconds, workDuration)
  {
    if ps == [] then []
    else
      var head := if ps[0].id == cycleIndex
                  then ps[0].(color := ColorForRemainingSeconds(remainingSeconds, workDuration))
                  else ps[0];
      [head] + UpdatePomodoroColor(ps[1..], cycleIndex, remainingSeconds, workDuration)
  }

  /** Adding an id that is already there changes nothing, so a second add is a no-op. */
  lemma AddPomodoroIdempotent(ps: seq<Pomodoro>, cycleIndex: int)
    ensures AddPomodoro(AddPomodoro(ps, cycleIndex), cycleIndex) == AddPomodoro(ps, cycleIndex)
  {
  }

  /** `addPomodoro` never creates a duplicate id. */
  lemma AddPomodoroKeepsIdsDistinct(ps: seq<Pomodoro>, cycleIndex: int)
    requires DistinctIds(ps)
    ensures DistinctIds(AddPomodoro(ps, cycleIndex))
  {
    var r := AddPomodoro(ps, cycleIndex);
    if |r| > |ps| {
      forall i, j | 0 <= i < j < |r| ensures r[i].id != r[j].id {
        if j == |ps| {
          assert r[i] == ps[i];
        } else {
          assert r[i] == ps[i] && r[j] == ps[j];
        }
      }
    }
  }

  /** Recolouring never changes which ids are present, so it keeps them distinct. */
  lemma UpdatePomodoroColorKeepsIds(ps: seq<Pomodoro>, cycleIndex: int, remainingSeconds: int,
                                    workDuration: int, count: int)
    requires workDuration > 0
    ensures var r := UpdatePomodoroColor(ps, cycleIndex, remainingSeconds, workDuration);
      (DistinctIds(ps) ==> DistinctIds(r)) && (IdsCountUp(ps, count) <==> IdsCountUp(r, count))
  {
  }

  // ---------------------------------------------------------------------------
  // Steps
  // ---------------------------------------------------------------------------

  /** The long break comes after every `maxCycleCount`-th completed work interval. */
  predicate IsLongBreak(config: Config, cycleCount: int)
    requires config.Valid()
  {
    cycleCount % config.maxCycleCount == 0
  }

  function BreakDuration(config: Config, cycleCount: int): int
    requires config.Valid()
  {
    if IsLongBreak(config, cycleCount) then config.longBreakDuration
    else config.shortBreakDuration
  }

  /** The state the hook starts in, and the one `handleReset` returns to from any state. */
  function Initial(config: Config): (r: TimerState)
    ensures r.status == Idle && r.remainingSeconds == config.workDuration
    ensures r.cycleCount == 0 && r.pomodoros == [] && r.pausedStatus == Work
  {
    TimerState(Idle, config.workDuration, 0, [], Work)
  }

  /** `handleStart`: only from `idle`, starts a work interval and adds pomodoro `cycleCount`. */
  function Start(config: Config, s: TimerState): (r: TimerState)
    ensures r.cycleCount == s.cycleCount && r.pausedStatus == s.pausedStatus
    ensures |s.pomodoros| <= |r.pomodoros| && r.pomodoros[..|s.pomodoros|] == s.pomodoros
    ensures r.status == Work || r == s
  {
    if s.status != Idle then s
    else s.(status := Work,
            remainingSeconds := config.workDuration,
            pomodoros := AddPomodoro(s.pomodoros, s.cycleCount))
  }

  /** `handlePause`: only from `work` or `break`, which it records. */
  function Pause(s: TimerState): (r: TimerState)
    ensures r.remainingSeconds == s.remainingSeconds && r.cycleCount == s.cycleCount
    ensures r.pomodoros == s.pomodoros
    ensures r.status == Paused <==> s.status != Idle
  {
    if s.status == Work || s.status == Break
    then s.(pausedStatus := s.status, status := Paused)
    else s
  }

  /** `handleResume`: only from `paused`, back to the recorded status. */
  function Resume(s: TimerState): (r: TimerState)
    ensures r.remainingSeconds == s.remainingSeconds && r.cycleCount == s.cycleCount
    ensures r.pomodoros == s.pomodoros && r.pausedStatus == s.pausedStatus
    ensures r.status != Paused
  {
    if s.status == Paused then s.(status := s.pausedStatus) else s
  }

  /** `handleReset` from any state. */
  function Reset(config: Config, s: TimerState): (r: TimerState)
    ensures r.status == Idle && r.remainingSeconds == config.workDuration
    ensures r.cycleCount == 0 && r.pomodoros == []
  {
    Initial(config)
  }

  /**
   * `tick`, run once a second: nothing unless running; otherwise one second
   * less, and when that reaches zero the interval ends with the completion
   * alarm: a work interval hands over to a break (counting the cycle and
   * colouring its pomodoro fully), a break to a new work interval with a new
   * pomodoro.
   */
  function Tick(config: Config, s: TimerState): (r: Step)
    requires config.Valid()
    ensures |r.alarms| <= 1 && r.state.pausedStatus == s.pausedStatus
    ensures r.state.status == Paused <==> s.status == Paused
    ensures r.state.cycleCount == s.cycleCount || r.state.cycleCount == s.cycleCount + 1
    ensures |s.pomodoros| <= |r.state.pomodoros| <= |s.pomodoros| + 1
  {
    if s.status == Idle || s.status == Paused then Step(s, [])
    else
      var next := s.remainingSeconds - 1;
      var cycleIndex := s.cycleCount;
      if next > 0 then
        var ps := if s.status == Work
                  then UpdatePomodoroColor(s.pomodoros, cycleIndex, next, config.workDuration)
                  else s.pomodoros;
        Step(s.(remainingSeconds := next, pomodoros := ps),
             if next <= config.lowAlarmThreshold then [Low] else [])
      else if s.status == Work then
        var nextCycleCount := cycleIndex + 1;
        Step(s.(status := Break,
                cycleCount := nextCycleCount,
                remainingSeconds := BreakDuration(config, nextCycleCount),
                pomodoros := UpdatePomodoroColor(s.pomodoros, cycleIndex, 0, config.workDuration)),
             [Completion])
      else
        Step(s.(status := Work,
                remainingSeconds := config.workDuration,
                pomodoros := AddPomodoro(s.pomodoros, cycleIndex)),
             [Completion])
  }

  // ---------------------------------------------------------------------------
  // Display
  // ---------------------------------------------------------------------------

  /** The label the hook shows for the status; a break is named by its length. */
  function StatusText(config: Config, s: TimerState): (r: string)
    requires config.Valid()
    ensures r == "Ready" <==> s.status == Idle
    ensures r == "Paused" <==> s.status == Paused
    ensures r == "Work" <==> s.status == Work
    ensures s.status == Break <==> r == "Long Break" || r == "Short Break"
  {
    match s.status
    case Idle => "Ready"
    case Paused => "Paused"
    case Work => "Work"
    case Break => if IsLongBreak(config, s.cycleCount) then "Long Break" else "Short Break"
  }

  datatype Buttons = Buttons(start: bool, pause: bool, resume: bool, reset: bool)

  /** The four `shouldShow*Button` flags: exactly one of start, pause and resume, and reset unless idle. */
  function ShownButtons(status: Status): (b: Buttons)
    ensures (if b.start then 1 else 0) + (if b.pause then 1 else 0) + (if b.resume then 1 else 0) == 1
    ensures b.reset <==> status != Idle
  {
    Buttons(status == Idle, status == Work || status == Break, status == Paused, status != Idle)
  }

  // ---------------------------------------------------------------------------
  // The invariant of reachable states
  // ---------------------------------------------------------------------------

  /** Every pomodoro of a finished work interval has the colour for zero seconds left. */
  predicate Finished(config: Config, ps: seq<Pomodoro>, count: int)
    requires config.Valid()
  {
    forall i :: 0 <= i < count && i < |ps| ==>
      ps[i].color == ColorForRemainingSeconds(0, config.workDuration)
  }

  /**
   * In a work interval: pomodoros 0..cycleCount exist in order, the finished
   * ones are fully coloured and the current one has the colour of the time left.
   */
  predicate WorkInv(config: Config, s: TimerState)
    requires config.Valid()
  {
    s.cycleCount >= 0 &&
    1 <= s.remainingSeconds <= config.workDuration &&
    IdsCountUp(s.pomodoros, s.cycleCount + 1) &&
    Finished(config, s.pomodoros, s.cycleCount) &&
    s.pomodoros[s.cycleCount].color
      == ColorForRemainingSeconds(s.remainingSeconds, config.workDuration)
  }

  /**
   * In a break: at least one cycle is done, pomodoros 0..cycleCount-1 exist in
   * order and are fully coloured, and the time left is within the break length
   * that `cycleCount` selects.
   */
  predicate BreakInv(config: Config, s: TimerState)
    requires config.Valid()
  {
    s.cycleCount >= 1 &&
    1 <= s.remainingSeconds <= BreakDuration(config, s.cycleCount) &&
    IdsCountUp(s.pomodoros, s.cycleCount) &&
    Finished(config, s.pomodoros, s.cycleCount)
  }

  predicate Inv(config: Config, s: TimerState)
    requires config.Valid()
  {
    match s.status
    case Idle => s == Initial(config)
    case Work => WorkInv(config, s)
    case Break => BreakInv(config, s)
    case Paused => if s.pausedStatus == Work then WorkInv(config, s) else BreakInv(config, s)
  }

  /** What the invariant says about the observable fields. */
  lemma InvMeans(config: Config, s: TimerState)
    requires config.Valid() && Inv(config, s)
    ensures DistinctIds(s.pomodoros)
    ensures s.status == Idle ==> s.pomodoros == [] && s.cycleCount == 0
    ensures s.status != Idle ==> s.remainingSeconds >= 1
    ensures s.status == Work || (s.status == Paused && s.pausedStatus == Work) ==>
              IdsCountUp(s.pomodoros, s.cycleCount + 1)
    ensures s.status == Break || (s.status == Paused && s.pausedStatus == Break) ==>
              IdsCountUp(s.pomodoros, s.cycleCount)
  {
  }

  lemma InitialInv(config: Config)
    requires config.Valid()
    ensures Inv(config, Initial(config))
  {
  }

  lemma StartKeepsInv(config: Config, s: TimerState)
    requires config.Valid() && Inv(config, s)
    ensures Inv(config, Start(config, s))
  {
    if s.status == Idle {
      ColorEndpoints(config.workDuration);
    }
  }

  lemma PauseKeepsInv(config: Config, s: TimerState)
    requires config.Valid() && Inv(config, s)
    ensures Inv(config, Pause(s))
  {
  }

  lemma ResumeKeepsInv(config: Config, s: TimerState)
    requires config.Valid() && Inv(config, s)
    ensures Inv(config, Resume(s))
  {
  }

  lemma TickKeepsInv(config: Config, s: TimerState)
    requires config.Valid() && Inv(config, s)
    ensures Inv(config, Tick(config, s).state)
  {
    if s.status == Work {
      WorkTickKeepsInv(config, s);
    } else if s.status == Break && s.remainingSeconds - 1 <= 0 {
      BreakEndKeepsInv(config, s);
    }
  }

  /** A tick in work recolours the current pomodoro and, at zero, moves to a break. */
  lemma WorkTickKeepsInv(config: Config, s: TimerState)
    requires config.Valid() && s.status == Work && WorkInv(config, s)
    ensures Inv(config, Tick(config, s).state)
  {
    var t := Tick(config, s).state;
    var k := s.cycleCount;
    var ps := s.pomodoros;
    var next := s.remainingSeconds - 1;
    var r := UpdatePomodoroColor(ps, k, if next > 0 then next else 0, config.workDuration);
    assert t.pomodoros == r;
    assert IdsCountUp(r, k + 1);
    assert r[k].color == ColorForRemainingSeconds(if next > 0 then next else 0, config.workDuration);
    forall i | 0 <= i < k ensures r[i] == ps[i] {
      assert ps[i].id == i;
    }
    if next <= 0 {
      BreakDurationPositive(config, k + 1);
      assert BreakInv(config, t);
    } else {
      assert WorkInv(config, t);
    }
  }

  /** The tick that ends a break adds the next pomodoro and starts a full work interval. */
  lemma BreakEndKeepsInv(config: Config, s: TimerState)
    requires config.Valid() && s.status == Break && BreakInv(config, s)
    requires s.remainingSeconds - 1 <= 0
    ensures Inv(config, Tick(config, s).state)
  {
    var t := Tick(config, s).state;
    var ps := s.pomodoros;
    var k := s.cycleCount;
    assert !HasId(ps, k);
    var r := AddPomodoro(ps, k);
    assert r == ps + [Pomodoro(k, BasePomodoroColor)];
    ColorEndpoints(config.workDuration);
    assert WorkInv(config, t);
  }

  lemma BreakDurationPositive(config: Config, cycleCount: int)
    requires config.Valid()
    ensures BreakDuration(config, cycleCount) >= 1
  {
  }

  // ---------------------------------------------------------------------------
  // Properties of single steps
  // ---------------------------------------------------------------------------

  /** Start from idle begins work with a full interval and pomodoro 0; elsewhere it changes nothing. */
  lemma StartBehaviour(config: Config, s: TimerState)
    requires config.Valid() && Inv(config, s)
    ensures s.status != Idle ==> Start(config, s) == s
    ensures s.status == Idle ==>
      var t := Start(config, s);
      t.status == Work && t.remainingSeconds == config.workDuration && t.cycleCount == 0 &&
      t.pomodoros == [Pomodoro(0, BasePomodoroColor)]
    ensures Start(config, Start(config, s)) == Start(config, s)
  {
  }

  /** Pause keeps the time, the count and the pomodoros, and remembers where it came from. */
  lemma PauseBehaviour(s: TimerState)
    ensures var t := Pause(s);
      t.remainingSeconds == s.remainingSeconds && t.cycleCount == s.cycleCount &&
      t.pomodoros == s.pomodoros
    ensures s.status == Work || s.status == Break ==>
      Pause(s).status == Paused && Pause(s).pausedStatus == s.status
    ensures s.status == Idle || s.status == Paused ==> Pause(s) == s
  {
  }

  /** Resume restores exactly the recorded status and nothing else; it is a no-op unless paused. */
  lemma ResumeBehaviour(s: TimerState)
    ensures s.status == Paused ==> Resume(s) == s.(status := s.pausedStatus)
    ensures s.status != Paused ==> Resume(s) == s
  {
  }

  /**
   * Pause then resume gives back the state paused from; only the record of
   * where the last pause came from is updated.
   */
  lemma PauseThenResume(s: TimerState)
    requires s.status == Work || s.status == Break
    ensures Resume(Pause(s)) == s.(pausedStatus := s.status)
  {
  }

  /** Reset clears everything, whatever the state, and a second reset changes nothing. */
  lemma ResetBehaviour(config: Config, s: TimerState)
    ensures var t := Reset(config, s);
      t.status == Idle && t.cycleCount == 0 && t.pomodoros == [] &&
      t.remainingSeconds == config.workDuration && t.pausedStatus == Work
    ensures Reset(config, Reset(config, s)) == Reset(config, s)
  {
  }

  /** Ticks do nothing while idle or paused. */
  lemma TickWhenStopped(config: Config, s: TimerState)
    requires config.Valid()
    requires s.status == Idle || s.status == Paused
    ensures Tick(config, s) == Step(s, [])
  {
  }

  /**
   * A tick that leaves time on the clock takes exactly one second off, keeps
   * the status and the count, plays the low alarm exactly when the new value
   * is at or below the threshold, and in work recolours only the current
   * pomodoro.
   */
  lemma TickCountdown(config: Config, s: TimerState)
    requires config.Valid() && Inv(config, s)
    requires s.status == Work || s.status == Break
    requires s.remainingSeconds - 1 > 0
    ensures var step := Tick(config, s);
      var t := step.state;
      t.remainingSeconds == s.remainingSeconds - 1 &&
      t.status == s.status && t.cycleCount == s.cycleCount &&
      (Low in step.alarms <==> t.remainingSeconds <= config.lowAlarmThreshold) &&
      Completion !in step.alarms && |step.alarms| <= 1 &&
      |t.pomodoros| == |s.pomodoros| &&
      (forall i :: 0 <= i < |t.pomodoros| && i != s.cycleCount ==> t.pomodoros[i] == s.pomodoros[i]) &&
      (s.status == Break ==> t.pomodoros == s.pomodoros) &&
      (s.status == Work ==>
         t.pomodoros[s.cycleCount].color
           == ColorForRemainingSeconds(t.remainingSeconds, config.workDuration) &&
         t.pomodoros == s.pomodoros[s.cycleCount := Pomodoro(s.cycleCount,
           ColorForRemainingSeconds(s.remainingSeconds - 1, config.workDuration))])
  {
    var ps := s.pomodoros;
    forall i | 0 <= i < |ps| && i != s.cycleCount
      ensures Tick(config, s).state.pomodoros[i] == ps[i]
    {
      assert ps[i].id == i;
    }
  }

  /**
   * The end of a work interval plays the completion alarm, colours the
   * current pomodoro fully, counts one more cycle and starts the break whose
   * length (and label) the new count selects.
   */
  lemma TickEndsWork(config: Config, s: TimerState)
    requires config.Valid() && Inv(config, s)
    requires s.status == Work && s.remainingSeconds - 1 <= 0
    ensures var step := Tick(config, s);
      var t := step.state;
      step.alarms == [Completion] &&
      t.status == Break && t.cycleCount == s.cycleCount + 1 &&
      t.remainingSeconds
        == (if t.cycleCount % config.maxCycleCount == 0
            then config.longBreakDuration else config.shortBreakDuration) &&
      StatusText(config, t)
        == (if t.cycleCount % config.maxCycleCount == 0 then "Long Break" else "Short Break") &&
      |t.pomodoros| == |s.pomodoros| &&
      t.pomodoros[s.cycleCount] == Pomodoro(s.cycleCount, Rgb(RedEnd, GreenEnd, BlueValue)) &&
      t.pomodoros == s.pomodoros[s.cycleCount := Pomodoro(s.cycleCount, Rgb(RedEnd, GreenEnd, BlueValue))]
  {
    ColorEndpoints(config.workDuration);
    var ps := s.pomodoros;
    forall i | 0 <= i < |ps| && i != s.cycleCount
      ensures Tick(config, s).state.pomodoros[i] == ps[i]
    {
      assert ps[i].id == i;
    }
  }

  /**
   * The end of a break plays the completion alarm, adds the pomodoro for the
   * current cycle and starts a full work interval; the count does not change.
   */
  lemma TickEndsBreak(config: Config, s: TimerState)
    requires config.Valid() && Inv(config, s)
    requires s.status == Break && s.remainingSeconds - 1 <= 0
    ensures var step := Tick(config, s);
      var t := step.state;
      step.alarms == [Completion] &&
      t.status == Work && t.cycleCount == s.cycleCount &&
      t.remainingSeconds == config.workDuration &&
      t.pomodoros == s.pomodoros + [Pomodoro(s.cycleCount, BasePomodoroColor)]
  {
    assert !HasId(s.pomodoros, s.cycleCount);
  }

  /** In a break the label is one of the two break labels, and the time left is within the break length the label names. */
  lemma BreakLabel(config: Config, s: TimerState)
    requires config.Valid() && Inv(config, s) && s.status == Break
    ensures StatusText(config, s) == "Long Break" || StatusText(config, s) == "Short Break"
    ensures StatusText(config, s) == "Long Break" ==>
              s.remainingSeconds <= config.longBreakDuration
    ensures StatusText(config, s) == "Short Break" ==>
              s.remainingSeconds <= config.shortBreakDuration
  {
  }

  /** Each button is shown exactly when its command would change the state. */
  lemma ButtonsMatchCommands(config: Config, s: TimerState)
    requires config.Valid() && Inv(config, s)
    ensures var b := ShownButtons(s.status);
      (b.start <==> Start(config, s) != s) &&
      (b.pause <==> Pause(s) != s) &&
      (b.resume <==> Resume(s) != s) &&
      (b.reset <==> Reset(config, s) != s)
  {
  }

  // ---------------------------------------------------------------------------
  // Runs of steps
  // ---------------------------------------------------------------------------

  /** What can happen to the hook: a button press or a tick of its interval. */
  datatype Event = StartPressed | PausePressed | ResumePressed | ResetPressed | Ticked

  function Apply(config: Config, s: TimerState, e: Event): Step
    requires config.Valid()
  {
    match e
    case StartPressed => Step(Start(config, s), [])
    case PausePressed => Step(Pause(s), [])
    case ResumePressed => Step(Resume(s), [])
    case ResetPressed => Step(Reset(config, s), [])
    case Ticked => Tick(config, s)
  }

  /** The state after a sequence of events, and every alarm they played. */
  function Run(config: Config, s: TimerState, events: seq<Event>): Step
    requires config.Valid()
    decreases |events|
  {
    if events == [] then Step(s, [])
    else
      var first := Apply(config, s, events[0]);
      var rest := Run(config, first.state, events[1..]);
      Step(rest.state, first.alarms + rest.alarms)
  }

  lemma ApplyKeepsInv(config: Config, s: TimerState, e: Event)
    requires config.Valid() && Inv(config, s)
    ensures Inv(config, Apply(config, s, e).state)
  {
    match e
    case StartPressed => StartKeepsInv(config, s);
    case PausePressed => PauseKeepsInv(config, s);
    case ResumePressed => ResumeKeepsInv(config, s);
    case ResetPressed => InitialInv(config);
    case Ticked => TickKeepsInv(config, s);
  }

  /** Every state the hook can reach from its initial state satisfies the invariant. */
  lemma {:induction false} RunKeepsInv(config: Config, s: TimerState, events: seq<Event>)
    requires config.Valid() && Inv(config, s)
    ensures Inv(config, Run(config, s, events).state)
    decreases |events|
  {
    if events != [] {
      ApplyKeepsInv(config, s, events[0]);
      RunKeepsInv(config, Apply(config, s, events[0]).state, events[1..]);
    }
  }

  /**
   * The cycle count changes only when a work interval runs out (by exactly
   * one) or on reset, and the completion alarm plays exactly when an
   * interval runs out.
   */
  lemma CycleCountChangesOnlyOnWorkExpiry(config: Config, s: TimerState, e: Event)
    requires config.Valid()
    ensures var step := Apply(config, s, e);
      step.state.cycleCount != s.cycleCount ==>
        e == ResetPressed ||
        (e == Ticked && s.status == Work && s.remainingSeconds - 1 <= 0 &&
         step.state.cycleCount == s.cycleCount + 1)
    ensures Completion in Apply(config, s, e).alarms <==>
              e == Ticked && (s.status == Work || s.status == Break) && s.remainingSeconds - 1 <= 0
  {
  }
}
