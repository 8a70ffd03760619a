/** The deadline watchdog: its worker thread against explicit and drop-time disarm, under every interleaving. */
module Watchdogs {

  datatype State = Armed | Disarmed | Expired

  const PATIENCE := 100

  /** Reaching the deadline is being past it. */
  function WorkerState(state: State, deadline: nat, now: nat): State {
    if state.Armed? && now >= deadline then Expired else state
  }

  function DisarmState(state: State, deadline: nat, now: nat): State {
    if state.Armed? && now < deadline then Disarmed
    else if state.Armed? || state.Expired? then Expired
    else Disarmed
  }

  /** The fields both threads share under the lock. */
  datatype Cell = Cell(state: State, started: bool, finished: bool, issued: bool)

  datatype Worker = Unstarted | Waiting | Firing | InHook | Fired | Done | Panicked

  /** One turn of the worker's loop under the lock. */
  function WorkerTurn(cell: Cell, deadline: nat, now: nat): (Cell, Worker) {
    var started := cell.(started := true);
    if !cell.state.Armed? then (started.(finished := true), Done)
    else if WorkerState(cell.state, deadline, now).Expired? then (started.(state := Expired, issued := true), Firing)
    else (started, Waiting)
  }

  /** The decision of a disarm under the lock, and whether this thread must run the hook. */
  function DisarmTurn(cell: Cell, deadline: nat, now: nat): (Cell, bool) {
    var next := DisarmState(cell.state, deadline, now);
    var mine := next.Expired? && !cell.issued;
    (cell.(state := next, issued := cell.issued || mine), mine)
  }

  /** The shared fields as the two critical sections update them. */
  class Shared {
    var state: State
    var started: bool
    var finished: bool
    var issued: bool

    function View(): Cell
      reads this
    {
      Cell(state, started, finished, issued)
    }

    constructor ()
      ensures View() == Cell(Armed, false, false, false)
    {
      state, started, finished, issued := Armed, false, false, false;
    }

    method Turn(deadline: nat, now: nat) returns (worker: Worker)
      modifies this
      ensures (View(), worker) == WorkerTurn(old(View()), deadline, now)
    {
      started := true;
      if !state.Armed? {
        finished := true;
        return Done;
      }
      if WorkerState(state, deadline, now).Expired? {
        state, issued := Expired, true;
        return Firing;
      }
      return Waiting;
    }

    method Disarm(deadline: nat, now: nat) returns (mine: bool)
      modifies this
      ensures (View(), mine) == DisarmTurn(old(View()), deadline, now)
    {
      var next := DisarmState(state, deadline, now);
      state := next;
      mine := next.Expired? && !issued;
      if mine {
        issued := true;
      }
    }
  }

  // The threads.

  /** The main thread: arming, idle between disarms, or inside one. `since` is when its wait began. */
  datatype Main =
    | Arming
    | Idle
    | Deciding(last: bool)
    | Awaiting(mine: bool, last: bool, since: nat)
    | Joining(mine: bool, last: bool)
    | Calling(last: bool)
    | Gone

  datatype System = System(
    cell: Cell, worker: Worker, main: Main, joined: bool, clock: nat, deadline: nat, hooks: nat, aborted: bool)

  datatype Action =
    | Advance(ticks: nat)
    | WorkerLocks
    | WorkerCallsHook
    | HookReturns
    | HookPanics
    | WorkerFinishes
    | MainArmed
    | MainDisarms(last: bool)
    | MainDecides
    | MainSeesFinished
    | MainTimesOut
    | MainJoins
    | MainCallsHook
    | MainHookPanics

  function Start(deadline: nat, clock: nat): System {
    System(Cell(Armed, false, false, false), Unstarted, Arming, false, clock, deadline, 0, false)
  }

  function Return(s: System, last: bool): System {
    s.(main := if last then Gone else Idle)
  }

  predicate Enabled(s: System, action: Action) {
    !s.aborted &&
    match action
    case Advance(_) => true
    case WorkerLocks => s.worker.Unstarted? || s.worker.Waiting?
    case WorkerCallsHook => s.worker.Firing?
    case HookReturns => s.worker.InHook?
    case HookPanics => s.worker.InHook?
    case WorkerFinishes => s.worker.Fired?
    case MainArmed => s.main.Arming? && s.cell.started
    case MainDisarms(_) => s.main.Idle?
    case MainDecides => s.main.Deciding?
    case MainSeesFinished => s.main.Awaiting? && s.cell.finished
    case MainTimesOut => s.main.Awaiting? && !s.cell.finished && s.clock >= s.main.since + PATIENCE
    case MainJoins => s.main.Joining? && (s.joined || s.worker.Done?)
    case MainCallsHook => s.main.Calling?
    case MainHookPanics => s.main.Calling?
  }

  /** One step; a step that is not enabled does nothing. */
  function Step(s: System, action: Action): System {
    if !Enabled(s, action) then s
    else
      match action
      case Advance(ticks) => s.(clock := s.clock + ticks)
      case WorkerLocks =>
        var (cell, worker) := WorkerTurn(s.cell, s.deadline, s.clock);
        s.(cell := cell, worker := worker)
      case WorkerCallsHook => s.(worker := InHook, hooks := s.hooks + 1)
      case HookReturns => s.(worker := Fired)
      case HookPanics => s.(worker := Panicked)
      case WorkerFinishes => s.(worker := Done, cell := s.cell.(finished := true))
      case MainArmed => s.(main := Idle)
      case MainDisarms(last) => s.(main := Deciding(last))
      case MainDecides =>
        var (cell, mine) := DisarmTurn(s.cell, s.deadline, s.clock);
        var last := s.main.last;
        s.(cell := cell, main := if s.joined then Joining(mine, last) else Awaiting(mine, last, s.clock))
      case MainSeesFinished => s.(main := Joining(s.main.mine, s.main.last))
      case MainTimesOut => s.(aborted := true)
      case MainJoins =>
        var joined := s.(joined := true);
        if s.main.mine then joined.(main := Calling(s.main.last)) else Return(joined, s.main.last)
      case MainCallsHook => Return(s.(hooks := s.hooks + 1), s.main.last)
      // A panic unwinds out of the disarm; the drop-time disarm on its way comes as the next `MainDisarms(true)`.
      case MainHookPanics => Return(s.(hooks := s.hooks + 1), s.main.last)
  }

  function Run(s: System, actions: seq<Action>): System
    decreases |actions|
  {
    if actions == [] then s else Run(Step(s, actions[0]), actions[1..])
  }

  // The invariant.

  /** The right to run the hook is held by one thread at most, until the hook runs. */
  function Tokens(s: System): nat {
    (if s.worker.Firing? then 1 else 0)
    + (if s.main.Calling? || ((s.main.Awaiting? || s.main.Joining?) && s.main.mine) then 1 else 0)
  }

  predicate WorkerFits(s: System) {
    match s.worker
    case Unstarted => !s.cell.started && !s.cell.finished
    case Waiting => s.cell.started && !s.cell.finished
    case Done => s.cell.started && s.cell.finished && !s.cell.state.Armed?
    case _ => s.cell.started && !s.cell.finished && s.cell.state.Expired?
  }

  predicate MainFits(s: System) {
    && (s.joined ==> s.worker.Done?)
    && (s.main.Arming? ==> !s.joined)
    && (!s.main.Arming? ==> s.cell.started)
    && (s.main.Awaiting? || s.main.Joining? || s.main.Calling? || s.main.Gone? ==> !s.cell.state.Armed?)
    && (s.main.Awaiting? ==> s.main.since <= s.clock)
    && (s.main.Joining? || s.main.Awaiting? ==> !s.cell.state.Armed?)
    && (s.main.Joining? ==> s.cell.finished)
    && (s.main.Calling? || s.main.Gone? ==> s.joined)
  }

  predicate Sound(s: System) {
    && (s.cell.issued <==> s.cell.state.Expired?)
    && s.hooks + Tokens(s) == (if s.cell.issued then 1 else 0)
    && (s.cell.state.Expired? ==> s.clock >= s.deadline)
    && WorkerFits(s) && MainFits(s)
  }

  lemma StepKeeps(s: System, action: Action)
    requires Sound(s)
    ensures Sound(Step(s, action))
    ensures !s.cell.state.Armed? ==> Step(s, action).cell.state == s.cell.state
    ensures Step(s, action).hooks >= s.hooks && Step(s, action).clock >= s.clock
    ensures Step(s, action).deadline == s.deadline
  {
  }

  lemma {:induction false} RunKeeps(s: System, actions: seq<Action>)
    requires Sound(s)
    ensures Sound(Run(s, actions)) && Run(s, actions).deadline == s.deadline
    ensures !s.cell.state.Armed? ==> Run(s, actions).cell.state == s.cell.state
    ensures Run(s, actions).clock >= s.clock
    decreases |actions|
  {
    if actions != [] {
      StepKeeps(s, actions[0]);
      RunKeeps(Step(s, actions[0]), actions[1..]);
    }
  }

  lemma {:induction false} RunAppends(s: System, actions: seq<Action>, more: seq<Action>)
    ensures Run(s, actions + more) == Run(Run(s, actions), more)
    decreases |actions|
  {
    if actions == [] {
      assert actions + more == more;
    } else {
      assert (actions + more)[1..] == actions[1..] + more;
      RunAppends(Step(s, actions[0]), actions[1..], more);
    }
  }

  // What holds over every interleaving.

  /** The hook runs at most once, and only once the deadline has been reached. */
  lemma HookAtMostOnce(deadline: nat, clock: nat, actions: seq<Action>)
    ensures var s := Run(Start(deadline, clock), actions);
            s.hooks <= 1 && (s.hooks == 1 ==> s.cell.state.Expired? && s.clock >= deadline)
  {
    RunKeeps(Start(deadline, clock), actions);
  }

  /** A disarm that reads the clock before the deadline, while armed, keeps the hook from ever running. */
  lemma TimelyDisarmWins(deadline: nat, clock: nat, before: seq<Action>, after: seq<Action>)
    requires var s := Run(Start(deadline, clock), before);
             s.main.Deciding? && !s.aborted && s.cell.state.Armed? && s.clock < deadline
    ensures var s := Run(Start(deadline, clock), before + [MainDecides] + after);
            s.hooks == 0 && s.cell.state.Disarmed?
  {
    var s := Run(Start(deadline, clock), before);
    RunKeeps(Start(deadline, clock), before);
    StepKeeps(s, MainDecides);
    RunKeeps(Step(s, MainDecides), after);
    RunAppends(Start(deadline, clock), before, [MainDecides] + after);
    assert before + [MainDecides] + after == before + ([MainDecides] + after);
    assert ([MainDecides] + after)[1..] == after;
    hide Sound;
    assert Sound(Run(Step(s, MainDecides), after));
    DisarmedNeverFired(Run(Step(s, MainDecides), after));
  }

  lemma DisarmedNeverFired(s: System)
    requires Sound(s) && s.cell.state.Disarmed?
    ensures s.hooks == 0
  {
  }

  /** The system after the first `n` actions of a run. */
  function At(deadline: nat, clock: nat, actions: seq<Action>, n: nat): System
    requires n <= |actions|
  {
    Run(Start(deadline, clock), actions[..n])
  }

  /** A thread takes the lock while the watchdog is armed. */
  predicate Decides(s: System, action: Action) {
    Enabled(s, action) && (action.WorkerLocks? || action.MainDecides?) && s.cell.state.Armed?
  }

  predicate ExpiresAt(deadline: nat, clock: nat, actions: seq<Action>, n: nat)
    requires n < |actions|
  {
    Decides(At(deadline, clock, actions, n), actions[n]) && At(deadline, clock, actions, n).clock >= deadline
  }

  predicate DisarmsAt(deadline: nat, clock: nat, actions: seq<Action>, n: nat)
    requires n < |actions|
  {
    && Decides(At(deadline, clock, actions, n), actions[n]) && actions[n].MainDecides?
    && At(deadline, clock, actions, n).clock < deadline
  }

  lemma StateAfter(s: System, action: Action)
    ensures Step(s, action).cell.state.Expired?
       <==> s.cell.state.Expired? || (Decides(s, action) && s.clock >= s.deadline)
    ensures Step(s, action).cell.state.Disarmed?
       <==> s.cell.state.Disarmed? || (Decides(s, action) && action.MainDecides? && s.clock < s.deadline)
  {
  }

  lemma RunOnLast(s: System, actions: seq<Action>)
    requires actions != []
    ensures Run(s, actions) == Step(Run(s, actions[..|actions| - 1]), actions[|actions| - 1])
  {
    hide Step;
    var last := |actions| - 1;
    RunAppends(s, actions[..last], [actions[last]]);
    assert actions == actions[..last] + [actions[last]];
    assert [actions[last]][1..] == [];
  }

  lemma LastStep(deadline: nat, clock: nat, actions: seq<Action>)
    requires actions != []
    ensures var last := |actions| - 1;
            && Run(Start(deadline, clock), actions) == Step(At(deadline, clock, actions, last), actions[last])
            && At(deadline, clock, actions, last).deadline == deadline && Sound(At(deadline, clock, actions, last))
            && forall n: nat | n <= last :: At(deadline, clock, actions[..last], n) == At(deadline, clock, actions, n)
  {
    var last := |actions| - 1;
    RunKeeps(Start(deadline, clock), actions[..last]);
    hide Step, Sound, Run;
    RunOnLast(Start(deadline, clock), actions);
    forall n: nat | n <= last ensures At(deadline, clock, actions[..last], n) == At(deadline, clock, actions, n) {
      assert actions[..last][..n] == actions[..n];
    }
  }

  lemma EarlierDecisions(deadline: nat, clock: nat, actions: seq<Action>)
    requires actions != []
    ensures var last := |actions| - 1;
            && At(deadline, clock, actions, last) == Run(Start(deadline, clock), actions[..last])
            && forall n | 0 <= n < last ::
                 && (ExpiresAt(deadline, clock, actions[..last], n) <==> ExpiresAt(deadline, clock, actions, n))
                 && (DisarmsAt(deadline, clock, actions[..last], n) <==> DisarmsAt(deadline, clock, actions, n))
  {
    hide Run, Step, Decides;
    var last := |actions| - 1;
    forall n | 0 <= n < last
      ensures ExpiresAt(deadline, clock, actions[..last], n) <==> ExpiresAt(deadline, clock, actions, n)
      ensures DisarmsAt(deadline, clock, actions[..last], n) <==> DisarmsAt(deadline, clock, actions, n)
    {
      assert actions[..last][..n] == actions[..n];
    }
  }

  /**
   * Over every run, the watchdog has expired exactly when some thread took the lock, still armed, at or after
   * the deadline, and has been disarmed exactly when a disarm took it before.
   */
  lemma {:induction false} RunDecidesIff(deadline: nat, clock: nat, actions: seq<Action>)
    ensures var state := Run(Start(deadline, clock), actions).cell.state;
            && (state.Expired? <==> exists n | 0 <= n < |actions| :: ExpiresAt(deadline, clock, actions, n))
            && (state.Disarmed? <==> exists n | 0 <= n < |actions| :: DisarmsAt(deadline, clock, actions, n))
    decreases |actions|
  {
    if actions != [] {
      var last := |actions| - 1;
      LastStep(deadline, clock, actions);
      RunDecidesIff(deadline, clock, actions[..last]);
      StateAfter(At(deadline, clock, actions, last), actions[last]);
      hide Run, Step, Decides, Sound;
      EarlierDecisions(deadline, clock, actions);
      assert ExpiresAt(deadline, clock, actions, last)
        <==> Decides(At(deadline, clock, actions, last), actions[last])
             && At(deadline, clock, actions, last).clock >= deadline;
      assert DisarmsAt(deadline, clock, actions, last)
        <==> Decides(At(deadline, clock, actions, last), actions[last]) && actions[last].MainDecides?
             && At(deadline, clock, actions, last).clock < deadline;
      hide ExpiresAt, DisarmsAt;
    }
  }

  predicate Returns(s: System, action: Action) {
    var after := Step(s, action);
    !s.main.Idle? && !s.main.Gone? && !s.main.Arming? && (after.main.Idle? || after.main.Gone?)
  }

  /**
   * When a disarm returns, or unwinds from a panicking hook, the watchdog is settled: the worker has ended
   * and been joined, and the hook has run exactly once if the deadline was observed first, and never otherwise.
   */
  lemma DisarmReturnsSettled(deadline: nat, clock: nat, actions: seq<Action>, action: Action)
    requires Returns(Run(Start(deadline, clock), actions), action)
    ensures var s := Step(Run(Start(deadline, clock), actions), action);
            && s.joined && s.worker.Done? && !s.cell.state.Armed?
            && s.hooks == if s.cell.state.Expired? then 1 else 0
  {
    RunKeeps(Start(deadline, clock), actions);
    StepKeeps(Run(Start(deadline, clock), actions), action);
  }

  /**
   * No deadlock: until the process aborts, a started disarm can go on at once, or the worker can, or the
   * hook has panicked in the worker and the wait is bound to end the process.
   */
  lemma DisarmNeverHangs(deadline: nat, clock: nat, actions: seq<Action>)
    requires var s := Run(Start(deadline, clock), actions);
             !s.aborted && (s.main.Deciding? || s.main.Awaiting? || s.main.Joining? || s.main.Calling?)
    ensures var s := Run(Start(deadline, clock), actions);
            || Enabled(s, MainDecides) || Enabled(s, MainSeesFinished) || Enabled(s, MainJoins)
            || Enabled(s, MainCallsHook)
            || Enabled(s, WorkerLocks) || Enabled(s, WorkerCallsHook) || Enabled(s, HookReturns)
            || Enabled(s, WorkerFinishes)
            || (s.worker.Panicked? && Enabled(Step(s, Advance(PATIENCE)), MainTimesOut))
  {
    RunKeeps(Start(deadline, clock), actions);
  }

  predicate StartsWaiting(deadline: nat, clock: nat, actions: seq<Action>, m: nat)
    requires m < |actions|
  {
    Enabled(At(deadline, clock, actions, m), MainDecides) && actions[m] == MainDecides
  }

  lemma WaitStarts(s: System, action: Action)
    requires Step(s, action).main.Awaiting?
    ensures var since := Step(s, action).main.since;
            || (Enabled(s, MainDecides) && action == MainDecides && since == s.clock)
            || (s.main.Awaiting? && s.main.since == since)
  {
  }

  lemma AbortStarts(s: System, action: Action)
    requires Sound(s) && !s.aborted && Step(s, action).aborted
    ensures s.main.Awaiting? && s.clock >= s.main.since + PATIENCE && !s.worker.Done?
  {
  }

  lemma {:induction false} WaitsSince(deadline: nat, clock: nat, actions: seq<Action>)
    requires Run(Start(deadline, clock), actions).main.Awaiting?
    ensures exists m | 0 <= m < |actions| ::
              && StartsWaiting(deadline, clock, actions, m)
              && At(deadline, clock, actions, m).clock == Run(Start(deadline, clock), actions).main.since
    decreases |actions|
  {
    var last := |actions| - 1;
    LastStep(deadline, clock, actions);
    WaitStarts(At(deadline, clock, actions, last), actions[last]);
    hide Run, Step, Sound, Enabled;
    if !StartsWaiting(deadline, clock, actions, last) {
      assert At(deadline, clock, actions, last) == Run(Start(deadline, clock), actions[..last]);
      WaitsSince(deadline, clock, actions[..last]);
      var m :| 0 <= m < last && StartsWaiting(deadline, clock, actions[..last], m)
            && At(deadline, clock, actions[..last], m).clock == Run(Start(deadline, clock), actions[..last]).main.since;
      assert StartsWaiting(deadline, clock, actions, m);
    }
  }

  lemma {:induction false} DoneStays(s: System, actions: seq<Action>)
    requires s.worker.Done?
    ensures Run(s, actions).worker.Done?
    decreases |actions|
  {
    if actions != [] {
      DoneStays(Step(s, actions[0]), actions[1..]);
    }
  }

  lemma UndoneBefore(deadline: nat, clock: nat, actions: seq<Action>, k: nat)
    requires k <= |actions| && !Run(Start(deadline, clock), actions).worker.Done?
    ensures !At(deadline, clock, actions, k).worker.Done?
  {
    assert actions == actions[..k] + actions[k..];
    RunAppends(Start(deadline, clock), actions[..k], actions[k..]);
    if At(deadline, clock, actions, k).worker.Done? {
      DoneStays(At(deadline, clock, actions, k), actions[k..]);
    }
  }

  /**
   * Over every run, the watchdog ends the process only after a decided disarm has waited its full patience,
   * with the worker unfinished all the while.
   */
  lemma {:induction false} AbortNeedsPatience(deadline: nat, clock: nat, actions: seq<Action>)
    requires Run(Start(deadline, clock), actions).aborted
    ensures exists m, n | 0 <= m < n <= |actions| ::
              && StartsWaiting(deadline, clock, actions, m)
              && At(deadline, clock, actions, n).clock >= At(deadline, clock, actions, m).clock + PATIENCE
              && forall k | 0 <= k <= n :: !At(deadline, clock, actions, k).worker.Done?
    decreases |actions|
  {
    var last := |actions| - 1;
    LastStep(deadline, clock, actions);
    var earlier := actions[..last];
    assert At(deadline, clock, actions, last) == Run(Start(deadline, clock), earlier);
    hide Run, Step, Sound, Enabled;
    if At(deadline, clock, actions, last).aborted {
      AbortNeedsPatience(deadline, clock, earlier);
      var m, n :| 0 <= m < n <= last && StartsWaiting(deadline, clock, earlier, m)
        && At(deadline, clock, earlier, n).clock >= At(deadline, clock, earlier, m).clock + PATIENCE
        && forall k | 0 <= k <= n :: !At(deadline, clock, earlier, k).worker.Done?;
      assert StartsWaiting(deadline, clock, actions, m);
    } else {
      AbortStarts(At(deadline, clock, actions, last), actions[last]);
      WaitsSince(deadline, clock, earlier);
      var m :| 0 <= m < last && StartsWaiting(deadline, clock, earlier, m)
            && At(deadline, clock, earlier, m).clock == Run(Start(deadline, clock), earlier).main.since;
      assert StartsWaiting(deadline, clock, actions, m);
      forall k | 0 <= k <= last ensures !At(deadline, clock, actions, k).worker.Done? {
        UndoneBefore(deadline, clock, earlier, k);
        assert At(deadline, clock, earlier, k) == At(deadline, clock, actions, k);
      }
    }
  }

  /** How many steps but clock ticks a decided disarm can still take. */
  function Rank(s: System): nat {
    (match s.worker
     case Unstarted => 1
     case Waiting => 1
     case Firing => 3
     case InHook => 2
     case Fired => 1
     case _ => 0)
    + (if s.main.Awaiting? then 3 else if s.main.Joining? then 2 else if s.main.Calling? then 1 else 0)
  }

  /** Every effective step brings a decided disarm nearer to its return or to the end of the process. */
  lemma DecidedDisarmProgresses(s: System, action: Action)
    requires Sound(s) && (s.main.Awaiting? || s.main.Joining? || s.main.Calling?)
    requires Enabled(s, action) && !action.Advance?
    ensures Rank(Step(s, action)) < Rank(s) || Step(s, action).aborted
  {
  }
}
