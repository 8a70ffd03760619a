/** The GUI's state machine: which requests it ever submits, over every sequence of intents and answers. */
module Controllers {
  import opened Results
  import opened Bytes
  import opened Model
  import opened Exchange
  import opened Transport

  datatype CachedTarget = CachedTarget(bootId: BootId, os: Os, description: Option<seq<U16>>)

  datatype UiState =
    | Unconfigured
    | Cached(target: CachedTarget)
    | Waiting
    | Configured
    | TargetChanged
    | Failed
    | RebootRequested
    | UnknownResult
    | UnsupportedRecord
    | DurabilityUnknown(rawCode: I32)

  datatype Intent = Inspect | Configure(bootId: BootId, os: Os) | Switch

  type Answer = Result<Report, ClientError>

  /** The fields that decide what may be submitted. */
  datatype Gui = Gui(
    state: UiState, candidates: seq<Candidate>, selected: Option<BootId>, confirmed: bool,
    inspected: bool, recovery: Option<UiState>, targetOs: Os)
  {
    /** The states that only an inspection leaves. */
    predicate InspectOnly() {
      if state.TargetChanged? then !inspected else Blocks(state)
    }

    predicate CanSwitch() {
      !state.Waiting? && !InspectOnly() && !state.TargetChanged?
    }

    predicate CanSelect() {
      && !state.Waiting? && !InspectOnly() && recovery.None? && inspected
      && exists i | 0 <= i < |candidates| :: !candidates[i].classification.Unsupported?
    }

    predicate CanConfigure() {
      CanSelect() && selected.Some? && confirmed
    }
  }

  predicate Blocks(state: UiState) {
    state.UnsupportedRecord? || state.DurabilityUnknown? || state.UnknownResult? || state.RebootRequested?
  }

  /** The list holds a supported candidate with this id. */
  predicate Lists(candidates: seq<Candidate>, id: BootId) {
    exists i | 0 <= i < |candidates| :: candidates[i].bootId == id && !candidates[i].classification.Unsupported?
  }

  function RootCause(error: Error): Error {
    if error.FlowFailure? then RootCause(error.cause) else error
  }

  method RootCauseLoop(error: Error) returns (r: Error)
    ensures r == RootCause(error) && !r.FlowFailure?
  {
    r := error;
    while r.FlowFailure?
      invariant RootCause(r) == RootCause(error)
      decreases r
    {
      r := r.cause;
    }
  }

  /** The failure went past validating the target. */
  predicate WentFurther(error: Error) {
    error.FlowFailure? && exists stage <- error.stages :: !stage.TargetValidated?
  }

  function DomainState(error: Error): (state: UiState)
    ensures state.Failed? || state.TargetChanged? || Blocks(state)
  {
    var root := RootCause(error);
    if root.RebootRejectedError? then UiState.Failed
    else if WentFurther(error) && !root.StoreDurabilityUnknown? then UnknownResult
    else match root
      case IdentityMismatch => TargetChanged
      case TargetMissing => TargetChanged
      case UnsupportedRecordVersion(_) => UnsupportedRecord
      case UnsupportedIdentityComponent => UnsupportedRecord
      case StoreDurabilityUnknown(rawCode) => DurabilityUnknown(rawCode)
      case _ => UiState.Failed
  }

  function FailureState(error: ClientError): UiState {
    match error
    case UnknownAfterSend(_) => UnknownResult
    case Domain(cause) => DomainState(cause)
    case _ => UiState.Failed
  }

  /** Keeps the changed-target evidence over any later one. */
  function Latch(recovery: Option<UiState>, state: UiState): Option<UiState> {
    if state.TargetChanged? || recovery != Some(TargetChanged) then Some(state) else recovery
  }

  function Fail(g: Gui, error: ClientError): Gui {
    var recovery := if g.state.TargetChanged? then Latch(g.recovery, TargetChanged) else g.recovery;
    var state := FailureState(error);
    Gui(if state.Failed? && recovery.Some? then recovery.value else state, [], None, false, false, recovery, g.targetOs)
  }

  function Succeed(g: Gui, request: Request, report: Report): Gui {
    match ValidateReport(request, report, g.targetOs)
    case None => Fail(g, UnknownAfterSend(ProtocolBroken))
    case Some(Configured) =>
      g.(state := UiState.Configured, recovery := None, inspected := false, candidates := [])
    case Some(RebootWasAccepted) => g.(state := RebootRequested, candidates := [])
    case Some(RebootIsUnknown) => g.(state := UnknownResult, candidates := [])
    case Some(verdict) =>
      g.(state := if g.recovery == Some(TargetChanged) || verdict.InspectedChanged? then TargetChanged
                  else if report.record.Missing? then Unconfigured else UiState.Configured,
         recovery := None, inspected := true, candidates := report.candidates)
  }

  function Receive(g: Gui, request: Request, answer: Answer): Gui {
    if answer.Ok? then Succeed(g, request, answer.value) else Fail(g, answer.error)
  }

  /** What an intent leads to: ignored, refused for naming the wrong system, or a request. */
  datatype Decision = Ignore | Refuse | Submit(request: Request)

  function Decide(g: Gui, intent: Intent): Decision {
    if g.state.Waiting? || (g.InspectOnly() && !intent.Inspect?) then Ignore
    else match intent
      case Inspect => Submit(Request.Inspect)
      case Switch => if g.CanSwitch() then Submit(Request.Switch(g.targetOs)) else Ignore
      case Configure(id, os) =>
        if os != g.targetOs then Refuse
        else if g.CanConfigure() && g.selected == Some(id) then Submit(Request.Configure(id, os))
        else Ignore
  }

  /** Waiting for an answer, with unresolved evidence kept aside. */
  function Await(g: Gui, intent: Intent): Gui {
    var recovery := if (intent.Inspect? && g.InspectOnly()) || g.state.TargetChanged? then Latch(g.recovery, g.state)
                    else g.recovery;
    g.(state := Waiting, selected := None, confirmed := false, recovery := recovery)
  }

  function Choose(g: Gui, id: BootId): Gui {
    g.(confirmed := false, selected := if Lists(g.candidates, id) then Some(id) else None)
  }

  // The controller together with its executor and its channel.

  /** What happened, in order. */
  datatype Entry =
    | Submitted(request: Request, scheduled: bool)
    | Completed(request: Request, answer: Answer)
    | Misdirected
    | Chose(id: Option<BootId>)
    | Ticked(confirmed: bool)

  datatype World = World(
    gui: Gui, running: seq<Request>, arrived: seq<(Request, Answer)>, log: seq<Entry>)

  datatype Input =
    | Intend(intent: Intent, scheduled: bool)
    | Finish(answer: Answer)
    | Poll
    | Select(id: BootId)
    | Confirm(value: bool)

  /** What the display cache held at start. */
  datatype CacheLoad = CacheHit(target: CachedTarget) | CacheMiss | CacheBroken

  function Start(cache: CacheLoad, targetOs: Os): World {
    var state := match cache
                 case CacheHit(target) => Cached(target)
                 case CacheMiss => Unconfigured
                 case CacheBroken => UiState.Failed;
    World(Gui(state, [], None, false, false, None, targetOs), [], [], [])
  }

  /** A submitted request becomes a job, or fails at once when the executor refuses it. */
  function Launch(w: World, intent: Intent, request: Request, scheduled: bool): World {
    var waiting := Await(w.gui, intent);
    if scheduled then
      w.(gui := waiting, running := w.running + [request], log := w.log + [Submitted(request, true)])
    else
      w.(gui := Fail(waiting, BeforeSend(LaunchFailed)), log := w.log + [Submitted(request, false)])
  }

  function Step(w: World, input: Input): World {
    match input
    case Intend(intent, scheduled) =>
      (match Decide(w.gui, intent)
       case Ignore => w
       case Refuse => w.(gui := Fail(w.gui, Domain(UnexpectedOs)), log := w.log + [Misdirected])
       case Submit(request) => Launch(w, intent, request, scheduled))
    case Finish(answer) =>
      if w.running == [] then w
      else w.(running := w.running[1..], arrived := w.arrived + [(w.running[0], answer)])
    case Poll =>
      if w.arrived == [] then w
      else
        var (request, answer) := w.arrived[0];
        w.(gui := Receive(w.gui, request, answer), arrived := w.arrived[1..],
           log := w.log + [Completed(request, answer)])
    case Select(id) =>
      if !w.gui.CanSelect() then w
      else
        var gui := Choose(w.gui, id);
        w.(gui := gui, log := w.log + [Chose(gui.selected)])
    case Confirm(value) =>
      if !w.gui.CanSelect() then w
      else
        var confirmed := value && w.gui.selected.Some?;
        w.(gui := w.gui.(confirmed := confirmed), log := w.log + [Ticked(confirmed)])
  }

  function Run(cache: CacheLoad, targetOs: Os, inputs: seq<Input>): World {
    if inputs == [] then Start(cache, targetOs)
    else Step(Run(cache, targetOs, inputs[..|inputs| - 1]), inputs[|inputs| - 1])
  }

  class Controller {
    const targetOs: Os
    var state: UiState
    var candidates: seq<Candidate>
    var selected: Option<BootId>
    var confirmed: bool
    var inspected: bool
    var recovery: Option<UiState>
    var running: seq<Request>
    var arrived: seq<(Request, Answer)>
    ghost var log: seq<Entry>

    function View(): Gui
      reads this
    {
      Gui(state, candidates, selected, confirmed, inspected, recovery, targetOs)
    }

    ghost function Now(): World
      reads this
    {
      World(View(), running, arrived, log)
    }

    constructor (cache: CacheLoad, targetOs: Os)
      ensures Now() == Start(cache, targetOs)
    {
      this.targetOs := targetOs;
      match cache {
        case CacheHit(target) => state := Cached(target);
        case CacheMiss => state := Unconfigured;
        case CacheBroken => state := UiState.Failed;
      }
      candidates, selected, confirmed, inspected, recovery := [], None, false, false, None;
      running, arrived, log := [], [], [];
    }

    method Handle(intent: Intent, scheduled: bool)
      modifies this
      ensures Now() == Step(old(Now()), Intend(intent, scheduled))
    {
      hide Receive, Choose, DomainState, Lists, Launch;
      if state.Waiting? || (View().InspectOnly() && !intent.Inspect?) {
        return;
      }
      var request: Request;
      match intent {
        case Inspect => request := Request.Inspect;
        case Switch =>
          if !View().CanSwitch() {
            return;
          }
          request := Request.Switch(targetOs);
        case Configure(id, os) =>
          if os != targetOs {
            FailWith(Domain(UnexpectedOs));
            log := log + [Misdirected];
            return;
          }
          if !(View().CanConfigure() && selected == Some(id)) {
            return;
          }
          request := Request.Configure(id, os);
      }
      Submit(intent, request, scheduled);
    }

    /** Latches what is unresolved, clears the selection and hands the request to the executor. */
    method Submit(intent: Intent, request: Request, scheduled: bool)
      modifies this
      ensures Now() == Launch(old(Now()), intent, request, scheduled)
    {
      if (intent.Inspect? && View().InspectOnly()) || state.TargetChanged? {
        LatchRecovery(state);
      }
      state := Waiting;
      selected, confirmed := None, false;
      log := log + [Submitted(request, scheduled)];
      if scheduled {
        running := running + [request];
      } else {
        FailWith(BeforeSend(LaunchFailed));
      }
    }

    /** The executor's job ends and its completion reaches the channel. */
    method FinishJob(answer: Answer)
      modifies this`running, this`arrived
      ensures Now() == Step(old(Now()), Finish(answer))
    {
      if running != [] {
        arrived := arrived + [(running[0], answer)];
        running := running[1..];
      }
    }

    method PollChannel()
      modifies this
      ensures Now() == Step(old(Now()), Poll)
    {
      if arrived != [] {
        var (request, answer) := arrived[0];
        arrived := arrived[1..];
        log := log + [Completed(request, answer)];
        if answer.Ok? {
          SucceedWith(request, answer.value);
        } else {
          FailWith(answer.error);
        }
      }
    }

    method SelectTarget(id: BootId) returns (r: bool)
      modifies this`selected, this`confirmed, this`log
      ensures Now() == Step(old(Now()), Select(id))
      ensures r == (old(View().CanSelect()) && Lists(candidates, id))
    {
      if !View().CanSelect() {
        return false;
      }
      confirmed := false;
      selected := None;
      for i := 0 to |candidates|
        invariant selected == None && !confirmed
        invariant forall j | 0 <= j < i :: candidates[j].bootId != id || candidates[j].classification.Unsupported?
      {
        if candidates[i].bootId == id && !candidates[i].classification.Unsupported? {
          selected := Some(candidates[i].bootId);
          break;
        }
      }
      log := log + [Chose(selected)];
      return selected.Some?;
    }

    method ConfirmTarget(value: bool)
      modifies this`confirmed, this`log
      ensures Now() == Step(old(Now()), Confirm(value))
    {
      if View().CanSelect() {
        confirmed := value && selected.Some?;
        log := log + [Ticked(confirmed)];
      }
    }

    method SucceedWith(request: Request, report: Report)
      modifies this
      ensures View() == Succeed(old(View()), request, report)
      ensures running == old(running) && arrived == old(arrived) && log == old(log)
    {
      var verdict := ValidateReport(request, report, targetOs);
      if verdict.None? {
        FailWith(UnknownAfterSend(ProtocolBroken));
        return;
      }
      match verdict.value {
        case Configured =>
          recovery, inspected, state := None, false, UiState.Configured;
          candidates := [];
        case RebootWasAccepted =>
          state := RebootRequested;
          candidates := [];
        case RebootIsUnknown =>
          state := UnknownResult;
          candidates := [];
        case _ =>
          var previouslyChanged := recovery == Some(TargetChanged);
          recovery, inspected := None, true;
          state := if previouslyChanged || verdict.value.InspectedChanged? then TargetChanged
                   else if report.record.Missing? then Unconfigured else UiState.Configured;
          candidates := report.candidates;
      }
    }

    method FailWith(error: ClientError)
      modifies this
      ensures View() == Fail(old(View()), error)
      ensures running == old(running) && arrived == old(arrived) && log == old(log)
    {
      if state.TargetChanged? {
        LatchRecovery(TargetChanged);
      }
      candidates, selected, confirmed, inspected := [], None, false, false;
      state := FailureState(error);
      if state.Failed? && recovery.Some? {
        state := recovery.value;
      }
    }

    method LatchRecovery(state: UiState)
      modifies this`recovery
      ensures recovery == Latch(old(recovery), state)
    {
      if state.TargetChanged? || recovery != Some(TargetChanged) {
        recovery := Some(state);
      }
    }
  }

  // What the history alone says.

  /** The state an answer stands for, were nothing latched. */
  function OutcomeState(request: Request, answer: Answer, targetOs: Os): UiState {
    if answer.Err? then FailureState(answer.error)
    else
      match ValidateReport(request, answer.value, targetOs)
      case None => UnknownResult
      case Some(Configured) => UiState.Configured
      case Some(RebootWasAccepted) => RebootRequested
      case Some(RebootIsUnknown) => UnknownResult
      case Some(InspectedChanged) => TargetChanged
      case Some(Inspected) => if answer.value.record.Missing? then Unconfigured else UiState.Configured
  }

  predicate Succeeded(entry: Entry, targetOs: Os) {
    entry.Completed? && entry.answer.Ok? && ValidateReport(entry.request, entry.answer.value, targetOs).Some?
  }

  /** The last target-changed outcome has not been followed by a successful Configure. */
  function Changed(log: seq<Entry>, os: Os): bool {
    if log == [] then false
    else
      var (earlier, last) := (log[..|log| - 1], log[|log| - 1]);
      if !last.Completed? then Changed(earlier, os)
      else if OutcomeState(last.request, last.answer, os).TargetChanged? then true
      else if Succeeded(last, os) && last.request.Configure? then false
      else Changed(earlier, os)
  }

  /** The last unknown, reboot, unsupported or durability outcome has not been followed by a successful Inspect. */
  function Unsettled(log: seq<Entry>, os: Os): bool {
    if log == [] then false
    else
      var (earlier, last) := (log[..|log| - 1], log[|log| - 1]);
      if !last.Completed? then Unsettled(earlier, os)
      else if Blocks(OutcomeState(last.request, last.answer, os)) then true
      else if Succeeded(last, os) && last.request.Inspect? then false
      else Unsettled(earlier, os)
  }

  /** The candidates of a successful Inspect that nothing but choosing and ticking has followed. */
  function Listed(log: seq<Entry>, os: Os): Option<seq<Candidate>> {
    if log == [] then None
    else
      var last := log[|log| - 1];
      if last.Chose? || last.Ticked? then Listed(log[..|log| - 1], os)
      else if Succeeded(last, os) && last.request.Inspect? then Some(last.answer.value.candidates)
      else None
  }

  /** The last choice, if nothing but ticking has followed. */
  function Picked(log: seq<Entry>): Option<BootId> {
    if log == [] then None
    else
      var last := log[|log| - 1];
      if last.Ticked? then Picked(log[..|log| - 1])
      else if last.Chose? then last.id
      else None
  }

  predicate Agreed(log: seq<Entry>) {
    log != [] && log[|log| - 1] == Ticked(true)
  }

  /** A history that lists `id` as supported, then chooses it, then confirms. */
  predicate Authorizes(log: seq<Entry>, id: BootId, os: Os) {
    Agreed(log) && Picked(log) == Some(id) && Listed(log, os).Some? && Lists(Listed(log, os).value, id)
  }

  /** What a history permits to be submitted next. */
  predicate Permits(log: seq<Entry>, request: Request, os: Os) {
    match request
    case Inspect => true
    case Switch(target) => target == os && !Changed(log, os) && !Unsettled(log, os)
    case Configure(id, target) => target == os && !Unsettled(log, os) && Authorizes(log, id, os)
  }

  predicate Outstanding(w: World) {
    |w.running| + |w.arrived| == 1
  }

  function Awaited(w: World): Request
    requires Outstanding(w)
  {
    if w.running != [] then w.running[0] else w.arrived[0].0
  }

  // The invariant, in parts.

  predicate JobsMatch(w: World) {
    && |w.running| + |w.arrived| <= 1
    && (w.gui.state.Waiting? <==> Outstanding(w))
  }

  predicate ChangedMatches(w: World) {
    var g := w.gui;
    Changed(w.log, g.targetOs) <==> g.state.TargetChanged? || g.recovery == Some(TargetChanged)
  }

  predicate RecoveryMatches(g: Gui) {
    g.recovery.Some? ==>
      && (g.recovery.value.TargetChanged? || Blocks(g.recovery.value))
      && (g.state.Waiting? || g.InspectOnly())
  }

  predicate UnsettledMatches(w: World) {
    var g, unsettled := w.gui, Unsettled(w.log, w.gui.targetOs);
    && (Blocks(g.state) || (g.recovery.Some? && Blocks(g.recovery.value)) ==> unsettled)
    && (unsettled ==>
          if g.state.Waiting? then Outstanding(w) && Awaited(w).Inspect? && g.recovery.Some? else g.InspectOnly())
  }

  predicate SelectionMatches(w: World) {
    var g, listed := w.gui, Listed(w.log, w.gui.targetOs);
    && g.selected == Picked(w.log) && g.confirmed == Agreed(w.log)
    && (g.confirmed ==> g.selected.Some?)
    && (g.CanSelect() ==> listed == Some(g.candidates))
    && (listed.Some? ==> g.candidates == listed.value && g.inspected && g.recovery.None?
                         && !g.state.Waiting? && !g.InspectOnly())
    && (g.selected.Some? ==> listed.Some? && Lists(listed.value, g.selected.value))
  }

  predicate Sound(w: World) {
    && JobsMatch(w) && ChangedMatches(w) && RecoveryMatches(w.gui) && UnsettledMatches(w) && SelectionMatches(w)
  }

  ghost predicate LogIsPermitted(log: seq<Entry>, os: Os) {
    forall k | 0 <= k < |log| && log[k].Submitted? :: Permits(log[..k], log[k].request, os)
  }

  lemma Extended(log: seq<Entry>, entry: Entry)
    ensures (log + [entry])[..|log|] == log && (log + [entry])[|log|] == entry
  {
  }

  lemma StartIsSound(cache: CacheLoad, targetOs: Os)
    ensures Sound(Start(cache, targetOs))
  {
  }

  /** What one more answer adds to a history. */
  lemma HistoryAfterAnswer(log: seq<Entry>, request: Request, answer: Answer, os: Os)
    ensures var after, state, ok :=
              log + [Completed(request, answer)], OutcomeState(request, answer, os),
              Succeeded(Completed(request, answer), os);
            && Changed(after, os) == (state.TargetChanged? || (!(ok && request.Configure?) && Changed(log, os)))
            && Unsettled(after, os) == (Blocks(state) || (!(ok && request.Inspect?) && Unsettled(log, os)))
            && Listed(after, os) == (if ok && request.Inspect? then Some(answer.value.candidates) else None)
            && Picked(after) == None && !Agreed(after)
  {
    Extended(log, Completed(request, answer));
    hide OutcomeState, Succeeded;
  }

  lemma AnswerKeepsChanged(g: Gui, request: Request, answer: Answer, changed: bool)
    requires g.state.Waiting? && RecoveryMatches(g)
    requires changed <==> g.recovery == Some(TargetChanged)
    ensures var after := Receive(g, request, answer);
            && ((after.state.TargetChanged? || after.recovery == Some(TargetChanged)) <==>
                  || OutcomeState(request, answer, g.targetOs).TargetChanged?
                  || (!(Succeeded(Completed(request, answer), g.targetOs) && request.Configure?) && changed))
  {
    hide DomainState;
  }

  lemma AnswerKeepsRecovery(g: Gui, request: Request, answer: Answer)
    requires g.state.Waiting? && RecoveryMatches(g)
    ensures RecoveryMatches(Receive(g, request, answer)) && !Receive(g, request, answer).state.Waiting?
    ensures Receive(g, request, answer).targetOs == g.targetOs
  {
    hide SupportedTarget;
  }

  lemma AnswerKeepsUnsettled(g: Gui, request: Request, answer: Answer, unsettled: bool)
    requires g.state.Waiting? && RecoveryMatches(g)
    requires g.recovery.Some? && Blocks(g.recovery.value) ==> unsettled
    requires unsettled ==> request.Inspect? && g.recovery.Some?
    ensures var after, state, ok :=
              Receive(g, request, answer), OutcomeState(request, answer, g.targetOs),
              Succeeded(Completed(request, answer), g.targetOs);
            var unsettled' := Blocks(state) || (!(ok && request.Inspect?) && unsettled);
            && (Blocks(after.state) || (after.recovery.Some? && Blocks(after.recovery.value)) ==> unsettled')
            && (unsettled' ==> after.InspectOnly())
  {
    hide SupportedTarget, DomainState;
  }

  lemma AnswerKeepsSelection(g: Gui, request: Request, answer: Answer)
    requires g.state.Waiting? && RecoveryMatches(g) && g.selected == None && !g.confirmed
    ensures var after, ok := Receive(g, request, answer), Succeeded(Completed(request, answer), g.targetOs);
            && after.selected == None && !after.confirmed
            && (after.CanSelect() ==> ok && request.Inspect?)
            && (ok && request.Inspect? ==>
                  && after.candidates == answer.value.candidates && after.inspected && after.recovery.None?
                  && !after.state.Waiting? && !after.InspectOnly())
  {
    hide SupportedTarget, DomainState;
  }

  lemma PollKeeps(w: World)
    requires Sound(w) && w.arrived != []
    ensures Sound(Step(w, Poll))
  {
    hide Changed, Unsettled, Listed, Picked, Agreed;
    var (request, answer) := w.arrived[0];
    HistoryAfterAnswer(w.log, request, answer, w.gui.targetOs);
    AnswerKeepsChanged(w.gui, request, answer, Changed(w.log, w.gui.targetOs));
    AnswerKeepsRecovery(w.gui, request, answer);
    AnswerKeepsUnsettled(w.gui, request, answer, Unsettled(w.log, w.gui.targetOs));
    WaitingHasNoSelection(w);
    AnswerKeepsSelection(w.gui, request, answer);
    hide Receive, OutcomeState, Succeeded, Blocks, RecoveryMatches;
  }

  lemma WaitingHasNoSelection(w: World)
    requires SelectionMatches(w) && w.gui.state.Waiting?
    ensures w.gui.selected == None && !w.gui.confirmed
  {
  }

  /** An entry that is no answer leaves the latched part of the history alone and ends any selection. */
  lemma HistoryAfterAttempt(log: seq<Entry>, entry: Entry, os: Os)
    requires entry.Submitted? || entry.Misdirected?
    ensures var after := log + [entry];
            && Changed(after, os) == Changed(log, os) && Unsettled(after, os) == Unsettled(log, os)
            && Listed(after, os) == None && Picked(after) == None && !Agreed(after)
  {
    Extended(log, entry);
  }

  /** What a refusal leaves of the fields. */
  lemma RefusedGui(g: Gui)
    requires RecoveryMatches(g) && !g.state.Waiting? && !g.InspectOnly()
    ensures g.recovery.None?
    ensures Fail(g, Domain(UnexpectedOs))
         == if g.state.TargetChanged? then Gui(TargetChanged, [], None, false, false, Some(TargetChanged), g.targetOs)
            else Gui(UiState.Failed, [], None, false, false, None, g.targetOs)
  {
  }

  lemma RefusalKeeps(w: World, intent: Intent, scheduled: bool)
    requires Sound(w) && Decide(w.gui, intent).Refuse?
    ensures Sound(Step(w, Intend(intent, scheduled)))
  {
    hide Changed, Unsettled, Listed, Picked, Agreed, Lists, Fail;
    HistoryAfterAttempt(w.log, Misdirected, w.gui.targetOs);
    RefusedGui(w.gui);
    var after := Step(w, Intend(intent, scheduled));
    assert after == w.(gui := Fail(w.gui, Domain(UnexpectedOs)), log := w.log + [Misdirected]);
    hide Step, Decide;
    assert JobsMatch(after) && ChangedMatches(after);
    assert RecoveryMatches(after.gui) && UnsettledMatches(after);
    assert SelectionMatches(after);
  }

  lemma SubmissionKeeps(w: World, intent: Intent, scheduled: bool)
    requires Sound(w) && Decide(w.gui, intent).Submit?
    ensures Sound(Step(w, Intend(intent, scheduled)))
  {
    hide Changed, Unsettled, Listed, Picked, Agreed;
    HistoryAfterAttempt(w.log, Submitted(Decide(w.gui, intent).request, scheduled), w.gui.targetOs);
  }

  lemma IntentKeeps(w: World, intent: Intent, scheduled: bool)
    requires Sound(w)
    ensures Sound(Step(w, Intend(intent, scheduled)))
  {
    hide Sound;
    match Decide(w.gui, intent)
    case Ignore =>
    case Refuse => RefusalKeeps(w, intent, scheduled);
    case Submit(_) => SubmissionKeeps(w, intent, scheduled);
  }

  lemma ChoiceKeeps(w: World, id: BootId)
    requires Sound(w) && w.gui.CanSelect()
    ensures Sound(Step(w, Select(id)))
  {
    Extended(w.log, Chose(Choose(w.gui, id).selected));
  }

  lemma ConfirmKeeps(w: World, value: bool)
    requires Sound(w) && w.gui.CanSelect()
    ensures Sound(Step(w, Confirm(value)))
  {
    Extended(w.log, Ticked(value && w.gui.selected.Some?));
  }

  lemma StepKeeps(w: World, input: Input)
    requires Sound(w)
    ensures Sound(Step(w, input))
  {
    match input
    case Intend(intent, scheduled) => IntentKeeps(w, intent, scheduled);
    case Finish(answer) =>
    case Poll => if w.arrived != [] { PollKeeps(w); }
    case Select(id) => if w.gui.CanSelect() { ChoiceKeeps(w, id); }
    case Confirm(value) => if w.gui.CanSelect() { ConfirmKeeps(w, value); }
  }

  lemma RunIsSound(cache: CacheLoad, targetOs: Os, inputs: seq<Input>)
    ensures Sound(Run(cache, targetOs, inputs)) && Run(cache, targetOs, inputs).gui.targetOs == targetOs
  {
    if inputs == [] {
      StartIsSound(cache, targetOs);
    } else {
      var before := inputs[..|inputs| - 1];
      RunIsSound(cache, targetOs, before);
      StepKeeps(Run(cache, targetOs, before), inputs[|inputs| - 1]);
      StepKeepsTarget(Run(cache, targetOs, before), inputs[|inputs| - 1]);
    }
  }

  lemma StepKeepsTarget(w: World, input: Input)
    ensures Step(w, input).gui.targetOs == w.gui.targetOs
  {
  }

  // What may be submitted.

  /** In a sound state an intent is submitted exactly when no job is outstanding and the history permits it. */
  lemma SubmittedIffPermitted(w: World, intent: Intent)
    requires Sound(w)
    ensures var request := RequestOf(intent, w.gui.targetOs);
            Decide(w.gui, intent) == Submit(request) <==>
              !Outstanding(w) && Permits(w.log, request, w.gui.targetOs)
  {
    hide Changed, Unsettled, Listed, Picked, Agreed;
    if intent.Configure? && Authorizes(w.log, intent.bootId, w.gui.targetOs) {
      var candidates := Listed(w.log, w.gui.targetOs).value;
      var i :| 0 <= i < |candidates| && candidates[i].bootId == intent.bootId
            && !candidates[i].classification.Unsupported?;
      assert w.gui.candidates[i] == candidates[i];
    }
  }

  function RequestOf(intent: Intent, targetOs: Os): Request {
    match intent
    case Inspect => Request.Inspect
    case Switch => Request.Switch(targetOs)
    case Configure(id, os) => Request.Configure(id, os)
  }

  lemma StepExtendsLog(w: World, input: Input)
    ensures var after := Step(w, input);
            || after.log == w.log
            || (exists entry :: after.log == w.log + [entry]
                  && (entry.Submitted? ==> input.Intend? && Decide(w.gui, input.intent) == Submit(entry.request)))
  {
    match input
    case Intend(intent, scheduled) =>
      if Decide(w.gui, intent).Submit? {
        var entry := Submitted(Decide(w.gui, intent).request, scheduled);
        assert Step(w, input).log == w.log + [entry];
      } else if Decide(w.gui, intent).Refuse? {
        assert Step(w, input).log == w.log + [Misdirected];
      }
    case Finish(answer) =>
    case Poll =>
      if w.arrived != [] {
        assert Step(w, input).log == w.log + [Completed(w.arrived[0].0, w.arrived[0].1)];
      }
    case Select(id) =>
      if w.gui.CanSelect() {
        assert Step(w, input).log == w.log + [Chose(Choose(w.gui, id).selected)];
      }
    case Confirm(value) =>
      if w.gui.CanSelect() {
        assert Step(w, input).log == w.log + [Ticked(value && w.gui.selected.Some?)];
      }
  }

  lemma DecidedRequest(g: Gui, intent: Intent)
    requires Decide(g, intent).Submit?
    ensures Decide(g, intent).request == RequestOf(intent, g.targetOs)
  {
  }

  /**
   * Over every run, whatever is submitted was permitted by the history before it: a Switch only with no
   * target-changed outcome awaiting a successful Configure and no unsettled outcome awaiting a successful
   * Inspect, a Configure only when its own Inspect, choice and confirmation came last.
   */
  lemma {:induction false} RunIsPermitted(cache: CacheLoad, targetOs: Os, inputs: seq<Input>)
    ensures LogIsPermitted(Run(cache, targetOs, inputs).log, targetOs)
  {
    if inputs != [] {
      var before, input := inputs[..|inputs| - 1], inputs[|inputs| - 1];
      var w := Run(cache, targetOs, before);
      RunIsPermitted(cache, targetOs, before);
      RunIsSound(cache, targetOs, before);
      StepExtendsLog(w, input);
      hide Step, Sound, Permits, Decide;
      var after := Step(w, input).log;
      if after != w.log {
        var entry :| after == w.log + [entry]
          && (entry.Submitted? ==> input.Intend? && Decide(w.gui, input.intent) == Submit(entry.request));
        Extended(w.log, entry);
        if entry.Submitted? {
          DecidedRequest(w.gui, input.intent);
          SubmittedIffPermitted(w, input.intent);
        }
        forall k | 0 <= k < |after| && after[k].Submitted? ensures Permits(after[..k], after[k].request, targetOs) {
          if k < |w.log| {
            assert after[..k] == w.log[..k] && after[k] == w.log[k];
          }
        }
      }
    }
  }

  /** A job is outstanding exactly while the controller waits, never two, and confirmed implies selected. */
  lemma WaitingIffOneJob(cache: CacheLoad, targetOs: Os, inputs: seq<Input>)
    ensures var w := Run(cache, targetOs, inputs);
            && (w.gui.state.Waiting? <==> |w.running| + |w.arrived| == 1) && |w.running| + |w.arrived| <= 1
            && (w.gui.confirmed ==> w.gui.selected.Some?)
  {
    RunIsSound(cache, targetOs, inputs);
    hide Run;
  }

  /** After a target-changed outcome no Switch is submitted until a Configure succeeds. */
  lemma ChangedBlocksSwitch(cache: CacheLoad, targetOs: Os, inputs: seq<Input>, i: nat, k: nat)
    requires var log := Run(cache, targetOs, inputs).log;
             && i < k < |log| && log[k].Submitted? && log[k].request.Switch?
             && log[i].Completed? && OutcomeState(log[i].request, log[i].answer, targetOs).TargetChanged?
    ensures var log := Run(cache, targetOs, inputs).log;
            exists j :: i < j < k && Succeeded(log[j], targetOs) && log[j].request.Configure?
  {
    var log := Run(cache, targetOs, inputs).log;
    RunIsPermitted(cache, targetOs, inputs);
    hide Run;
    ChangedStays(log[..k], i, targetOs);
    var j :| i < j < |log[..k]| && Succeeded(log[..k][j], targetOs) && log[..k][j].request.Configure?;
    assert Succeeded(log[j], targetOs);
  }

  lemma {:induction false} ChangedStays(log: seq<Entry>, i: nat, os: Os)
    requires i < |log| && log[i].Completed? && OutcomeState(log[i].request, log[i].answer, os).TargetChanged?
    requires !Changed(log, os)
    ensures exists j :: i < j < |log| && Succeeded(log[j], os) && log[j].request.Configure?
  {
    hide OutcomeState;
    var last := |log| - 1;
    if i < last && !(Succeeded(log[last], os) && log[last].request.Configure?) {
      ChangedStays(log[..last], i, os);
      var j :| i < j < |log[..last]| && Succeeded(log[..last][j], os) && log[..last][j].request.Configure?;
      assert Succeeded(log[j], os);
    }
  }

  /**
   * After an unknown, reboot-requested, unsupported-record or durability-unknown outcome only Inspect is
   * submitted until one Inspect succeeds, however many inspections fail in between.
   */
  lemma UnsettledAllowsOnlyInspect(cache: CacheLoad, targetOs: Os, inputs: seq<Input>, i: nat, k: nat)
    requires var log := Run(cache, targetOs, inputs).log;
             && i < k < |log| && log[k].Submitted? && !log[k].request.Inspect?
             && log[i].Completed? && Blocks(OutcomeState(log[i].request, log[i].answer, targetOs))
    ensures var log := Run(cache, targetOs, inputs).log;
            exists j :: i < j < k && Succeeded(log[j], targetOs) && log[j].request.Inspect?
  {
    var log := Run(cache, targetOs, inputs).log;
    RunIsPermitted(cache, targetOs, inputs);
    hide Run;
    assert Permits(log[..k], log[k].request, targetOs);
    UnsettledStays(log[..k], i, targetOs);
    var j :| i < j < |log[..k]| && Succeeded(log[..k][j], targetOs) && log[..k][j].request.Inspect?;
    assert Succeeded(log[j], targetOs);
  }

  lemma {:induction false} UnsettledStays(log: seq<Entry>, i: nat, os: Os)
    requires i < |log| && log[i].Completed? && Blocks(OutcomeState(log[i].request, log[i].answer, os))
    requires !Unsettled(log, os)
    ensures exists j :: i < j < |log| && Succeeded(log[j], os) && log[j].request.Inspect?
  {
    hide OutcomeState;
    var last := |log| - 1;
    if i < last && !(Succeeded(log[last], os) && log[last].request.Inspect?) {
      UnsettledStays(log[..last], i, os);
      var j :| i < j < |log[..last]| && Succeeded(log[..last][j], os) && log[..last][j].request.Inspect?;
      assert Succeeded(log[j], os);
    }
  }

  /**
   * Whenever Configure(id) is submitted, the last completed job was a successful Inspect listing `id` as
   * supported, since then `id` was the last choice, and it was confirmed after that.
   */
  lemma ConfigureProvenance(cache: CacheLoad, targetOs: Os, inputs: seq<Input>, k: nat)
    requires var log := Run(cache, targetOs, inputs).log;
             k < |log| && log[k].Submitted? && log[k].request.Configure?
    ensures var log := Run(cache, targetOs, inputs).log;
            var id := log[k].request.bootId;
            && log[k].request.os == targetOs
            && exists c, i :: && 0 <= c < i < k - 1
                              && Succeeded(log[c], targetOs) && log[c].request.Inspect?
                              && Lists(log[c].answer.value.candidates, id)
                              && log[i] == Chose(Some(id)) && log[k - 1] == Ticked(true)
                              && (forall j | c < j < k :: log[j].Chose? || log[j].Ticked?)
                              && (forall j | i < j < k :: log[j].Ticked?)
  {
    var log := Run(cache, targetOs, inputs).log;
    RunIsPermitted(cache, targetOs, inputs);
    hide Run;
    var request := log[k].request;
    assert Permits(log[..k], request, targetOs);
    var c := ListedSince(log[..k], targetOs);
    var i := PickedSince(log[..k]);
    assert log[k - 1] == Ticked(true);
    assert log[..k][c] == log[c] && log[..k][i] == log[i];
    assert c < i;
    forall j | c < j < k ensures log[j].Chose? || log[j].Ticked? {
      assert log[..k][j] == log[j];
    }
    forall j | i < j < k ensures log[j].Ticked? {
      assert log[..k][j] == log[j];
    }
  }

  lemma {:induction false} ListedSince(log: seq<Entry>, os: Os) returns (c: nat)
    requires Listed(log, os).Some?
    ensures c < |log| && Succeeded(log[c], os) && log[c].request.Inspect?
    ensures Listed(log, os).value == log[c].answer.value.candidates
    ensures forall j | c < j < |log| :: log[j].Chose? || log[j].Ticked?
  {
    var last := |log| - 1;
    if log[last].Chose? || log[last].Ticked? {
      c := ListedSince(log[..last], os);
    } else {
      c := last;
    }
  }

  lemma {:induction false} PickedSince(log: seq<Entry>) returns (i: nat)
    requires Picked(log).Some?
    ensures i < |log| && log[i] == Chose(Picked(log))
    ensures forall j | i < j < |log| :: log[j].Ticked?
  {
    var last := |log| - 1;
    if log[last].Ticked? {
      i := PickedSince(log[..last]);
    } else {
      i := last;
    }
  }

  // What a failure is shown as.

  /**
   * A failure that went past validation reopens switching exactly when the reboot was explicitly
   * rejected and no earlier evidence is latched.
   */
  lemma MutationEvidenceBlocks(g: Gui, error: Error)
    requires WentFurther(error) && RecoveryMatches(g)
    ensures Fail(g, Domain(error)).CanSwitch() <==>
              RootCause(error).RebootRejectedError? && g.recovery.None? && !g.state.TargetChanged?
  {
  }
}
