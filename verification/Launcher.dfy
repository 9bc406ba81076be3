/** The launcher's candidate, confirm and rollback protocol as a state machine
    (internal/launcher/launcher.go, with internal/state and internal/update). The launcher loop, the
    managed process, the update transitions and crashes interleave; every load and every save of the
    state file is a step of its own. */
module Launcher {
  import opened Json

  // ----- The state file -----

  /** An empty version stands for none. */
  datatype Runtime = Runtime(generation: nat, active: string, candidate: string, lastGood: string, attempt: nat)

  const EMPTY_RUNTIME := Runtime(0, "", "", "", 0)

  /** The consistency part of state.Validate. */
  predicate Valid(r: Runtime) {
    r.candidate == "" ==> r.active == r.lastGood
  }

  function Prepared(r: Runtime, v: string): (s: Runtime)
    requires r.candidate == ""
  {
    r.(generation := r.generation + 1, attempt := r.attempt + 1, candidate := v)
  }

  function Confirmed(r: Runtime): (s: Runtime) {
    r.(generation := r.generation + 1, active := r.candidate, lastGood := r.candidate, candidate := "")
  }

  function RolledBack(r: Runtime): (s: Runtime) {
    r.(generation := r.generation + 1, candidate := "", active := r.lastGood)
  }

  // ----- The launcher -----

  /** One managed release: what was loaded, what was selected and how far it came. */
  datatype Trial = Trial(
    snapshot: Runtime, version: string, isCandidate: bool, started: bool, registered: bool, ready: bool, held: bool)

  /** Where the loop of RunB0 and runManagedRelease stands. */
  datatype Stage =
    | Loading
    | Installing
    | Checking
    | Registering
    | Readying
    | Holding
    | Confirming
    | Serving
    | Draining(failed: bool)  // killed, waiting for the exit
    | Failing                 // failCandidate is about to run
    | Reloading               // the release has exited and its candidate is looked up
    | Stopped

  /** A preparation of an update that has loaded the state and not saved it yet. */
  datatype Preparation = Preparation(snapshot: Runtime, version: string)

  datatype State = State(
    file: Runtime,
    preparing: map<nat, Preparation>,
    stage: Stage,
    trial: Trial,
    live: nat,            // managed launcher processes alive
    queued: nat,          // exits waiting in the channel
    received: nat,        // exits received since the last start
    earned: set<string>,  // versions that completed a trial as candidate
    outstanding: set<string>)  // versions prepared and not selected since

  const NO_TRIAL := Trial(EMPTY_RUNTIME, "", false, false, false, false, false)

  datatype Event =
    | PrepareLoad(id: nat, version: string)
    | PrepareSave(id: nat)
    | PrepareAbort(id: nat)
    | Load
    | InstallDone
    | InstallFailed
    | CheckFailed
    | Start
    | Exit
    | Registered
    | RegisterFailed
    | Ready
    | ReadyFailed
    | HoldElapsed
    | Cancelled
    | ConfirmSave
    | ConfirmFailed(replaced: bool)  // the save failed, before or after it replaced the file
    | ReceiveExit(clean: bool)
    | Fail(saved: bool)
    | Reload(absent: bool)
    | Boot

  predicate Selectable(file: Runtime, v: string) {
    v != "" && file.candidate == "" && v != file.active
  }

  /** The select statements that wait for the exit of the process. */
  predicate Waiting(stage: Stage) {
    stage.Registering? || stage.Readying? || stage.Holding? || stage.Draining? || stage.Serving?
  }

  function AfterExit(stage: Stage, clean: bool): (r: Stage) {
    match stage
    case Serving => if clean then Reloading else Stopped
    case Draining(failed) => if failed then Failing else Stopped
    case _ => Failing
  }

  /** One step, if the event can happen in this state. */
  function Next(s: State, e: Event): (r: Option<State>) {
    match e
    case PrepareLoad(id, v) =>
      if id !in s.preparing && Selectable(s.file, v)
      then Some(s.(preparing := s.preparing[id := Preparation(s.file, v)])) else None
    case PrepareSave(id) =>
      if id in s.preparing && s.preparing[id].snapshot.candidate == "" then
        var p := s.preparing[id];
        Some(s.(file := Prepared(p.snapshot, p.version), preparing := s.preparing - {id},
                outstanding := s.outstanding + {p.version}))
      else None
    case PrepareAbort(id) => if id in s.preparing then Some(s.(preparing := s.preparing - {id})) else None
    case Load =>
      if !s.stage.Loading? then None
      else if s.file.candidate != "" then
        Some(s.(stage := Checking, trial := Trial(s.file, s.file.candidate, true, false, false, false, false),
                received := 0, outstanding := s.outstanding - {s.file.candidate}))
      else if s.file.active != "" then
        Some(s.(stage := Checking, trial := Trial(s.file, s.file.active, false, false, false, false, false), received := 0))
      else Some(s.(stage := Installing, trial := NO_TRIAL, received := 0))
    case InstallDone => if s.stage.Installing? then Some(s.(stage := Loading)) else None
    case InstallFailed => if s.stage.Installing? then Some(s.(stage := Stopped)) else None
    case CheckFailed => if s.stage.Checking? then Some(s.(stage := Failing)) else None
    case Start =>
      if s.stage.Checking?
      then Some(s.(stage := Registering, trial := s.trial.(started := true), live := s.live + 1, received := 0))
      else None
    case Exit => if s.live > 0 then Some(s.(live := s.live - 1, queued := s.queued + 1)) else None
    case Registered =>
      if s.stage.Registering? then Some(s.(stage := Readying, trial := s.trial.(registered := true))) else None
    case RegisterFailed => if s.stage.Registering? then Some(s.(stage := Draining(true))) else None
    case Ready => if s.stage.Readying? then Some(s.(stage := Holding, trial := s.trial.(ready := true))) else None
    case ReadyFailed => if s.stage.Readying? then Some(s.(stage := Draining(true))) else None
    case HoldElapsed =>
      if !s.stage.Holding? then None
      else
        var t := s.trial.(held := true);
        Some(s.(stage := if t.isCandidate then Confirming else Serving, trial := t,
                earned := if t.isCandidate && t.registered && t.ready then s.earned + {t.version} else s.earned))
    case Cancelled => if s.stage.Holding? then Some(s.(stage := Draining(true))) else None
    case ConfirmSave =>
      if s.stage.Confirming? then Some(s.(stage := Serving, file := Confirmed(s.trial.snapshot))) else None
    case ConfirmFailed(replaced) =>
      if s.stage.Confirming?
      then Some(s.(stage := Draining(false), file := if replaced then Confirmed(s.trial.snapshot) else s.file)) else None
    case ReceiveExit(clean) =>
      if Waiting(s.stage) && s.queued > 0
      then Some(s.(stage := AfterExit(s.stage, clean), queued := s.queued - 1, received := s.received + 1)) else None
    case Fail(saved) =>
      if !s.stage.Failing? then None
      else Some(s.(stage := Stopped,
                   file := if s.trial.isCandidate && saved then RolledBack(s.trial.snapshot) else s.file))
    case Reload(absent) =>
      if !s.stage.Reloading? then None
      else Some(s.(stage := if s.file.candidate == "" || s.file.candidate == s.trial.version || !absent
                            then Stopped else Loading))
    case Boot =>
      Some(s.(preparing := map[], stage := Loading, trial := NO_TRIAL, live := 0, queued := 0, received := 0))
  }

  /** A fresh installation at boot. */
  const INITIAL := State(EMPTY_RUNTIME, map[], Loading, NO_TRIAL, 0, 0, 0, {}, {})

  /** The state after a run of events, if every one of them could happen. */
  function After(s: State, events: seq<Event>): (r: Option<State>)
    decreases |events|
  {
    if events == [] then Some(s)
    else match After(s, events[..|events| - 1])
      case None => None
      case Some(u) => Next(u, events[|events| - 1])
  }

  // ----- What every step keeps -----

  /** Whatever the record calls active or last good has earned it. */
  ghost predicate Backed(r: Runtime, earned: set<string>) {
    Valid(r) && (r.active == "" || r.active in earned) && (r.lastGood == "" || r.lastGood in earned)
  }

  predicate Running(stage: Stage) {
    Waiting(stage) || stage.Confirming?
  }

  ghost predicate Invariant(s: State) {
    && Backed(s.file, s.earned)
    && (forall id :: id in s.preparing ==>
          Backed(s.preparing[id].snapshot, s.earned) && Selectable(s.preparing[id].snapshot, s.preparing[id].version))
    && TrialSound(s)
    && ProcessSound(s)
  }

  /** The trial is of what was selected from its snapshot, and has come as far as its stage says. */
  ghost predicate TrialSound(s: State) {
    && Backed(s.trial.snapshot, s.earned)
    && (s.trial.isCandidate ==> s.trial.version == s.trial.snapshot.candidate != "")
    && (Running(s.stage) || s.stage.Checking? || s.stage.Failing? ==> s.trial.version != "")
    && (s.stage.Checking? || s.stage.Installing? ==> !s.trial.started)
    && (s.stage.Checking? || s.stage.Registering? ==> !s.trial.registered && !s.trial.ready)
    && (s.stage.Readying? ==> !s.trial.ready)
    && (s.stage.Readying? || s.stage.Holding? ==> s.trial.registered)
    && (s.stage.Holding? ==> s.trial.ready)
    && (s.stage.Confirming? ==> s.trial.isCandidate && s.trial.registered && s.trial.ready && s.trial.held)
    && (s.stage.Confirming? ==> s.trial.version in s.earned)
  }

  /** One process at most is alive; while its exit is awaited it has not been received, and is in
      the channel or still to come; afterwards it has been received exactly once. */
  ghost predicate ProcessSound(s: State) {
    if Running(s.stage) then s.trial.started && s.live + s.queued == 1 && s.received == 0
    else
      && s.live == 0 && s.queued == 0
      && (!s.stage.Loading? ==> s.received == if s.trial.started then 1 else 0)
  }

  lemma InitialIsSound()
    ensures Invariant(INITIAL)
  {
  }

  lemma StepKeepsInvariant(s: State, e: Event, u: State)
    requires Invariant(s) && Next(s, e) == Some(u)
    ensures Invariant(u)
  {
    hide Prepared, Confirmed, RolledBack;
    StepKeepsRecords(s, e, u);
    StepKeepsTrial(s, e, u);
    StepKeepsProcess(s, e, u);
    hide Next;
  }

  lemma StepKeepsRecords(s: State, e: Event, u: State)
    requires Invariant(s) && Next(s, e) == Some(u)
    ensures Backed(u.file, u.earned)
    ensures forall id :: id in u.preparing ==>
              Backed(u.preparing[id].snapshot, u.earned) && Selectable(u.preparing[id].snapshot, u.preparing[id].version)
  {
    hide ProcessSound;
  }

  lemma StepKeepsTrial(s: State, e: Event, u: State)
    requires Invariant(s) && Next(s, e) == Some(u)
    ensures TrialSound(u)
  {
    hide ProcessSound, Prepared, Confirmed, RolledBack;
  }

  lemma StepKeepsProcess(s: State, e: Event, u: State)
    requires Invariant(s) && Next(s, e) == Some(u)
    ensures ProcessSound(u)
  {
    hide Backed, Prepared, Confirmed, RolledBack, Selectable;
  }

  lemma {:induction false} RunKeepsInvariant(s: State, events: seq<Event>, u: State)
    requires Invariant(s) && After(s, events) == Some(u)
    ensures Invariant(u)
    decreases |events|
  {
    if events != [] {
      var front := After(s, events[..|events| - 1]).value;
      RunKeepsInvariant(s, events[..|events| - 1], front);
      StepKeepsInvariant(front, events[|events| - 1], u);
    }
  }
}
