/** What the launcher protocol guarantees over all runs. */
module LauncherSafety {
  import opened Json
  import opened Launcher

  // ----- A release becomes active only by passing its trial -----

  /** Positions in a run at which the current trial was selected, started, registered and ready. */
  datatype Marks = Marks(load: nat, start: nat, registered: nat, ready: nat)

  /** No release is selected and no boot happens from this position on. */
  ghost predicate SameTrialSince(events: seq<Event>, k: nat) {
    forall i :: k < i < |events| ==> !events[i].Load? && !events[i].Boot?
  }

  /** The run explains the trial: it was loaded as recorded, and each flag has its event, in order. */
  ghost predicate Explains(events: seq<Event>, m: Marks, u: State) {
    && m.load < |events| && events[m.load].Load? && SameTrialSince(events, m.load)
    && After(INITIAL, events[..m.load]).Some?
    && After(INITIAL, events[..m.load]).value.file == u.trial.snapshot
    && (u.trial.started ==> m.load < m.start < |events| && events[m.start].Start?)
    && (u.trial.registered ==> u.trial.started && m.start < m.registered < |events| && events[m.registered].Registered?)
    && (u.trial.ready ==> u.trial.registered && m.registered < m.ready < |events| && events[m.ready].Ready?)
  }

  predicate InTrial(stage: Stage) {
    Running(stage) || stage.Checking? || stage.Failing? || stage.Reloading?
  }

  lemma FrontKeeps(events: seq<Event>, m: Marks, u: State)
    requires events != [] && !events[|events| - 1].Load? && !events[|events| - 1].Boot?
    requires Explains(events[..|events| - 1], m, u)
    ensures Explains(events, m, u)
  {
    var front := events[..|events| - 1];
    assert front[..m.load] == events[..m.load];
  }

  lemma {:induction false} TrialHistory(events: seq<Event>, u: State) returns (m: Marks)
    requires After(INITIAL, events) == Some(u) && InTrial(u.stage)
    ensures Explains(events, m, u)
    decreases |events|
  {
    hide Next, Invariant, Explains;
    var n := |events| - 1;
    var front, last := events[..n], events[n];
    var w := After(INITIAL, front).value;
    if last.Load? {
      m := Marks(n, 0, 0, 0);
      LoadExplains(events, m, w, u);
    } else {
      TrialContinues(w, last, u);
      m := TrialHistory(front, w);
      InitialIsSound();
      RunKeepsInvariant(INITIAL, front, w);
      m := Extended(events, m, w, u);
    }
  }

  lemma LoadExplains(events: seq<Event>, m: Marks, w: State, u: State)
    requires events != [] && events[|events| - 1].Load? && m.load == |events| - 1
    requires After(INITIAL, events[..m.load]) == Some(w) && Next(w, Load) == Some(u) && InTrial(u.stage)
    ensures Explains(events, m, u)
  {
  }

  lemma Extended(events: seq<Event>, before: Marks, w: State, u: State) returns (m: Marks)
    requires events != [] && !events[|events| - 1].Load? && Invariant(w) && InTrial(u.stage)
    requires Next(w, events[|events| - 1]) == Some(u)
    requires Explains(events[..|events| - 1], before, w)
    ensures Explains(events, m, u)
  {
    var n := |events| - 1;
    var last := events[n];
    TrialContinues(w, last, u);
    FlagsInOrder(w, last, u);
    FrontKeeps(events, before, w);
    hide Next, Invariant;
    m := before;
    if last.Start? { m := m.(start := n); }
    if last.Registered? { m := m.(registered := n); }
    if last.Ready? { m := m.(ready := n); }
  }

  lemma FlagsInOrder(s: State, e: Event, u: State)
    requires Invariant(s) && Next(s, e) == Some(u)
    ensures e.Start? ==> !s.trial.started && !s.trial.registered && !s.trial.ready
    ensures e.Registered? ==> s.trial.started && !s.trial.ready
    ensures e.Ready? ==> s.trial.started && s.trial.registered
  {
  }

  /** Between a load and the next one only Start, Registered and Ready set flags of the trial. */
  lemma TrialContinues(s: State, e: Event, u: State)
    requires Next(s, e) == Some(u) && InTrial(u.stage) && !e.Load?
    ensures InTrial(s.stage) && !e.Boot?
    ensures u.trial.snapshot == s.trial.snapshot && u.trial.version == s.trial.version
         && u.trial.isCandidate == s.trial.isCandidate
    ensures u.trial.started == (s.trial.started || e.Start?)
    ensures u.trial.registered == (s.trial.registered || e.Registered?)
    ensures u.trial.ready == (s.trial.ready || e.Ready?)
  {
  }

  /** Where a version earned its place: it was the candidate of the loaded state, and then started,
      registered, became READY and outlived the hold, in that order and within one trial. */
  ghost predicate PassedTrial(events: seq<Event>, v: string, m: Marks, held: nat) {
    && m.load < m.start < m.registered < m.ready < held < |events|
    && events[m.load].Load? && events[m.start].Start? && events[m.registered].Registered? && events[m.ready].Ready?
    && events[held].HoldElapsed?
    && SameTrialSince(events[..held], m.load)
    && After(INITIAL, events[..m.load]).Some?
    && After(INITIAL, events[..m.load]).value.file.candidate == v
  }

  lemma {:induction false} EarnedByTrial(events: seq<Event>, u: State, v: string) returns (m: Marks, held: nat)
    requires After(INITIAL, events) == Some(u) && v in u.earned
    ensures PassedTrial(events, v, m, held)
    decreases |events|
  {
    var n := |events| - 1;
    var front, last := events[..n], events[n];
    var w := After(INITIAL, front).value;
    if v in w.earned {
      m, held := EarnedByTrial(front, w, v);
      EarlierTrialCounts(events, v, m, held);
    } else {
      InitialIsSound();
      RunKeepsInvariant(INITIAL, front, w);
      EarnedNow(w, last, u, v);
      held := n;
      m := TrialHistory(front, w);
      assert front[..m.load] == events[..m.load] && events[..held] == front;
    }
  }

  lemma EarlierTrialCounts(events: seq<Event>, v: string, m: Marks, held: nat)
    requires events != [] && PassedTrial(events[..|events| - 1], v, m, held)
    ensures PassedTrial(events, v, m, held)
  {
    var front := events[..|events| - 1];
    assert front[..held] == events[..held] && front[..m.load] == events[..m.load];
  }

  lemma EarnedNow(s: State, e: Event, u: State, v: string)
    requires Invariant(s) && Next(s, e) == Some(u) && v in u.earned && v !in s.earned
    ensures e.HoldElapsed? && s.stage.Holding? && s.trial.version == v == s.trial.snapshot.candidate
    ensures s.trial.started && s.trial.registered && s.trial.ready
  {
  }

  /** Over every run, whatever is active or last good passed its trial as the candidate. */
  lemma ActivePassedTrial(events: seq<Event>, u: State)
    requires After(INITIAL, events) == Some(u)
    ensures u.file.active != "" ==> exists m, held :: PassedTrial(events, u.file.active, m, held)
    ensures u.file.lastGood != "" ==> exists m, held :: PassedTrial(events, u.file.lastGood, m, held)
  {
    hide Next, PassedTrial;
    InitialIsSound();
    RunKeepsInvariant(INITIAL, events, u);
    if u.file.active != "" { var m, held := EarnedByTrial(events, u, u.file.active); }
    if u.file.lastGood != "" { var m, held := EarnedByTrial(events, u, u.file.lastGood); }
  }

  // ----- Failures -----

  /** A failing candidate leaves last-good active and no candidate; a failing active release, and
      every other step of a trial of the active release, leaves the state file alone. */
  lemma FailureRestoresLastGood(s: State, e: Event, u: State)
    requires Invariant(s) && Next(s, e) == Some(u)
    ensures e == Fail(true) && s.trial.isCandidate ==>
              && u.file.candidate == ""
              && u.file.active == u.file.lastGood == s.trial.snapshot.lastGood
              && (u.file.active == "" || u.file.active in s.earned)
    ensures InTrial(s.stage) && !s.trial.isCandidate && !e.PrepareSave? ==> u.file == s.file
  {
    StepKeepsInvariant(s, e, u);
  }

  // ----- The exit is received exactly once -----

  /** At most one managed process is alive over any number of handoffs. While a step waits for an
      exit, none has been received since the start and one is in the channel or still to come; once
      the release is over it has been received exactly once. */
  lemma ExitReceivedOnce(events: seq<Event>, u: State)
    requires After(INITIAL, events) == Some(u)
    ensures u.live <= 1
    ensures Waiting(u.stage) ==> u.received == 0 && (u.queued == 1 || u.live == 1)
    ensures u.stage.Failing? || u.stage.Reloading? || u.stage.Stopped? ==>
              u.live == 0 && u.queued == 0 && u.received == if u.trial.started then 1 else 0
    ensures Next(u, Start).Some? ==> u.live == 0
  {
    InitialIsSound();
    RunKeepsInvariant(INITIAL, events, u);
  }
}
