/** What the launcher goes on to do: which events fit which stage, and the runs that install, try,
    confirm, roll back, serve and hand off. */
module LauncherProgress {
  import opened Json
  import opened Launcher

  lemma OneMore(s: State, events: seq<Event>, u: State, e: Event) returns (longer: seq<Event>, w: State)
    requires After(s, events) == Some(u) && Next(u, e).Some?
    ensures longer == events + [e] && Next(u, e) == Some(w) && After(s, longer) == Some(w)
  {
    longer, w := events + [e], Next(u, e).value;
    assert longer[..|events|] == events;
  }

  // ----- Which events fit which stage -----

  /** The launcher's own steps, stage by stage; exits, preparations and boots are not bound to one. */
  lemma EventsFitStages(s: State)
    ensures Next(s, Load).Some? <==> s.stage.Loading?
    ensures Next(s, InstallDone).Some? <==> s.stage.Installing?
    ensures Next(s, InstallFailed).Some? <==> s.stage.Installing?
    ensures Next(s, CheckFailed).Some? <==> s.stage.Checking?
    ensures Next(s, Start).Some? <==> s.stage.Checking?
    ensures Next(s, Registered).Some? <==> s.stage.Registering?
    ensures Next(s, RegisterFailed).Some? <==> s.stage.Registering?
    ensures Next(s, Ready).Some? <==> s.stage.Readying?
    ensures Next(s, ReadyFailed).Some? <==> s.stage.Readying?
  {
  }

  lemma LaterEventsFitStages(s: State, flag: bool)
    ensures Next(s, HoldElapsed).Some? <==> s.stage.Holding?
    ensures Next(s, Cancelled).Some? <==> s.stage.Holding?
    ensures Next(s, ConfirmSave).Some? <==> s.stage.Confirming?
    ensures Next(s, ConfirmFailed(flag)).Some? <==> s.stage.Confirming?
    ensures Next(s, Fail(flag)).Some? <==> s.stage.Failing?
    ensures Next(s, Reload(flag)).Some? <==> s.stage.Reloading?
  {
  }

  lemma ExitsFitStages(s: State, flag: bool)
    ensures Next(s, ReceiveExit(flag)).Some? <==>
              s.queued > 0 && (s.stage.Registering? || s.stage.Readying? || s.stage.Holding? || s.stage.Serving? || s.stage.Draining?)
    ensures Next(s, Exit).Some? <==> s.live > 0
    ensures Next(s, Boot).Some? && Next(s, Boot).value.stage.Loading? && Next(s, Boot).value.preparing == map[]
    ensures Next(s, Boot).value.live == 0 && Next(s, Boot).value.queued == 0
    ensures Next(s, Boot).value.file == s.file && Next(s, Boot).value.outstanding == s.outstanding && Next(s, Boot).value.earned == s.earned
  {
  }

  /** A preparation is loaded for a version that is neither active nor beside a pending candidate, and
      saved from what was loaded. */
  lemma PreparationsFit(s: State, id: nat, v: string)
    ensures Next(s, PrepareLoad(id, v)).Some? <==>
              id !in s.preparing && v != "" && v != s.file.active && s.file.candidate == ""
    ensures Next(s, PrepareSave(id)).Some? <==> id in s.preparing && s.preparing[id].snapshot.candidate == ""
    ensures Next(s, PrepareAbort(id)).Some? <==> id in s.preparing
  {
  }

  // ----- One step -----

  /** After a clean exit the launcher loads again exactly when the state file holds another candidate
      and the release is gone, and stops otherwise; the next load then tries that candidate. */
  lemma ReloadDecides(u: State, absent: bool)
    requires u.stage.Reloading?
    ensures var w := Next(u, Reload(absent));
      && w.Some? && w.value.file == u.file && w.value.live == u.live && w.value.queued == u.queued
      && (w.value.stage.Loading? <==> absent && u.file.candidate != "" && u.file.candidate != u.trial.version)
      && (w.value.stage.Loading? || w.value.stage.Stopped?)
  {
  }

  /** The loop goes round: a reload and then a load of this candidate. */
  ghost predicate GoesRound(u: State, v: string) {
    && Next(u, Reload(true)).Some?
    && Next(u, Reload(true)).value.stage.Loading?
    && Next(Next(u, Reload(true)).value, Load).Some?
    && var x := Next(Next(u, Reload(true)).value, Load).value;
       x.stage.Checking? && x.trial.isCandidate && x.trial.version == v && x.trial.snapshot == u.file
  }

  lemma ReloadGoesRound(u: State)
    requires u.stage.Reloading? && u.file.candidate != "" && u.file.candidate != u.trial.version
    ensures GoesRound(u, u.file.candidate)
  {
  }

  /** Where each failure and each exit leads; none of them touches the state file. */
  lemma FailuresLead(s: State, e: Event, u: State)
    requires Next(s, e) == Some(u)
    ensures e.CheckFailed? ==> u.stage.Failing?
    ensures e.RegisterFailed? || e.ReadyFailed? || e.Cancelled? ==> u.stage == Draining(true)
    ensures e.ReceiveExit? && (s.stage.Registering? || s.stage.Readying? || s.stage.Holding? || s.stage == Draining(true)) ==> u.stage.Failing?
    ensures e.ReceiveExit? && s.stage == Draining(false) ==> u.stage.Stopped?
    ensures e.ReceiveExit? && s.stage.Serving? ==> if e.clean then u.stage.Reloading? else u.stage.Stopped?
    ensures e.InstallFailed? ==> u.stage.Stopped?
    ensures e.InstallDone? ==> u.stage.Loading?
    ensures e.CheckFailed? || e.RegisterFailed? || e.ReadyFailed? || e.Cancelled? || e.ReceiveExit? || e.InstallFailed? || e.InstallDone? ==>
              u.file == s.file && u.trial == s.trial
    ensures e.ReceiveExit? ==> u.queued == s.queued - 1 && u.received == s.received + 1 && u.live == s.live
    ensures e.Exit? ==> u == s.(live := s.live - 1, queued := s.queued + 1)
  {
  }

  /** The saves, column by column. */
  lemma SavesWrite(s: State, e: Event, u: State)
    requires Next(s, e) == Some(u)
    ensures e.ConfirmSave? || e == ConfirmFailed(true) ==>
              u.file == Runtime(s.trial.snapshot.generation + 1, s.trial.snapshot.candidate, "", s.trial.snapshot.candidate, s.trial.snapshot.attempt)
    ensures e.ConfirmSave? ==> u.stage.Serving?
    ensures e.ConfirmFailed? ==> u.stage == Draining(false)
    ensures e == Fail(true) && s.trial.isCandidate ==>
              u.file == Runtime(s.trial.snapshot.generation + 1, s.trial.snapshot.lastGood, "", s.trial.snapshot.lastGood, s.trial.snapshot.attempt)
    ensures e.Fail? ==> u.stage.Stopped?
    ensures e.Fail? && !(e.saved && s.trial.isCandidate) ==> u.file == s.file
    ensures e.PrepareSave? ==>
              var p := s.preparing[e.id];
              && u.file == Runtime(p.snapshot.generation + 1, p.snapshot.active, p.version, p.snapshot.lastGood, p.snapshot.attempt + 1)
              && u.preparing == s.preparing - {e.id} && u.stage == s.stage
  {
  }

  // ----- Whole runs, from any state -----

  lemma LoadStep(s: State)
    requires s.stage.Loading?
    ensures s.file.candidate != "" ==>
              Next(s, Load) == Some(s.(stage := Checking, trial := Trial(s.file, s.file.candidate, true, false, false, false, false),
                                       received := 0, outstanding := s.outstanding - {s.file.candidate}))
    ensures s.file.candidate == "" && s.file.active != "" ==>
              Next(s, Load) == Some(s.(stage := Checking, trial := Trial(s.file, s.file.active, false, false, false, false, false),
                                       received := 0))
    ensures s.file.candidate == "" && s.file.active == "" ==>
              Next(s, Load) == Some(s.(stage := Installing, trial := Trial(EMPTY_RUNTIME, "", false, false, false, false, false), received := 0))
  {
  }

  lemma TrialStep(s: State)
    ensures s.stage.Checking? ==>
              Next(s, Start) == Some(s.(stage := Registering, trial := s.trial.(started := true), live := s.live + 1, received := 0))
    ensures s.stage.Registering? ==> Next(s, Registered) == Some(s.(stage := Readying, trial := s.trial.(registered := true)))
    ensures s.stage.Readying? ==> Next(s, Ready) == Some(s.(stage := Holding, trial := s.trial.(ready := true)))
  {
  }

  lemma HoldStep(s: State)
    requires s.stage.Holding?
    ensures s.trial.isCandidate && s.trial.registered && s.trial.ready ==>
              Next(s, HoldElapsed) == Some(s.(stage := Confirming, trial := s.trial.(held := true), earned := s.earned + {s.trial.version}))
    ensures !s.trial.isCandidate ==> Next(s, HoldElapsed) == Some(s.(stage := Serving, trial := s.trial.(held := true)))
  {
  }

  /** From a selection to the hold. */
  lemma TrialHolds(s: State, a: State) returns (events: seq<Event>, u: State)
    requires Next(s, Load) == Some(a) && a.stage.Checking?
    ensures events == [Load, Start, Registered, Ready] && After(s, events) == Some(u)
    ensures u == a.(stage := Holding, trial := a.trial.(started := true, registered := true, ready := true), live := a.live + 1, received := 0)
  {
    assert After(s, []) == Some(s);
    hide After, Next;
    TrialStep(a);
    events, u := OneMore(s, [], s, Load);
    events, u := OneMore(s, events, u, Start);
    TrialStep(u);
    events, u := OneMore(s, events, u, Registered);
    TrialStep(u);
    events, u := OneMore(s, events, u, Ready);
  }

  /** A candidate that starts, registers, becomes ready and outlives the hold is confirmed. */
  lemma CandidateIsConfirmed(s: State) returns (u: State)
    requires s.stage.Loading? && s.file.candidate != ""
    ensures After(s, [Load, Start, Registered, Ready, HoldElapsed, ConfirmSave]) == Some(u)
    ensures u.stage.Serving? && u.live == s.live + 1 && u.trial.version == s.file.candidate
    ensures u.file == Runtime(s.file.generation + 1, s.file.candidate, "", s.file.candidate, s.file.attempt)
    ensures u.earned == s.earned + {s.file.candidate} && u.outstanding == s.outstanding - {s.file.candidate}
  {
    LoadStep(s);
    var events;
    events, u := TrialHolds(s, Next(s, Load).value);
    hide After, Next;
    HoldStep(u);
    events, u := OneMore(s, events, u, HoldElapsed);
    ConfirmStep(u);
    events, u := OneMore(s, events, u, ConfirmSave);
    assert events == [Load, Start, Registered, Ready, HoldElapsed, ConfirmSave];
  }

  lemma ConfirmStep(s: State)
    requires s.stage.Confirming?
    ensures var r := s.trial.snapshot;
      Next(s, ConfirmSave) == Some(s.(stage := Serving, file := Runtime(r.generation + 1, r.candidate, "", r.candidate, r.attempt)))
  {
  }

  /** Without a candidate the active release is started, and serves without any save. */
  lemma ActiveServes(s: State) returns (u: State)
    requires s.stage.Loading? && s.file.candidate == "" && s.file.active != ""
    ensures After(s, [Load, Start, Registered, Ready, HoldElapsed]) == Some(u)
    ensures u.stage.Serving? && u.live == s.live + 1 && u.file == s.file && u.earned == s.earned
    ensures !u.trial.isCandidate && u.trial.version == s.file.active
  {
    LoadStep(s);
    var events;
    events, u := TrialHolds(s, Next(s, Load).value);
    hide After, Next;
    HoldStep(u);
    events, u := OneMore(s, events, u, HoldElapsed);
    assert events == [Load, Start, Registered, Ready, HoldElapsed];
  }

  lemma ExitStep(s: State, clean: bool)
    ensures s.live > 0 ==> Next(s, Exit) == Some(s.(live := s.live - 1, queued := s.queued + 1))
    ensures s.queued > 0 && s.stage.Serving? ==>
              Next(s, ReceiveExit(clean)) == Some(s.(stage := if clean then Reloading else Stopped, queued := s.queued - 1, received := s.received + 1))
    ensures s.queued > 0 && s.stage.Holding? ==>
              Next(s, ReceiveExit(clean)) == Some(s.(stage := Failing, queued := s.queued - 1, received := s.received + 1))
  {
  }

  /** A serving release that exits cleanly hands off to a candidate prepared meanwhile. */
  lemma ServingHandsOff(s: State) returns (u: State)
    requires s.stage.Serving? && s.live > 0
    requires s.file.candidate != "" && s.file.candidate != s.trial.version
    ensures After(s, [Exit, ReceiveExit(true), Reload(true)]) == Some(u)
    ensures u == s.(stage := Loading, live := s.live - 1, received := s.received + 1)
  {
    assert After(s, []) == Some(s);
    hide After, Next;
    var events;
    ExitStep(s, true);
    events, u := OneMore(s, [], s, Exit);
    ExitStep(u, true);
    events, u := OneMore(s, events, u, ReceiveExit(true));
    ReloadStep(u);
    events, u := OneMore(s, events, u, Reload(true));
    assert events == [Exit, ReceiveExit(true), Reload(true)];
  }

  lemma ReloadStep(s: State)
    requires s.stage.Reloading? && s.file.candidate != "" && s.file.candidate != s.trial.version
    ensures Next(s, Reload(true)) == Some(s.(stage := Loading))
  {
  }

  /** A candidate whose process exits during its trial is rolled back. */
  lemma CandidateIsRolledBack(s: State) returns (u: State)
    requires s.stage.Loading? && s.file.candidate != ""
    ensures After(s, [Load, Start, Registered, Ready, Exit, ReceiveExit(false), Fail(true)]) == Some(u)
    ensures u.stage.Stopped? && u.live == s.live && u.queued == s.queued && u.received == 1 && u.earned == s.earned
    ensures u.file == Runtime(s.file.generation + 1, s.file.lastGood, "", s.file.lastGood, s.file.attempt)
  {
    LoadStep(s);
    var events;
    events, u := TrialHolds(s, Next(s, Load).value);
    hide After, Next;
    ExitStep(u, false);
    events, u := OneMore(s, events, u, Exit);
    ExitStep(u, false);
    events, u := OneMore(s, events, u, ReceiveExit(false));
    RollBackStep(u);
    events, u := OneMore(s, events, u, Fail(true));
    assert events == [Load, Start, Registered, Ready, Exit, ReceiveExit(false), Fail(true)];
  }

  lemma RollBackStep(s: State)
    requires s.stage.Failing? && s.trial.isCandidate
    ensures var r := s.trial.snapshot;
      Next(s, Fail(true)) == Some(s.(stage := Stopped, file := Runtime(r.generation + 1, r.lastGood, "", r.lastGood, r.attempt)))
  {
  }

  /** A fresh installation that finds nothing to run installs a version and loads it as candidate. */
  lemma FreshInstallationLoads(v: string) returns (u: State)
    requires v != ""
    ensures After(INITIAL, [Load, PrepareLoad(1, v), PrepareSave(1), InstallDone]) == Some(u)
    ensures u.stage.Loading? && u.file == Runtime(1, "", v, "", 1) && u.outstanding == {v}
  {
    var events;
    events, u := OneMore(INITIAL, [], INITIAL, Load);
    hide After;
    events, u := OneMore(INITIAL, events, u, PrepareLoad(1, v));
    events, u := OneMore(INITIAL, events, u, PrepareSave(1));
    events, u := OneMore(INITIAL, events, u, InstallDone);
    assert events == [Load, PrepareLoad(1, v), PrepareSave(1), InstallDone];
  }
}
