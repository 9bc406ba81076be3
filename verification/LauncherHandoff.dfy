/** When a prepared candidate can be lost, and when it cannot. */
module LauncherHandoff {
  import opened Json
  import opened Launcher
  import opened LauncherProgress

  /** A candidate is on trial and its outcome is still to be saved from the snapshot loaded earlier. */
  predicate Deciding(s: State) {
    s.trial.isCandidate &&
    (s.stage.Checking? || s.stage.Registering? || s.stage.Readying? || s.stage.Holding? || s.stage.Confirming?
     || (s.stage.Draining? && s.stage.failed) || s.stage.Failing?)
  }

  lemma LoadSelects(s: State, u: State)
    requires s.file.candidate != "" && Next(s, Load) == Some(u)
    ensures u.trial.isCandidate && u.trial.version == s.file.candidate
  {
  }

  // ----- Exactly which steps lose a candidate -----

  /** A candidate was prepared, no load has selected it, and the state file does not hold it. */
  predicate Lost(s: State, v: string) {
    v in s.outstanding && s.file.candidate != v
  }

  /** A save of another preparation, or the save that ends a candidate's trial. */
  predicate Overwrites(s: State, e: Event) {
    || (e.PrepareSave? && e.id in s.preparing && s.preparing[e.id].version != s.file.candidate)
    || e.ConfirmSave?
    || e == ConfirmFailed(true)
    || (e == Fail(true) && s.trial.isCandidate)
  }

  /** The outstanding candidate of the state file is lost by a step if and only if the step is one
      of these saves. */
  lemma StepLosesIff(s: State, e: Event, u: State)
    requires Invariant(s) && Next(s, e) == Some(u) && s.file.candidate in s.outstanding && s.file.candidate != ""
    ensures Lost(u, s.file.candidate) <==> Overwrites(s, e)
  {
  }

  /** Only the outstanding candidate of the state file can be lost next. */
  lemma StepLosesNoOther(s: State, e: Event, u: State, v: string)
    requires Invariant(s) && Next(s, e) == Some(u) && Lost(u, v) && !Lost(s, v)
    ensures v == s.file.candidate && v in s.outstanding && Overwrites(s, e)
  {
    hide Invariant;
  }

  /** No step overwrites an outstanding candidate. */
  ghost predicate NeverOverwrites(s: State, events: seq<Event>)
    decreases |events|
  {
    events == [] ||
    var n := |events| - 1;
    && NeverOverwrites(s, events[..n])
    && (After(s, events[..n]).Some? ==>
          var w := After(s, events[..n]).value;
          !(w.file.candidate in w.outstanding && Overwrites(w, events[n])))
  }

  /** After no prefix of the run is a candidate lost. */
  ghost predicate NothingLost(s: State, events: seq<Event>)
    decreases |events|
  {
    && (events == [] || NothingLost(s, events[..|events| - 1]))
    && (After(s, events).Some? ==> forall v :: !Lost(After(s, events).value, v))
  }

  lemma StepNames(w: State, e: Event, u: State)
    requires Invariant(w) && Next(w, e) == Some(u) && "" !in w.outstanding
    ensures "" !in u.outstanding
  {
    hide TrialSound, ProcessSound, Backed, Prepared, Confirmed, RolledBack;
  }

  lemma {:induction false} OutstandingIsNamed(events: seq<Event>, u: State)
    requires After(INITIAL, events) == Some(u)
    ensures "" !in u.outstanding
    decreases |events|
  {
    hide Next, Invariant;
    if events != [] {
      var n := |events| - 1;
      var w := After(INITIAL, events[..n]).value;
      OutstandingIsNamed(events[..n], w);
      InitialIsSound();
      RunKeepsInvariant(INITIAL, events[..n], w);
      StepNames(w, events[n], u);
    }
  }

  lemma StepLoses(w: State, e: Event, u: State)
    requires Invariant(w) && Next(w, e) == Some(u) && "" !in w.outstanding && forall v :: !Lost(w, v)
    ensures (forall v :: !Lost(u, v)) <==> !(w.file.candidate in w.outstanding && Overwrites(w, e))
  {
    hide Next, Invariant, Overwrites;
    if w.file.candidate in w.outstanding {
      StepLosesIff(w, e, u);
    }
    forall v | Lost(u, v) ensures w.file.candidate in w.outstanding && Overwrites(w, e) {
      StepLosesNoOther(w, e, u, v);
    }
  }

  /** Over every run from a fresh installation, whatever overlaps: no candidate is lost on the way if
      and only if no step overwrites an outstanding one. */
  lemma {:induction false} NothingLostIff(events: seq<Event>, u: State)
    requires After(INITIAL, events) == Some(u)
    ensures NothingLost(INITIAL, events) <==> NeverOverwrites(INITIAL, events)
    decreases |events|
  {
    hide Next, Invariant, Overwrites, Lost;
    if events == [] {
      assert forall v :: !Lost(INITIAL, v) by { NothingOutstanding(); }
    } else {
      var n := |events| - 1;
      var w := After(INITIAL, events[..n]).value;
      NothingLostIff(events[..n], w);
      if NothingLost(INITIAL, events[..n]) {
        InitialIsSound();
        RunKeepsInvariant(INITIAL, events[..n], w);
        OutstandingIsNamed(events[..n], w);
        StepLoses(w, events[n], u);
      }
    }
  }

  lemma NothingOutstanding()
    ensures forall v :: !Lost(INITIAL, v)
  {
  }

  // ----- From a commit to the next load -----

  ghost predicate NoLoad(events: seq<Event>) {
    forall i :: 0 <= i < |events| ==> !events[i].Load?
  }

  /** After no prefix of the run has the state file another candidate. */
  ghost predicate Holds(s: State, events: seq<Event>, v: string)
    decreases |events|
  {
    && (events == [] || Holds(s, events[..|events| - 1], v))
    && (After(s, events).Some? ==> After(s, events).value.file.candidate == v)
  }

  /** No preparation of another version is saved. */
  ghost predicate NoOtherSave(s: State, events: seq<Event>, v: string)
    decreases |events|
  {
    events == [] ||
    var n := |events| - 1;
    && NoOtherSave(s, events[..n], v)
    && (events[n].PrepareSave? && After(s, events[..n]).Some? ==>
          var w := After(s, events[..n]).value;
          events[n].id in w.preparing ==> w.preparing[events[n].id].version == v)
  }

  /** Only the end of a candidate's trial and a preparation write the state file. */
  lemma OnlyDecidingWrites(s: State, e: Event, u: State)
    requires Invariant(s) && Next(s, e) == Some(u) && !Deciding(s) && !e.Load?
    ensures !Deciding(u)
    ensures e.PrepareSave? ==> e.id in s.preparing && u.file.candidate == s.preparing[e.id].version
    ensures !e.PrepareSave? ==> u.file == s.file
  {
  }

  /** A candidate committed while the active release runs, after a confirmation, or while nothing
      runs stays in the state file through every other step and boot up to the next load, which
      selects it, if and only if no preparation of another version is saved over it. */
  lemma {:induction false} CommittedIsHandedOff(s: State, events: seq<Event>, u: State)
    requires Invariant(s) && !Deciding(s) && s.file.candidate != ""
    requires After(s, events) == Some(u) && NoLoad(events)
    ensures !Deciding(u)
    ensures Holds(s, events, s.file.candidate) <==> NoOtherSave(s, events, s.file.candidate)
    ensures NoOtherSave(s, events, s.file.candidate) ==>
              forall w :: Next(u, Load) == Some(w) ==> w.trial.isCandidate && w.trial.version == s.file.candidate
    ensures NoOtherSave(s, events, s.file.candidate) && u.stage.Reloading? && u.trial.version != s.file.candidate ==>
              GoesRound(u, s.file.candidate)
    decreases |events|
  {
    hide Next, Invariant, Deciding, GoesRound;
    if events != [] {
      var n := |events| - 1;
      var w := After(s, events[..n]).value;
      CommittedIsHandedOff(s, events[..n], w);
      RunKeepsInvariant(s, events[..n], w);
      OnlyDecidingWrites(w, events[n], u);
    }
    forall w | Next(u, Load) == Some(w) && u.file.candidate == s.file.candidate
      ensures w.trial.isCandidate && w.trial.version == s.file.candidate
    {
      LoadSelects(u, w);
    }
    if u.stage.Reloading? && u.file.candidate == s.file.candidate && u.trial.version != s.file.candidate {
      ReloadGoesRound(u);
    }
  }

  ghost predicate Undisturbed(events: seq<Event>) {
    forall i :: 0 <= i < |events| ==> !events[i].Load? && !events[i].Boot?
  }

  ghost predicate Saves(events: seq<Event>) {
    exists i :: 0 <= i < |events| && events[i].PrepareSave?
  }

  lemma DecidingStep(s: State, e: Event, u: State)
    requires Invariant(s) && Deciding(s) && Deciding(u) && Next(s, e) == Some(u) && !e.Load? && !e.Boot?
    ensures u.trial.snapshot == s.trial.snapshot
    ensures !e.PrepareSave? ==> u.file == s.file && u.outstanding == s.outstanding
    ensures e.PrepareSave? ==> u.file.candidate != "" && u.file.candidate in u.outstanding
  {
  }

  lemma StaysDeciding(s: State, e: Event, u: State)
    requires Invariant(s) && Next(s, e) == Some(u) && Deciding(u) && !e.Load? && !e.Boot?
    ensures Deciding(s)
  {
  }

  lemma {:induction false} DuringTrial(s: State, events: seq<Event>, u: State)
    requires Invariant(s) && Deciding(s) && After(s, events) == Some(u) && Undisturbed(events) && Deciding(u)
    ensures u.trial.snapshot == s.trial.snapshot
    ensures !Saves(events) ==> u.file == s.file && u.outstanding == s.outstanding
    ensures Saves(events) ==> u.file.candidate != "" && u.file.candidate in u.outstanding
    decreases |events|
  {
    hide Next, Deciding, Invariant;
    if events != [] {
      var n := |events| - 1;
      var w := After(s, events[..n]).value;
      RunKeepsInvariant(s, events[..n], w);
      StaysDeciding(w, events[n], u);
      DuringTrial(s, events[..n], w);
      DecidingStep(w, events[n], u);
      assert Saves(events) ==> events[n].PrepareSave? || Saves(events[..n]) by {
        if i :| 0 <= i < n && events[i].PrepareSave? {
          assert events[..n][i].PrepareSave?;
        }
      }
    }
  }

  /** A candidate committed between the load of a candidate and the save that confirms it or rolls
      it back is lost by that save, and that save loses nothing without such a commit. */
  lemma WindowCommitIsLost(r: State, s: State, events: seq<Event>, u: State, e: Event, w: State)
    requires Invariant(r) && Next(r, Load) == Some(s) && s.trial.isCandidate
    requires After(s, events) == Some(u) && Undisturbed(events) && Deciding(u)
    requires Next(u, e) == Some(w) && (e.ConfirmSave? || e == ConfirmFailed(true) || e == Fail(true))
    ensures w.file.candidate == ""
    ensures Saves(events) ==> u.file.candidate != "" && u.file.candidate in w.outstanding
    ensures !Saves(events) ==> u.file == s.trial.snapshot && w.outstanding == s.outstanding
  {
    StepKeepsInvariant(r, Load, s);
    DuringTrial(s, events, u);
    hide Invariant, After;
  }

  // ----- Runs in which preparations do not overlap -----

  /** A preparation is loaded only when none is in progress: what the broker's update lock gives,
      as long as the launcher's own first installation is not running as well. */
  ghost predicate Serial(s: State, events: seq<Event>)
    decreases |events|
  {
    events == [] ||
    var n := |events| - 1;
    && Serial(s, events[..n])
    && (events[n].PrepareLoad? ==> After(s, events[..n]).Some? && After(s, events[..n]).value.preparing == map[])
  }

  /** A preparation in progress is of the file as it stands; a trial in progress too, with no
      preparation beside it; and only the candidate in the file is outstanding. */
  ghost predicate Exclusive(s: State) {
    && (forall id :: id in s.preparing ==> s.preparing == map[id := s.preparing[id]] && s.preparing[id].snapshot == s.file)
    && (Deciding(s) ==> s.preparing == map[] && s.trial.snapshot == s.file && s.outstanding == {})
    && (forall v :: v in s.outstanding ==> v == s.file.candidate)
    && "" !in s.outstanding
  }

  lemma PreparationKeepsExclusive(s: State, e: Event, u: State)
    requires Invariant(s) && Exclusive(s) && Next(s, e) == Some(u) && (e.PrepareLoad? ==> s.preparing == map[])
    requires e.PrepareLoad? || e.PrepareSave? || e.PrepareAbort?
    ensures Exclusive(u)
  {
    match e
    case PrepareLoad(id, v) => assert u.preparing == map[id := Preparation(s.file, v)];
    case PrepareSave(id) => assert s.preparing - {id} == map[];
    case PrepareAbort(id) => assert s.preparing - {id} == map[];
    case _ =>
  }

  lemma LoadKeepsExclusive(s: State, u: State)
    requires Invariant(s) && Exclusive(s) && Next(s, Load) == Some(u)
    ensures Exclusive(u)
  {
    assert s.preparing == map[] || exists id :: id in s.preparing && s.preparing[id].snapshot == s.file;
  }

  lemma TrialKeepsExclusive(s: State, e: Event, u: State)
    requires Invariant(s) && Exclusive(s) && Next(s, e) == Some(u)
    requires !e.PrepareLoad? && !e.PrepareSave? && !e.PrepareAbort? && !e.Load?
    ensures Exclusive(u)
  {
  }

  lemma {:induction false} SerialKeepsExclusive(s: State, events: seq<Event>, u: State)
    requires Invariant(s) && Exclusive(s) && Serial(s, events) && After(s, events) == Some(u)
    ensures Exclusive(u)
    decreases |events|
  {
    hide Next, Exclusive, Invariant;
    if events != [] {
      var n := |events| - 1;
      var w, e := After(s, events[..n]).value, events[n];
      SerialKeepsExclusive(s, events[..n], w);
      RunKeepsInvariant(s, events[..n], w);
      if e.PrepareLoad? || e.PrepareSave? || e.PrepareAbort? {
        PreparationKeepsExclusive(w, e, u);
      } else if e.Load? {
        LoadKeepsExclusive(w, u);
      } else {
        TrialKeepsExclusive(w, e, u);
      }
    }
  }

  /** When preparations do not overlap no candidate is ever lost: each one prepared is in the state
      file until a load selects it. */
  lemma NoCandidateLost(events: seq<Event>, u: State, v: string)
    requires Serial(INITIAL, events) && After(INITIAL, events) == Some(u) && v in u.outstanding
    ensures u.file.candidate == v
  {
    InitialIsSound();
    SerialKeepsExclusive(INITIAL, events, u);
  }

  /** A fresh installation finds nothing to run and installs; an update transition of the broker,
      which the launcher's own installation does not wait for, loads the same state. */
  lemma OverlapLoads() returns (events: seq<Event>, u: State)
    ensures After(INITIAL, events) == Some(u) && u.stage.Installing? && u.file == EMPTY_RUNTIME && u.outstanding == {}
    ensures u.preparing == map[1 := Preparation(EMPTY_RUNTIME, "b"), 2 := Preparation(EMPTY_RUNTIME, "c")]
  {
    events, u := OneMore(INITIAL, [], INITIAL, Load);
    events, u := OneMore(INITIAL, events, u, PrepareLoad(1, "b"));
    events, u := OneMore(INITIAL, events, u, PrepareLoad(2, "c"));
  }

  /** The launcher's installation saves its stale snapshot over the transition's candidate, without
      any trial. */
  lemma InstallationLoses() returns (events: seq<Event>, u: State)
    ensures After(INITIAL, events) == Some(u) && u.stage.Installing?
    ensures u.file.candidate == "b" && Lost(u, "c")
  {
    hide After;
    events, u := OverlapLoads();
    events, u := OneMore(INITIAL, events, u, PrepareSave(2));
    events, u := OneMore(INITIAL, events, u, PrepareSave(1));
  }

  lemma OverlapPrepares() returns (events: seq<Event>, u: State)
    ensures After(INITIAL, events) == Some(u) && u.stage.Loading?
    ensures u.file == Prepared(EMPTY_RUNTIME, "b")
    ensures 2 in u.preparing && u.preparing[2] == Preparation(EMPTY_RUNTIME, "c")
  {
    hide After;
    events, u := OverlapLoads();
    events, u := OneMore(INITIAL, events, u, PrepareSave(1));
    events, u := OneMore(INITIAL, events, u, InstallDone);
  }

  lemma OverlapReadies() returns (events: seq<Event>, u: State)
    ensures After(INITIAL, events) == Some(u) && u.stage.Holding?
    ensures u.trial.isCandidate && u.trial.snapshot == Prepared(EMPTY_RUNTIME, "b")
    ensures 2 in u.preparing && u.preparing[2] == Preparation(EMPTY_RUNTIME, "c")
  {
    hide After;
    events, u := OverlapPrepares();
    events, u := OneMore(INITIAL, events, u, Load);
    events, u := OneMore(INITIAL, events, u, Start);
    events, u := OneMore(INITIAL, events, u, Registered);
    events, u := OneMore(INITIAL, events, u, Ready);
  }

  /** Or the transition saves while the installed candidate is on trial, and its confirmation
      overwrites it. */
  lemma OverlapLoses() returns (events: seq<Event>, u: State)
    ensures After(INITIAL, events) == Some(u)
    ensures u.file.active == "b" && u.file.candidate == "" && Lost(u, "c")
  {
    hide After;
    events, u := OverlapReadies();
    events, u := OneMore(INITIAL, events, u, HoldElapsed);
    events, u := OneMore(INITIAL, events, u, PrepareSave(2));
    events, u := OneMore(INITIAL, events, u, ConfirmSave);
  }

  /** What outstanding means: a save of a preparation adds its version, and only the load that
      selects a version takes it off. */
  lemma OutstandingMeaning(s: State, e: Event, u: State)
    requires Next(s, e) == Some(u)
    ensures forall v :: v in u.outstanding && v !in s.outstanding ==>
              e.PrepareSave? && e.id in s.preparing && s.preparing[e.id].version == v
    ensures forall v :: v in s.outstanding && v !in u.outstanding ==>
              e.Load? && u.trial.isCandidate && u.trial.version == v
    ensures e.PrepareSave? ==> e.id in s.preparing && s.preparing[e.id].version in u.outstanding
  {
  }
}
