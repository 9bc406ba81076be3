/** The suite's commands acting on processes and files (internal/devsuite). */
module DevSuiteHost {
  import opened Json
  import opened Decimal
  import opened DevSuite

  datatype Report = Report(member: Member, state: MemberState)

  /** The control descriptor and the three token files. */
  const CONTROL_FILES := {"control", "owner", "observer", "conductor"}

  datatype App = App(name: string, command: string)

  datatype Command = StartSuite(apps: seq<App>, control: string) | StopSuite | SweepResidue(generation: nat)

  /** The members other than control, in roster order. */
  function Apps(members: seq<Member>): (apps: seq<Member>) {
    if members == [] then []
    else
      var m := members[|members| - 1];
      Apps(members[..|members| - 1]) + if m.app == CONTROL then [] else [m]
  }

  /** The control member; the last one where several are recorded. */
  function ControlOf(members: seq<Member>): (control: seq<Member>) {
    if members == [] then []
    else if members[|members| - 1].app == CONTROL then [members[|members| - 1]]
    else ControlOf(members[..|members| - 1])
  }

  ghost function Members(reports: seq<Report>): (members: seq<Member>) {
    if reports == [] then [] else Members(reports[..|reports| - 1]) + [reports[|reports| - 1].member]
  }

  /** The apps are every member not named control, in order. */
  lemma {:induction false} AppsAre(a: seq<Member>, b: seq<Member>, m: Member)
    ensures Apps([m]) == if m.app == "control" then [] else [m]
    ensures Apps(a + b) == Apps(a) + Apps(b)
    decreases |b|
  {
    assert [m][..0] == [];
    if b == [] {
      assert a + b == a;
    } else {
      var n := |b| - 1;
      AppsAre(a, b[..n], m);
      assert (a + b)[..|a| + n] == a + b[..n];
    }
  }

  /** The control member is the last one so named. */
  lemma {:induction false} ControlIs(a: seq<Member>, m: Member, b: seq<Member>)
    requires forall i :: 0 <= i < |b| ==> b[i].app != "control"
    ensures m.app == "control" ==> ControlOf(a + [m] + b) == [m]
    ensures ControlOf(b) == []
    decreases |b|
  {
    var all := a + [m] + b;
    if b == [] {
      assert all == a + [m];
    } else {
      var n := |b| - 1;
      ControlIs(a, m, b[..n]);
      assert all[..|all| - 1] == a + [m] + b[..n] && all[|all| - 1] == b[n];
    }
  }

  /** A report for every member in order; the skipped ones are those not seen stopped. */
  lemma {:induction false} ReportsAre(reports: seq<Report>)
    ensures |Members(reports)| == |reports|
    ensures forall i :: 0 <= i < |reports| ==> Members(reports)[i] == reports[i].member
    ensures forall r :: r in Unstopped(reports) <==> r in reports && r.state != Stopped
    decreases |reports|
  {
    if reports != [] {
      var n := |reports| - 1;
      ReportsAre(reports[..n]);
      assert reports == reports[..n] + [reports[n]];
    }
  }

  /** Processes may exit; no pid is taken by another process. */
  ghost predicate Shrunk(before: map<int, Process>, after: map<int, Process>) {
    forall pid :: pid in after ==> pid in before && before[pid] == after[pid]
  }

  /** The acts are signals on behalf of one member, to processes taken for it. */
  ghost predicate SignalsTo(same: (string, string) -> bool, caller: Caller, m: Member, acts: seq<Act>) {
    forall a :: a in acts ==> a.Signal? && a.caller == caller && a.member == m && Matches(same, m, a.target)
  }

  ghost predicate Sweepable(log: seq<Act>, caller: Caller, m: Member) {
    Recorded(log, m) && (caller.FromSweep? ==> m.app != CONTROL && RecordedBelow(log, m, caller.generation))
  }

  /** Acts other than starts and spawns leave what is recorded as it was. */
  lemma OtherActs(log: seq<Act>, act: Act)
    requires !act.Begin? && !act.Spawn?
    ensures Exhausted(log + [act]) == Exhausted(log)
    ensures forall g :: AllBelow(log, g) ==> AllBelow(log + [act], g)
    ensures forall caller, m :: Sweepable(log, caller, m) ==> Sweepable(log + [act], caller, m)
    ensures forall r :: RosterRecorded(log, r) ==> RosterRecorded(log + [act], r)
  {
    assert forall a :: a in log + [act] <==> a in log || a == act;
    RosterKept(log, act);
  }

  lemma NoStart(log: seq<Act>, act: Act)
    requires !act.Begin?
    ensures Exhausted(log + [act]) == Exhausted(log)
    ensures forall g :: AllBelow(log, g) ==> AllBelow(log + [act], g)
    ensures forall g: nat :: Begin(g) in log ==> Begin(g) in log + [act]
  {
    assert forall a :: a in log + [act] <==> a in log || a == act;
  }

  lemma RosterKept(log: seq<Act>, act: Act)
    ensures forall r :: RosterRecorded(log, r) ==> RosterRecorded(log + [act], r)
  {
    assert forall a :: a in log ==> a in log + [act];
    assert forall g: nat, m :: SpawnedAt(log, g, m) ==> SpawnedAt(log + [act], g, m);
  }

  /** stopOne's note of every member it did not see stopped. */
  function Unstopped(reports: seq<Report>): (left: seq<Report>) {
    if reports == [] then []
    else
      var r := reports[|reports| - 1];
      Unstopped(reports[..|reports| - 1]) + if r.state.Stopped? then [] else [r]
  }

  lemma ReportOneMore(reports: seq<Report>, r: Report)
    ensures Members(reports + [r]) == Members(reports) + [r.member]
    ensures Unstopped(reports + [r]) == Unstopped(reports) + if r.state.Stopped? then [] else [r]
  {
    assert (reports + [r])[..|reports|] == reports;
  }

  lemma NothingDone()
    ensures Members([]) == [] && Unstopped([]) == [] && Apps([]) == [] && ControlOf([]) == [] && AppSignals([])
    ensures LeftRunning([], [])
  {
  }

  ghost predicate AppSignals(acts: seq<Act>) {
    forall a :: a in acts ==> a.Signal? && a.caller.FromStop? && a.member.app != CONTROL
  }

  lemma MoreAppSignals(same: (string, string) -> bool, apps: seq<Act>, m: Member, acts: seq<Act>)
    requires AppSignals(apps) && m.app != CONTROL && SignalsTo(same, FromStop, m, acts)
    ensures AppSignals(apps + acts)
  {
  }

  lemma NextMember(members: seq<Member>, i: nat)
    requires i < |members|
    ensures Apps(members[..i + 1]) == Apps(members[..i]) + if members[i].app == CONTROL then [] else [members[i]]
    ensures ControlOf(members[..i + 1]) == if members[i].app == CONTROL then [members[i]] else ControlOf(members[..i])
  {
    assert members[..i + 1][..i] == members[..i];
  }

  /** The acts are signals of this sweep to some of these members. */
  ghost predicate SweepSignals(acts: seq<Act>, generation: nat, members: seq<Member>) {
    forall a :: a in acts ==> a.Signal? && a.caller == FromSweep(generation) && a.member in members
  }

  lemma MoreSweepSignals(same: (string, string) -> bool, acts: seq<Act>, more: seq<Act>, generation: nat,
                         members: seq<Member>, m: Member)
    requires SweepSignals(acts, generation, members) && m in members && SignalsTo(same, FromSweep(generation), m, more)
    ensures SweepSignals(acts + more, generation, members)
  {
  }

  /** A member reported as running after all has been terminated and killed. */
  ghost predicate LeftRunning(reports: seq<Report>, acts: seq<Act>) {
    forall r :: r in reports && r.state.Running? ==>
      exists i :: 0 <= i < |acts| - 1 && Stubborn(acts[i], acts[i + 1], r.member)
  }

  ghost predicate Stubborn(a: Act, b: Act, m: Member) {
    a.Signal? && b.Signal? && a.member == m == b.member && a.kind.Terminate? && b.kind.Kill?
  }

  lemma MoreLeftRunning(reports: seq<Report>, acts: seq<Act>, r: Report, more: seq<Act>)
    requires LeftRunning(reports, acts)
    requires r.state.Running? ==> |more| == 2 && Stubborn(more[0], more[1], r.member)
    ensures LeftRunning(reports + [r], acts + more)
  {
    var all := acts + more;
    forall q | q in reports + [r] && q.state.Running?
      ensures exists i :: 0 <= i < |all| - 1 && Stubborn(all[i], all[i + 1], q.member)
    {
      if q in reports {
        var i :| 0 <= i < |acts| - 1 && Stubborn(acts[i], acts[i + 1], q.member);
        assert all[i] == acts[i] && all[i + 1] == acts[i + 1];
      } else {
        var i := |acts|;
        assert all[i] == more[0] && all[i + 1] == more[1];
      }
    }
  }

  /** Only the control member is signalled, and its files go only after its pid is found dead. */
  ghost predicate ControlActs(same: (string, string) -> bool, control: seq<Member>, acts: seq<Act>, residue: seq<Act>) {
    if control == [] then acts == [] && residue == []
    else
      && SignalsTo(same, FromStop, control[0], acts)
      && (residue == [] || residue == [Dead(control[0].pid), DropControl(control[0].pid)])
  }

  lemma SignalSound(same: (string, string) -> bool, log: seq<Act>, caller: Caller, m: Member, kind: SignalKind, target: Process)
    requires SoundLog(same, log) && Sweepable(log, caller, m) && Matches(same, m, target)
    ensures SoundLog(same, log + [Signal(caller, m, kind, target)])
  {
    SoundOneMore(same, log, Signal(caller, m, kind, target));
  }

  lemma DropSound(same: (string, string) -> bool, log: seq<Act>, pid: int)
    requires SoundLog(same, log)
    ensures SoundLog(same, log + [Dead(pid)] + [DropControl(pid)])
  {
    SoundOneMore(same, log, Dead(pid));
    SoundOneMore(same, log + [Dead(pid)], DropControl(pid));
  }

  lemma RosterMember(log: seq<Act>, r: Roster, m: Member)
    requires RosterRecorded(log, r) && m in r.members
    ensures SpawnedAt(log, r.generation, m) && Recorded(log, m)
  {
    var p :| Spawn(r.generation, m, p) in log;
  }

  // ----- What a start needs -----

  /** The latest start recorded this generation. */
  ghost predicate Current(log: seq<Act>, g: nat) {
    Begin(g) in log && (Exhausted(log) || AllBelow(log, g + 1))
  }

  lemma CurrentStays(log: seq<Act>, more: seq<Act>, g: nat)
    requires Current(log, g) && forall a :: a in more ==> !a.Begin?
    ensures Current(log + more, g)
  {
    assert forall a :: a in log + more <==> a in log || a in more;
  }

  lemma RosterStays(log: seq<Act>, more: seq<Act>, r: Roster)
    requires RosterRecorded(log, r)
    ensures RosterRecorded(log + more, r)
  {
    assert forall a :: a in log ==> a in log + more;
    assert forall m :: SpawnedAt(log, r.generation, m) ==> SpawnedAt(log + more, r.generation, m);
  }

  lemma RosterOneMore(log: seq<Act>, r: Roster, m: Member, p: Process)
    requires RosterRecorded(log, r)
    ensures RosterRecorded(log + [Spawn(r.generation, m, p)], r.(members := r.members + [m]))
  {
    var act := Spawn(r.generation, m, p);
    RosterStays(log, [act], r);
    assert act in log + [act];
    assert SpawnedAt(log + [act], r.generation, m);
  }

  lemma BeginBounded(same: (string, string) -> bool, log: seq<Act>, g: nat)
    requires SoundLog(same, log) && Begin(g) in log
    ensures g <= MAX_UINT64
  {
    var i :| 0 <= i < |log| && log[i] == Begin(g);
    SoundAt(same, log, i);
  }

  /** The next generation is above every earlier start's, unless the generations are used up. */
  lemma NextIsNewer(same: (string, string) -> bool, log: seq<Act>, file: Option<string>, roster: RosterFile)
    requires SoundLog(same, log) && (Exhausted(log) || AllBelow(log, LastGeneration(file) + 1))
    requires LastGeneration(file) == 0 || Begin(LastGeneration(file)) in log
    requires roster.Readable? ==> RosterRecorded(log, roster.roster)
    ensures NextGeneration(file, roster) <= MAX_UINT64
    ensures Exhausted(log) || AllBelow(log, NextGeneration(file, roster))
  {
    hide LastGeneration, SoundLog;
    FilesBounded(same, log, file, roster);
    NextIsAboveIff(file, roster);
  }

  lemma FilesBounded(same: (string, string) -> bool, log: seq<Act>, file: Option<string>, roster: RosterFile)
    requires SoundLog(same, log) && (LastGeneration(file) == 0 || Begin(LastGeneration(file)) in log)
    requires roster.Readable? ==> RosterRecorded(log, roster.roster)
    ensures LastGeneration(file) <= MAX_UINT64 && (roster.Readable? ==> roster.roster.generation <= MAX_UINT64)
  {
    hide LastGeneration, SoundLog;
    if LastGeneration(file) != 0 {
      BeginBounded(same, log, LastGeneration(file));
    }
    if roster.Readable? {
      BeginBounded(same, log, roster.roster.generation);
    }
  }

  lemma BeginKeeps(same: (string, string) -> bool, log: seq<Act>, g: nat)
    requires SoundLog(same, log) && g <= MAX_UINT64 && (Exhausted(log) || AllBelow(log, g))
    ensures SoundLog(same, log + [Begin(g)]) && Current(log + [Begin(g)], g)
    ensures Exhausted(log + [Begin(g)]) || AllBelow(log + [Begin(g)], g + 1)
  {
    SoundOneMore(same, log, Begin(g));
    assert forall a :: a in log + [Begin(g)] <==> a in log || a == Begin(g);
  }

  lemma SpawnKeeps(same: (string, string) -> bool, log: seq<Act>, g: nat, m: Member, p: Process)
    requires SoundLog(same, log) && Current(log, g)
    requires m.log == LogPath(m.app, g) && (m.created > 0 ==> m.created == p.created)
    ensures SoundLog(same, log + [Spawn(g, m, p)]) && Current(log + [Spawn(g, m, p)], g)
  {
    SoundOneMore(same, log, Spawn(g, m, p));
    CurrentStays(log, [Spawn(g, m, p)], g);
  }

  /** What a start does after recording its generation: spawns at it, and the sweep of its own
      control member. */
  ghost predicate StartActs(acts: seq<Act>, g: nat) {
    forall a :: a in acts ==> (a.Spawn? && a.generation == g) || (a.Signal? && a.caller == FromSweep(g))
  }

  lemma OldMember(same: (string, string) -> bool, log: seq<Act>, r: Roster, m: Member, generation: nat)
    requires SoundLog(same, log) && RosterRecorded(log, r) && m in r.members && r.generation < generation
    ensures RecordedBelow(log, m, generation)
  {
    hide SoundLog;
    var p :| Spawn(r.generation, m, p) in log;
    RecordedOnce(same, log, m, r.generation, p, generation);
  }

  lemma {:induction false} AppOf(members: seq<Member>, i: nat)
    requires i < |members| && members[i].app != CONTROL
    ensures members[i] in Apps(members)
    decreases |members|
  {
    if i < |members| - 1 {
      AppOf(members[..|members| - 1], i);
    }
  }

  /** Control and then the apps, in order and each with its command. */
  ghost predicate Lists(members: seq<Member>, control: string, apps: seq<App>) {
    && |members| == |apps| + 1 && members[0].app == CONTROL && members[0].executable == control
    && forall i :: 0 <= i < |apps| ==> members[i + 1].app == apps[i].name && members[i + 1].executable == apps[i].command
  }

  lemma ListsMore(members: seq<Member>, more: seq<Member>, control: string, apps: seq<App>, i: nat)
    requires i < |apps| && Lists(members, control, apps[..i]) && |more| == |members| + 1 && more[..|members|] == members
    requires more[|members|].app == apps[i].name && more[|members|].executable == apps[i].command
    ensures Lists(more, control, apps[..i + 1])
  {
    forall k | 0 <= k < i + 1
      ensures more[k + 1].app == apps[k].name && more[k + 1].executable == apps[k].command
    {
      assert k < i ==> more[k + 1] == more[..|members|][k + 1] && apps[..i][k] == apps[k];
    }
    assert more[0] == more[..|members|][0];
  }

  lemma ListsControl(members: seq<Member>, control: string)
    requires |members| == 1 && members[0].app == CONTROL && members[0].executable == control
    ensures Lists(members, control, [])
  {
  }

  lemma StartActsMore(a: seq<Act>, b: seq<Act>, g: nat)
    requires StartActs(a, g) && StartActs(b, g)
    ensures StartActs(a + b, g)
  {
  }

  lemma EmptyRoster(log: seq<Act>, g: nat)
    requires Current(log, g)
    ensures RosterRecorded(log, Roster(g, []))
  {
  }

  class Host {
    const same: (string, string) -> bool
    var procs: map<int, Process>
    var unreadable: set<int>  // pids whose identity the kernel does not tell
    var roster: RosterFile
    var stuck: bool           // the roster file cannot be removed
    var generationFile: Option<string>
    var controlFiles: set<string>
    ghost var log: seq<Act>

    ghost predicate Valid()
      reads this
    {
      && SoundLog(same, log)
      && (Exhausted(log) || AllBelow(log, LastGeneration(generationFile) + 1))
      && (LastGeneration(generationFile) == 0 || Begin(LastGeneration(generationFile)) in log)
      && (roster.Readable? ==> RosterRecorded(log, roster.roster))
    }

    /** A cell without a roster; an earlier generation may be recorded. */
    constructor (same: (string, string) -> bool, generationFile: Option<string>)
      ensures Valid() && this.same == same && this.generationFile == generationFile
      ensures log == if LastGeneration(generationFile) == 0 then [] else [Begin(LastGeneration(generationFile))]
    {
      this.same := same;
      procs, unreadable := map[], {};
      roster, stuck := Missing, false;
      this.generationFile := generationFile;
      controlFiles := {};
      log := if LastGeneration(generationFile) == 0 then [] else [Begin(LastGeneration(generationFile))];
    }

    // ----- Processes -----

    /** Between calls anything may happen to the process table, pid reuse included. */
    method Elsewhere()
      modifies this`procs, this`unreadable, this`stuck
    {
      procs := *;
      unreadable := *;
      stuck := *;
    }

    /** Within a call processes may exit. */
    method Drift()
      modifies this`procs
      ensures Shrunk(old(procs), procs)
    {
      var gone: set<int> := *;
      procs := procs - gone;
    }

    predicate Alive(pid: int)
      reads this
    {
      0 < pid <= MAX_INT32 && pid in procs
    }

    method VerifyMember(m: Member) returns (state: MemberState)
      modifies this`procs
      ensures Shrunk(old(procs), procs)
      ensures state.Running? ==> Alive(m.pid) && Matches(same, m, procs[m.pid])
      ensures state.Foreign? ==> Alive(m.pid) && !Matches(same, m, procs[m.pid])
      ensures state.Stopped? ==> !Alive(m.pid)
      ensures state.Unproven? ==> m.pid in unreadable || !Alive(m.pid)
      ensures !state.Stopped? ==> m.pid in old(procs)
    {
      Drift();
      if !Alive(m.pid) {
        return Stopped;
      }
      Drift();
      if m.pid in unreadable || !Alive(m.pid) {
        return Unproven;
      }
      if m.created > 0 {
        return if procs[m.pid].created == m.created then Running else Foreign;
      }
      return if same(procs[m.pid].executable, m.executable) then Running else Foreign;
    }

    /** Send a signal to the pid; the process it names may already be gone, and may survive. */
    method Send(caller: Caller, m: Member, kind: SignalKind) returns (ghost acts: seq<Act>)
      requires Valid() && Sweepable(log, caller, m)
      requires m.pid in procs ==> Matches(same, m, procs[m.pid])
      modifies this`procs, this`log
      ensures Valid() && Sweepable(log, caller, m) && Shrunk(old(procs), procs)
      ensures log == old(log) + acts && |acts| <= 1 && SignalsTo(same, caller, m, acts)
      ensures Alive(m.pid) ==> |acts| == 1
      ensures forall a :: a in acts ==> a.kind == kind
    {
      hide SoundLog, Sweepable, RosterRecorded, AllBelow, Exhausted, LastGeneration;
      Drift();
      acts := [];
      if Alive(m.pid) {
        acts := [Signal(caller, m, kind, procs[m.pid])];
        SignalSound(same, log, caller, m, kind, procs[m.pid]);
        OtherActs(log, acts[0]);
        log := log + acts;
      }
      Drift();
    }

    /** Poll until the pid is gone or patience runs out. */
    method WaitGone(pid: int) returns (gone: bool)
      modifies this`procs
      ensures Shrunk(old(procs), procs) && gone == !Alive(pid)
    {
      var polls: nat := *;
      while polls > 0
        invariant Shrunk(old(procs), procs)
      {
        if !Alive(pid) {
          return true;
        }
        Drift();
        polls := polls - 1;
      }
      gone := !Alive(pid);
    }

    /** Nothing is signalled unless the pid names the recorded process, and then as long as it does. */
    method TerminateMember(caller: Caller, m: Member) returns (state: MemberState, ghost acts: seq<Act>)
      requires Valid() && Sweepable(log, caller, m)
      modifies this`procs, this`log
      ensures Valid() && Sweepable(log, caller, m) && Shrunk(old(procs), procs)
      ensures log == old(log) + acts && |acts| <= 2 && SignalsTo(same, caller, m, acts)
      ensures state.Stopped? ==> !Alive(m.pid)
      ensures state.Foreign? || state.Unproven? ==> acts == []
      ensures state.Running? ==> Alive(m.pid) && Matches(same, m, procs[m.pid]) && |acts| == 2
      ensures state.Foreign? ==> Alive(m.pid) && !Matches(same, m, procs[m.pid])
      ensures state.Unproven? ==> m.pid in unreadable || !Alive(m.pid)
      ensures |acts| > 0 ==> acts[0].kind.Terminate?
      ensures |acts| > 1 ==> acts[1].kind.Kill?
    {
      hide Sweepable, SoundLog, RosterRecorded, AllBelow, Exhausted, LastGeneration, Matches;
      acts := [];
      state := VerifyMember(m);
      if !state.Running? {
        return;
      }
      acts := Send(caller, m, Terminate);
      var gone := WaitGone(m.pid);
      if gone {
        return Stopped, acts;
      }
      ghost var killed := Send(caller, m, Kill);
      acts := acts + killed;
      gone := WaitGone(m.pid);
      if gone {
        return Stopped, acts;
      }
      return Running, acts;
    }

    // ----- Stop -----

    method StopOne(m: Member, noted: seq<Report>) returns (report: Report, skipped: seq<Report>, ghost acts: seq<Act>)
      requires Valid() && Recorded(log, m)
      modifies this`procs, this`log
      ensures Valid() && log == old(log) + acts && SignalsTo(same, FromStop, m, acts)
      ensures report.member == m && (report.state.Stopped? ==> !Alive(m.pid))
      ensures report.state.Foreign? || report.state.Unproven? ==> acts == []
      ensures report.state.Running? ==> |acts| == 2
      ensures report.state.Foreign? ==> Alive(m.pid) && !Matches(same, m, procs[m.pid])
      ensures report.state.Unproven? ==> m.pid in unreadable || !Alive(m.pid)
      ensures skipped == noted + if report.state.Stopped? then [] else [report]
    {
      var state;
      state, acts := TerminateMember(FromStop, m);
      report := Report(m, state);
      skipped := noted;
      if state.Foreign? || state.Unproven? || state.Running? {
        skipped := skipped + [report];
      }
    }

    method RemoveControlFiles(pid: int) returns (ghost acts: seq<Act>)
      requires Valid() && !Alive(pid)
      modifies this`controlFiles, this`log
      ensures Valid() && controlFiles == {} && log == old(log) + acts && acts == [Dead(pid), DropControl(pid)]
    {
      hide SoundLog, RosterRecorded, AllBelow, Exhausted, LastGeneration;
      acts := [Dead(pid), DropControl(pid)];
      DropSound(same, log, pid);
      OtherActs(log, Dead(pid));
      OtherActs(log + [Dead(pid)], DropControl(pid));
      assert log + acts == log + [Dead(pid)] + [DropControl(pid)];
      log := log + acts;
      controlFiles := {};
    }

    /** The control member comes last, and its files go only once its pid is found dead. */
    method StopControl(m: Member, noted: seq<Report>)
      returns (report: Report, skipped: seq<Report>, ghost acts: seq<Act>, ghost residue: seq<Act>)
      requires Valid() && Recorded(log, m)
      modifies this`procs, this`unreadable, this`stuck, this`controlFiles, this`log
      ensures Valid() && log == old(log) + acts + residue && SignalsTo(same, FromStop, m, acts)
      ensures report.member == m
      ensures skipped == noted + if report.state.Stopped? then [] else [report]
      ensures residue == [] || residue == [Dead(m.pid), DropControl(m.pid)]
      ensures controlFiles == if residue == [] then old(controlFiles) else {}
    {
      report, skipped, acts := StopOne(m, noted);
      residue := [];
      Elsewhere();
      var state := VerifyMember(m);
      if state.Stopped? {
        residue := RemoveControlFiles(m.pid);
      }
    }

    /** Apps are handled before control, each member once; the control files go only after the
        control pid was found dead. */
    method Stop() returns (reports: seq<Report>, skipped: seq<Report>, loaded: bool,
                           ghost apps: seq<Act>, ghost control: seq<Act>, ghost residue: seq<Act>)
      requires Valid()
      modifies this`procs, this`unreadable, this`stuck, this`roster, this`controlFiles, this`log
      ensures Valid()
      ensures loaded == old(roster).Readable?
      ensures roster == if loaded && !stuck then Missing else old(roster)
      ensures loaded ==> Members(reports) == Apps(old(roster).roster.members) + ControlOf(old(roster).roster.members)
      ensures skipped == Unstopped(reports)
      ensures log == old(log) + apps + control + residue
      ensures AppSignals(apps) && (control != [] || residue != [] ==> loaded)
      ensures loaded ==> ControlActs(same, ControlOf(old(roster).roster.members), control, residue)
      ensures !loaded ==> apps == []
      ensures controlFiles == if residue == [] then old(controlFiles) else {}
    {
      hide SoundLog, RosterRecorded, AllBelow, Exhausted, LastGeneration, Unstopped, Members, Matches, SignalsTo, Recorded,
        AppSignals, Apps, ControlOf;
      reports, skipped, apps, control, residue := [], [], [], [], [];
      loaded := roster.Readable?;
      NothingDone();
      if !loaded {
        return;
      }
      var members := roster.roster.members;
      var last: Option<Member> := None;
      for i := 0 to |members|
        invariant Valid() && roster == old(roster) && controlFiles == old(controlFiles)
        invariant Members(reports) == Apps(members[..i])
        invariant skipped == Unstopped(reports)
        invariant ControlOf(members[..i]) == if last.Some? then [last.value] else []
        invariant last.Some? ==> last.value in members
        invariant log == old(log) + apps && AppSignals(apps)
      {
        Elsewhere();
        var m := members[i];
        NextMember(members, i);
        if m.app == CONTROL {
          last := Some(m);
        } else {
          RosterMember(log, roster.roster, m);
          var report;
          ghost var acts;
          report, skipped, acts := StopOne(m, skipped);
          ReportOneMore(reports, report);
          MoreAppSignals(same, apps, m, acts);
          reports, apps := reports + [report], apps + acts;
        }
      }
      assert members[..|members|] == members;
      if last.Some? {
        Elsewhere();
        RosterMember(log, roster.roster, last.value);
        var report;
        report, skipped, control, residue := StopControl(last.value, skipped);
        ReportOneMore(reports, report);
        reports := reports + [report];
      }
      if !stuck {
        roster := Missing;
      }
    }

    // ----- The control member's sweep -----

    /** A stale member is gone, has been terminated and killed, or was not proven to be ours. */
    method SweepOne(r: Roster, m: Member, generation: nat) returns (state: MemberState, ghost acts: seq<Act>)
      requires Valid() && RosterRecorded(log, r) && m in r.members && r.generation < generation && m.app != CONTROL
      modifies this`procs, this`unreadable, this`stuck, this`log
      ensures Valid() && log == old(log) + acts && SignalsTo(same, FromSweep(generation), m, acts)
      ensures state.Stopped? ==> !Alive(m.pid)
      ensures state.Running? ==> |acts| == 2 && Stubborn(acts[0], acts[1], m)
      ensures state.Foreign? ==> Alive(m.pid) && !Matches(same, m, procs[m.pid])
      ensures state.Unproven? ==> m.pid in unreadable || !Alive(m.pid)
    {
      hide SoundLog, RosterRecorded, AllBelow, Exhausted, LastGeneration, RecordedBelow, Matches;
      acts := [];
      state := VerifyMember(m);
      if state.Running? {
        Elsewhere();
        RosterMember(log, r, m);
        OldMember(same, log, r, m, generation);
        state, acts := TerminateMember(FromSweep(generation), m);
      }
    }

    /** Only app members of an older generation are signalled; a roster of this generation or a
        newer one is left alone. */
    method SweepRosterResidue(generation: nat) returns (ghost acts: seq<Act>, ghost reports: seq<Report>)
      requires Valid()
      modifies this`procs, this`unreadable, this`stuck, this`roster, this`log
      ensures Valid() && log == old(log) + acts
      ensures if old(roster).Readable? && old(roster).roster.generation < generation
              then
                && SweepSignals(acts, generation, Apps(old(roster).roster.members))
                && Members(reports) == Apps(old(roster).roster.members)
                && LeftRunning(reports, acts)
                && roster == if stuck then old(roster) else Missing
              else roster == old(roster) && acts == []
    {
      hide SoundLog, RosterRecorded, AllBelow, Exhausted, LastGeneration, SignalsTo, Apps, Members, LeftRunning;
      acts, reports := [], [];
      if !roster.Readable? || roster.roster.generation >= generation {
        return;
      }
      var members := roster.roster.members;
      NothingDone();
      for i := 0 to |members|
        invariant Valid() && roster == old(roster)
        invariant log == old(log) + acts && SweepSignals(acts, generation, Apps(members))
        invariant Members(reports) == Apps(members[..i]) && LeftRunning(reports, acts)
      {
        Elsewhere();
        var m := members[i];
        NextMember(members, i);
        if m.app != CONTROL {
          AppOf(members, i);
          var state;
          ghost var more;
          state, more := SweepOne(roster.roster, m, generation);
          MoreSweepSignals(same, acts, more, generation, Apps(members), m);
          ReportOneMore(reports, Report(m, state));
          MoreLeftRunning(reports, acts, Report(m, state), more);
          acts, reports := acts + more, reports + [Report(m, state)];
        }
      }
      assert members[..|members|] == members;
      if !stuck {
        roster := Missing;
      }
    }

    // ----- Start -----

    /** The generation picked is above every earlier start's unless the generations are used up, and
        above both files exactly when neither holds the last one of 64 bits. */
    method PickGeneration() returns (g: nat)
      requires Valid()
      ensures g == NextGeneration(generationFile, roster) && g <= MAX_UINT64
      ensures Exhausted(log) || AllBelow(log, g)
      ensures LastGeneration(generationFile) != MAX_UINT64 && (roster.Readable? ==> roster.roster.generation != MAX_UINT64) <==>
              g > LastGeneration(generationFile) && (roster.Readable? ==> g > roster.roster.generation)
    {
      hide SoundLog, RosterRecorded, AllBelow, Exhausted, LastGeneration;
      NextIsNewer(same, log, generationFile, roster);
      FilesBounded(same, log, generationFile, roster);
      NextIsAboveIff(generationFile, roster);
      var last := LastGeneration(generationFile);
      if roster.Readable? && roster.roster.generation > last {
        last := roster.roster.generation;
      }
      g := (last + 1) % (MAX_UINT64 + 1);
    }

    method RecordGeneration(g: nat)
      requires Valid() && g == NextGeneration(generationFile, roster)
      modifies this`generationFile, this`log
      ensures Valid() && Current(log, g)
      ensures generationFile == Some(GenerationText(g)) && log == old(log) + [Begin(g)]
    {
      hide SoundLog, RosterRecorded, AllBelow, Exhausted, LastGeneration, Known;
      NextIsNewer(same, log, generationFile, roster);
      BeginKeeps(same, log, g);
      if roster.Readable? {
        RosterStays(log, [Begin(g)], roster.roster);
      }
      RecordedGeneration(g);
      generationFile := Some(GenerationText(g));
      log := log + [Begin(g)];
      assert Begin(g) in log;
    }

    /** Start a process and record it, or fail to. */
    method SpawnMember(app: string, executable: string, g: nat) returns (member: Option<Member>, ghost acts: seq<Act>)
      requires Valid() && Current(log, g)
      modifies this`procs, this`unreadable, this`stuck, this`log
      ensures Valid() && Current(log, g) && log == old(log) + acts
      ensures member.None? ==> acts == []
      ensures member.Some? ==>
                && member.value.app == app && member.value.executable == executable && member.value.log == LogPath(app, g)
                && Alive(member.value.pid)
                && member.value.created == (if member.value.pid in unreadable then 0 else procs[member.value.pid].created)
                && acts == [Spawn(g, member.value, procs[member.value.pid])]
    {
      hide SoundLog, RosterRecorded, AllBelow, Exhausted, LastGeneration, Current, LogPath;
      Elsewhere();
      member, acts := None, [];
      var pid: int := *;
      var process: Process := *;
      if !(0 < pid <= MAX_INT32) || pid in procs {
        return;
      }
      procs := procs[pid := process];
      var m := Member(app, executable, pid, if pid in unreadable then 0 else process.created, LogPath(app, g));
      acts := [Spawn(g, m, process)];
      SpawnKeeps(same, log, g, m, process);
      NoStart(log, acts[0]);
      if roster.Readable? {
        RosterStays(log, acts, roster.roster);
      }
      log := log + acts;
      member := Some(m);
    }

    /** The control member, once up, writes its files and sweeps at its own generation. It may do so
        before or after the conductor's next write, or not at all. */
    method MaybeSweep(r: Roster) returns (ghost acts: seq<Act>)
      requires Valid() && Current(log, r.generation) && RosterRecorded(log, r)
      modifies this`procs, this`unreadable, this`stuck, this`roster, this`controlFiles, this`log
      ensures Valid() && Current(log, r.generation) && RosterRecorded(log, r)
      ensures log == old(log) + acts && StartActs(acts, r.generation)
      ensures controlFiles == old(controlFiles) || controlFiles == old(controlFiles) + CONTROL_FILES
      ensures old(roster) == Readable(r) ==> roster == old(roster) && acts == []
    {
      hide SoundLog, RosterRecorded, AllBelow, Exhausted, LastGeneration, Current;
      acts := [];
      var now: bool := *;
      if now {
        controlFiles := controlFiles + CONTROL_FILES;
        ghost var swept;
        acts, swept := SweepRosterResidue(r.generation);
        CurrentStays(old(log), acts, r.generation);
        RosterStays(old(log), acts, r);
      }
    }

    method SpawnInto(app: string, executable: string, r: Roster) returns (grown: Option<Roster>, ghost acts: seq<Act>)
      requires Valid() && Current(log, r.generation) && RosterRecorded(log, r)
      modifies this`procs, this`unreadable, this`stuck, this`log
      ensures Valid() && Current(log, r.generation) && log == old(log) + acts && StartActs(acts, r.generation)
      ensures grown.Some? ==>
                && grown.value.generation == r.generation && RosterRecorded(log, grown.value)
                && |grown.value.members| == |r.members| + 1 && grown.value.members[..|r.members|] == r.members
                && grown.value.members[|r.members|].app == app && grown.value.members[|r.members|].executable == executable
    {
      hide SoundLog, RosterRecorded, AllBelow, Exhausted, LastGeneration, Current;
      var member;
      member, acts := SpawnMember(app, executable, r.generation);
      grown := None;
      if member.Some? {
        ghost var p :| acts == [Spawn(r.generation, member.value, p)];
        RosterOneMore(old(log), r, member.value, p);
        grown := Some(r.(members := r.members + [member.value]));
      }
    }

    method WriteRoster(r: Roster) returns (written: bool)
      requires Valid() && RosterRecorded(log, r)
      modifies this`roster
      ensures Valid() && roster == if written then Readable(r) else old(roster)
    {
      written := *;
      if written {
        roster := Readable(r);
      }
    }

    /** The start, cut short anywhere by an error or a crash. It spawns nothing before its generation
        is on disk, whatever it spawns or sweeps is at that generation, and when it completes the
        roster lists control and then every app in order. */
    method Start(apps: seq<App>, control: string) returns (generation: Option<nat>, complete: bool, ghost acts: seq<Act>)
      requires Valid()
      modifies this
      ensures Valid()
      ensures controlFiles == old(controlFiles) || controlFiles == old(controlFiles) + CONTROL_FILES
      ensures generation.None? ==> !complete && controlFiles == old(controlFiles) && log == old(log) && generationFile == old(generationFile) && roster == old(roster)
      ensures generation.Some? ==>
                && generation.value == NextGeneration(old(generationFile), old(roster))
                && generationFile == Some(GenerationText(generation.value))
                && log == old(log) + [Begin(generation.value)] + acts && StartActs(acts, generation.value)
      ensures complete ==>
                && roster.Readable? && roster.roster.generation == generation.value
                && Lists(roster.roster.members, control, apps)
    {
      hide SoundLog, RosterRecorded, AllBelow, Exhausted, LastGeneration, Current, NextGeneration, GenerationText, StartActs, Lists;
      generation, complete, acts := None, false, [];
      var failed: bool := *;
      if failed {
        return;
      }
      var g := PickGeneration();
      RecordGeneration(g);
      generation := Some(g);
      ghost var base := log;
      EmptyRoster(log, g);
      var grown;
      grown, acts := SpawnInto(CONTROL, control, Roster(g, []));
      if grown.None? {
        return;
      }
      var r := grown.value;
      ListsControl(r.members, control);
      ghost var swept := MaybeSweep(r);
      StartActsMore(acts, swept, g);
      acts := acts + swept;
      var written := WriteRoster(r);
      if !written {
        return;
      }
      swept := MaybeSweep(r);
      StartActsMore(acts, swept, g);
      acts := acts + swept;
      for i := 0 to |apps|
        invariant Valid() && Current(log, g) && RosterRecorded(log, r) && r.generation == g
        invariant log == base + acts && StartActs(acts, g)
        invariant generationFile == Some(GenerationText(g))
        invariant controlFiles == old(controlFiles) || controlFiles == old(controlFiles) + CONTROL_FILES
        invariant Lists(r.members, control, apps[..i])
        invariant roster == Readable(r)
      {
        ghost var more;
        grown, more := SpawnInto(apps[i].name, apps[i].command, r);
        StartActsMore(acts, more, g);
        acts := acts + more;
        if grown.None? {
          return;
        }
        ListsMore(r.members, grown.value.members, control, apps, i);
        r := grown.value;
        written := WriteRoster(r);
        if !written {
          return;
        }
      }
      assert apps[..|apps|] == apps;
      complete := true;
    }

    /** Any sequence of commands, with anything happening to the processes between them: the log
        stays sound. */
    method Run(commands: seq<Command>)
      requires Valid()
      modifies this
      ensures Valid() && old(log) <= log
    {
      hide SoundLog, RosterRecorded, AllBelow, Exhausted, LastGeneration, NextGeneration, GenerationText;
      for i := 0 to |commands|
        invariant Valid() && old(log) <= log
      {
        Elsewhere();
        match commands[i] {
          case StartSuite(apps, control) =>
            var _, _, _ := Start(apps, control);
          case StopSuite =>
            var _, _, _, _, _, _ := Stop();
          case SweepResidue(generation) =>
            var _, _ := SweepRosterResidue(generation);
        }
      }
    }
  }
}
