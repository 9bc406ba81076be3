/** The development suite's records and the log of what its commands did (internal/devsuite). */
module DevSuite {
  import opened Json
  import opened Decimal

  const CONTROL := "control"

  datatype Process = Process(created: int, executable: string)

  /** One spawned member; created is 0 when the kernel did not tell. */
  datatype Member = Member(app: string, executable: string, pid: int, created: int, log: string)

  datatype Roster = Roster(generation: nat, members: seq<Member>)

  /** The roster file: absent, present and refused by LoadRoster, or readable. */
  datatype RosterFile = Missing | Unreadable | Readable(roster: Roster)

  datatype MemberState = Running | Stopped | Foreign | Unproven

  /** When the process is taken for the recorded member. The parameter stands for SameExecutable. */
  predicate Matches(same: (string, string) -> bool, m: Member, p: Process) {
    if m.created > 0 then p.created == m.created else same(p.executable, m.executable)
  }

  /** By creation time where it was recorded, and otherwise by executable. */
  lemma MatchesIff(same: (string, string) -> bool, m: Member, p: Process)
    ensures m.created > 0 ==> (Matches(same, m, p) <==> p.created == m.created)
    ensures m.created <= 0 ==> (Matches(same, m, p) <==> same(p.executable, m.executable))
  {
  }

  function LogPath(app: string, generation: nat): (s: string) {
    app + "-g" + FormatNat(generation) + ".log"
  }

  // ----- Generations -----

  predicate IsSpace(c: char) {
    c == ' ' || '\t' <= c <= '\r' || c as int == 0x85 || c as int == 0xA0
  }

  function TrimSpace(s: string): (t: string)
    ensures |t| <= |s|
  {
    if s != "" && IsSpace(s[0]) then TrimSpace(s[1..])
    else if s != "" && IsSpace(s[|s| - 1]) then TrimSpace(s[..|s| - 1])
    else s
  }

  function LastGeneration(file: Option<string>): (g: nat) {
    if file.None? || ParseUint64(TrimSpace(file.value)).None? then 0 else ParseUint64(TrimSpace(file.value)).value
  }

  function GenerationText(g: nat): (s: string) {
    FormatNat(g) + "\n"
  }

  /** The largest generation either file knows of. */
  function Known(file: Option<string>, roster: RosterFile): (g: nat) {
    var last := LastGeneration(file);
    if roster.Readable? && roster.roster.generation > last then roster.roster.generation else last
  }

  /** nextGeneration, in 64 bits. */
  function NextGeneration(file: Option<string>, roster: RosterFile): (g: nat) {
    (Known(file, roster) + 1) % (MAX_UINT64 + 1)
  }

  /** The generation recorded is the generation read back. */
  lemma RecordedGeneration(g: nat)
    requires g <= MAX_UINT64
    ensures LastGeneration(Some(GenerationText(g))) == g
  {
    var s := FormatNat(g);
    ValueOfFormat(g);
    assert forall i :: 0 <= i < |s| ==> !IsSpace(s[i]);
    assert GenerationText(g)[..|s|] == s;
    assert TrimSpace(s) == s;
  }

  ghost predicate White(s: string) {
    forall i :: 0 <= i < |s| ==> s[i] in " \t\n\r" || 0xB <= s[i] as int <= 0xC || s[i] as int == 0x85 || s[i] as int == 0xA0
  }

  lemma {:induction false} TrimsBefore(a: string, core: string)
    requires White(a)
    ensures TrimSpace(a + core) == TrimSpace(core)
    decreases |a|
  {
    if a == "" {
      assert a + core == core;
    } else {
      assert (a + core)[1..] == a[1..] + core;
      TrimsBefore(a[1..], core);
    }
  }

  lemma {:induction false} TrimsAfter(core: string, b: string)
    requires White(b) && core != "" && !White([core[0]]) && !White([core[|core| - 1]])
    ensures TrimSpace(core + b) == core
    decreases |b|
  {
    var n := |b| - 1;
    assert !IsSpace(core[0]) && !IsSpace(core[|core| - 1]);
    if b == "" {
      assert core + b == core;
    } else {
      assert (core + b)[..|core| + n] == core + b[..n] && (core + b)[0] == core[0];
      TrimsAfter(core, b[..n]);
    }
  }

  /** The number in the file is read with white space on either side; no file, or a file without a
      number in it, counts as generation 0. */
  lemma GenerationReads(a: string, g: nat, b: string, other: string)
    requires White(a) && White(b) && g <= MAX_UINT64 && !Digits(TrimSpace(other))
    ensures LastGeneration(Some(a + (FormatNat(g) + b))) == g
    ensures LastGeneration(None) == 0 && LastGeneration(Some(other)) == 0
  {
    var s := FormatNat(g);
    ValueOfFormat(g);
    assert IsDigit(s[0]) && IsDigit(s[|s| - 1]);
    hide FormatNat, Value;
    TrimsAfter(s, b);
    hide TrimSpace;
    TrimsBefore(a, s + b);
  }

  /** The next generation is above both files exactly when the known one is not the last of 64 bits. */
  lemma NextIsAboveIff(file: Option<string>, roster: RosterFile)
    requires Known(file, roster) <= MAX_UINT64
    ensures NextGeneration(file, roster) <= MAX_UINT64
    ensures NextGeneration(file, roster) > Known(file, roster) <==> Known(file, roster) != MAX_UINT64
    ensures Known(file, roster) != MAX_UINT64 ==> NextGeneration(file, roster) == Known(file, roster) + 1
  {
  }

  /** At that generation the next one starts over. */
  lemma GenerationsWrap()
    ensures NextGeneration(Some(GenerationText(MAX_UINT64)), Missing) == 0
  {
    hide GenerationText, LastGeneration;
    RecordedGeneration(MAX_UINT64);
  }

  lemma LogPathInjective(app: string, g: nat, h: nat)
    requires LogPath(app, g) == LogPath(app, h)
    ensures g == h
  {
    var s, t := LogPath(app, g), LogPath(app, h);
    var n := |app + "-g"|;
    assert s[n..|s| - 4] == FormatNat(g) && t[n..|t| - 4] == FormatNat(h);
    ValueOfFormat(g);
    ValueOfFormat(h);
  }

  // ----- The log -----

  datatype Caller = FromStop | FromSweep(generation: nat)

  datatype SignalKind = Terminate | Kill

  datatype Act =
    | Begin(generation: nat)                                    // a start recorded its generation
    | Spawn(generation: nat, member: Member, process: Process)  // and started this process
    | Signal(caller: Caller, member: Member, kind: SignalKind, target: Process)  // a signal reached this process
    | Dead(pid: int)                                            // a pid was found dead
    | DropControl(pid: int)                                     // the control files were removed

  /** Some start used the last generation that fits in 64 bits. */
  predicate Exhausted(log: seq<Act>) {
    Begin(MAX_UINT64) in log
  }

  ghost predicate AllBelow(log: seq<Act>, g: int) {
    forall a :: a in log && a.Begin? ==> a.generation < g
  }

  ghost predicate Recorded(log: seq<Act>, m: Member) {
    exists g: nat, p :: Spawn(g, m, p) in log
  }

  ghost predicate RecordedBelow(log: seq<Act>, m: Member, g: nat) {
    forall h: nat, p :: Spawn(h, m, p) in log ==> h < g
  }

  ghost predicate SpawnedAt(log: seq<Act>, g: nat, m: Member) {
    exists p :: Spawn(g, m, p) in log
  }

  /** Every member of the roster was spawned by the start that wrote it. */
  ghost predicate RosterRecorded(log: seq<Act>, r: Roster) {
    Begin(r.generation) in log && forall m :: m in r.members ==> SpawnedAt(log, r.generation, m)
  }

  /** What may be done after the acts before it. */
  ghost predicate Sound(same: (string, string) -> bool, before: seq<Act>, act: Act) {
    match act
    case Begin(g) => g <= MAX_UINT64 && (Exhausted(before) || AllBelow(before, g))
    case Spawn(g, m, p) =>
      && Begin(g) in before && (Exhausted(before) || AllBelow(before, g + 1))
      && m.log == LogPath(m.app, g) && (m.created > 0 ==> m.created == p.created)
    case Signal(caller, m, _, target) =>
      && Matches(same, m, target) && Recorded(before, m)
      && (caller.FromSweep? ==> m.app != CONTROL && RecordedBelow(before, m, caller.generation))
    case Dead(_) => true
    case DropControl(pid) => before != [] && before[|before| - 1] == Dead(pid)
  }

  ghost predicate SoundLog(same: (string, string) -> bool, log: seq<Act>)
    decreases |log|
  {
    log == [] || (SoundLog(same, log[..|log| - 1]) && Sound(same, log[..|log| - 1], log[|log| - 1]))
  }

  lemma SoundOneMore(same: (string, string) -> bool, log: seq<Act>, act: Act)
    requires SoundLog(same, log) && Sound(same, log, act)
    ensures SoundLog(same, log + [act])
  {
    assert (log + [act])[..|log|] == log;
  }

  lemma {:induction false} SoundAt(same: (string, string) -> bool, log: seq<Act>, i: nat)
    requires SoundLog(same, log) && i < |log|
    ensures Sound(same, log[..i], log[i])
    decreases |log|
  {
    hide Sound;
    var front := log[..|log| - 1];
    if i < |front| {
      SoundAt(same, front, i);
      assert front[..i] == log[..i];
    }
  }

  // ----- What a sound log says of the whole run -----

  /** Until the generations are used up, each start records a generation above those of all earlier
      starts and of all that they spawned. */
  lemma LaterStartsAreNewer(same: (string, string) -> bool, log: seq<Act>, i: nat, j: nat)
    requires SoundLog(same, log) && i < j < |log| && !Exhausted(log[..j])
    requires log[j].Begin? && (log[i].Begin? || log[i].Spawn?)
    ensures log[i].generation < log[j].generation
  {
    SoundAt(same, log, j);
    if log[i].Begin? {
      assert log[i] in log[..j];
    } else {
      SoundAt(same, log, i);
      var k :| 0 <= k < i && log[..i][k] == Begin(log[i].generation);
      assert log[k] in log[..j];
    }
  }

  /** A process is spawned at the generation of the latest start before it. */
  lemma SpawnsAreCurrent(same: (string, string) -> bool, log: seq<Act>, i: nat, j: nat)
    requires SoundLog(same, log) && i < j < |log| && !Exhausted(log[..j]) && log[i].Begin? && log[j].Spawn?
    ensures log[i].generation <= log[j].generation
  {
    SoundAt(same, log, j);
    assert log[i] in log[..j];
  }

  /** A signal goes to a process whose creation time is the one recorded when a member was spawned,
      if the kernel told it then; a sweep's signal never goes to a member recorded at the sweep's
      own generation or a newer one. */
  lemma SignalsHitTheirMember(same: (string, string) -> bool, log: seq<Act>, j: nat)
    returns (i: nat)
    requires SoundLog(same, log) && j < |log| && log[j].Signal?
    ensures i < j && log[i].Spawn? && log[i].member == log[j].member
    ensures log[j].member.created > 0 ==> log[j].target.created == log[j].member.created == log[i].process.created
    ensures log[j].caller.FromSweep? ==>
              forall k :: 0 <= k < j && log[k].Spawn? && log[k].member == log[j].member ==> log[k].generation < log[j].caller.generation
  {
    SoundAt(same, log, j);
    var g: nat, p :| Spawn(g, log[j].member, p) in log[..j];
    i :| 0 <= i < j && log[i] == Spawn(g, log[j].member, p);
    SoundAt(same, log, i);
    if log[j].caller.FromSweep? {
      forall k | 0 <= k < j && log[k].Spawn? && log[k].member == log[j].member ensures log[k].generation < log[j].caller.generation {
        assert Spawn(log[k].generation, log[j].member, log[k].process) == log[..j][k];
      }
    }
  }

  /** Two processes that had one pid were not created at the same time. */
  ghost predicate DistinctTimes(log: seq<Act>) {
    forall i, k :: 0 <= i < k < |log| && log[i].Spawn? && log[k].Spawn? && log[i].member.pid == log[k].member.pid ==>
      log[i].process.created != log[k].process.created
  }

  /** A sweep never signals a process spawned at its own generation or a newer one, provided the
      creation time of the member it acts for was known when that member was recorded. */
  lemma SweepSparesNewer(same: (string, string) -> bool, log: seq<Act>, j: nat, k: nat)
    requires SoundLog(same, log) && DistinctTimes(log) && j < |log| && k < |log|
    requires log[j].Signal? && log[j].caller.FromSweep? && log[j].member.created > 0
    requires log[k].Spawn? && log[k].member.pid == log[j].member.pid && log[k].generation >= log[j].caller.generation
    ensures log[j].target != log[k].process
  {
    hide SoundLog;
    var i := SignalsHitTheirMember(same, log, j);
    assert log[i].generation < log[j].caller.generation;
  }

  /** Exactly when it can: the signal of a sweep may go to a process spawned on the member's pid at
      the sweep's own generation or a newer one if and only if the member's creation time was not
      known and the process runs the recorded executable. */
  lemma SweepHitsNewerIff(same: (string, string) -> bool, log: seq<Act>, m: Member, kind: SignalKind, g: nat, k: nat)
    requires SoundLog(same, log) && DistinctTimes(log) && m.app != CONTROL && Recorded(log, m) && RecordedBelow(log, m, g)
    requires k < |log| && log[k].Spawn? && log[k].member.pid == m.pid && log[k].generation >= g
    ensures Sound(same, log, Signal(FromSweep(g), m, kind, log[k].process)) <==>
              m.created <= 0 && same(log[k].process.executable, m.executable)
  {
    var signal := Signal(FromSweep(g), m, kind, log[k].process);
    if m.created > 0 && Sound(same, log, signal) {
      var longer := log + [signal];
      SoundOneMore(same, log, signal);
      assert DistinctTimes(longer) by {
        assert forall i :: 0 <= i < |longer| && longer[i].Spawn? ==> i < |log| && longer[i] == log[i];
      }
      SweepSparesNewer(same, longer, |log|, k);
    }
  }

  /** Two starts, each of control and then one app; the creation time of the first app is not known
      and the second app has its pid. */
  ghost predicate ReusedPid(log: seq<Act>, m: Member, n: Member, q: Process) {
    && |log| == 6
    && log[0] == Begin(1) && log[1].Spawn? && log[1].generation == 1 && log[1].member.app == CONTROL
    && log[2].Spawn? && log[2].generation == 1 && log[2].member == m
    && log[3] == Begin(2) && log[4].Spawn? && log[4].generation == 2 && log[4].member.app == CONTROL
    && log[5] == Spawn(2, n, q)
    && m.app != CONTROL && m.created == 0 && m.pid == n.pid && m != n
  }

  /** Such a run: the sweep of generation 2 loads the roster of generation 1 before the start writes
      its own, goes on while that start spawns its app on the reused pid, and signals that app. */
  lemma UnknownTimeCanMislead(same: (string, string) -> bool) returns (log: seq<Act>, m: Member, n: Member, q: Process)
    requires same("app", "app")
    ensures ReusedPid(log, m, n, q) && DistinctTimes(log)
    ensures SoundLog(same, log + [Signal(FromSweep(2), m, Terminate, q)])
  {
    m, n := Member("app", "app", 7, 0, LogPath("app", 1)), Member("app", "app", 7, 200, LogPath("app", 2));
    var c, d := Member(CONTROL, "oc", 5, 10, LogPath(CONTROL, 1)), Member(CONTROL, "oc", 6, 110, LogPath(CONTROL, 2));
    var p := Process(100, "app");
    q := Process(200, "app");
    log := [Begin(1), Spawn(1, c, Process(10, "oc")), Spawn(1, m, p),
            Begin(2), Spawn(2, d, Process(110, "oc")), Spawn(2, n, q)];
    var first := log[..3];
    StartIsSound(same, [], 1, c, Process(10, "oc"), m, p);
    assert [] + [Begin(1), Spawn(1, c, Process(10, "oc")), Spawn(1, m, p)] == first;
    StartIsSound(same, first, 2, d, Process(110, "oc"), n, q);
    assert first + [Begin(2), Spawn(2, d, Process(110, "oc")), Spawn(2, n, q)] == log;
    MisleadingRecord(log, m, n, q);
    hide SoundLog, LogPath;
    SweepHitsNewerIff(same, log, m, Terminate, 2, 5);
    SoundOneMore(same, log, Signal(FromSweep(2), m, Terminate, q));
  }

  lemma MisleadingRecord(log: seq<Act>, m: Member, n: Member, q: Process)
    requires ReusedPid(log, m, n, q)
    ensures Recorded(log, m) && RecordedBelow(log, m, 2)
  {
    assert log[2] == Spawn(1, m, log[2].process);
  }

  /** A start that spawns control and one app. */
  lemma StartIsSound(
    same: (string, string) -> bool, log: seq<Act>, g: nat, c: Member, x: Process, m: Member, p: Process)
    requires SoundLog(same, log) && g <= MAX_UINT64 && AllBelow(log, g)
    requires c.log == LogPath(c.app, g) && (c.created > 0 ==> c.created == x.created)
    requires m.log == LogPath(m.app, g) && (m.created > 0 ==> m.created == p.created)
    ensures SoundLog(same, log + [Begin(g), Spawn(g, c, x), Spawn(g, m, p)])
    ensures AllBelow(log + [Begin(g), Spawn(g, c, x), Spawn(g, m, p)], g + 1)
  {
    hide LogPath, SoundLog;
    var begun := log + [Begin(g)];
    var controlled := begun + [Spawn(g, c, x)];
    SoundOneMore(same, log, Begin(g));
    assert Begin(g) in begun && AllBelow(begun, g + 1);
    SoundOneMore(same, begun, Spawn(g, c, x));
    assert Begin(g) in controlled && AllBelow(controlled, g + 1);
    SoundOneMore(same, controlled, Spawn(g, m, p));
    assert controlled + [Spawn(g, m, p)] == log + [Begin(g), Spawn(g, c, x), Spawn(g, m, p)];
  }

  /** The member recorded in a roster was recorded at no other generation. */
  lemma RecordedOnce(same: (string, string) -> bool, log: seq<Act>, m: Member, g: nat, p: Process, generation: nat)
    requires SoundLog(same, log) && Spawn(g, m, p) in log && g < generation
    ensures RecordedBelow(log, m, generation)
  {
    forall h: nat, q | Spawn(h, m, q) in log ensures h < generation {
      SpawnNamesLog(same, log, g, m, p);
      SpawnNamesLog(same, log, h, m, q);
      LogPathInjective(m.app, g, h);
    }
  }

  lemma SpawnNamesLog(same: (string, string) -> bool, log: seq<Act>, g: nat, m: Member, p: Process)
    requires SoundLog(same, log) && Spawn(g, m, p) in log
    ensures m.log == LogPath(m.app, g)
  {
    var i :| 0 <= i < |log| && log[i] == Spawn(g, m, p);
    SoundAt(same, log, i);
  }
}
