/** A source tree with links, and what copying it should produce (internal/packager). */
module LinkGraph {
  import opened Json
  import opened Paths

  /** An entry of the physical file system. A link carries its text and the canonical path it
      resolves to, if any. A junction is a reparse point that is neither a symlink nor a
      directory nor a regular file to Lstat; a device resolves to itself. */
  datatype Node =
    | Dir(mode: nat, entries: seq<string>)
    | File(mode: nat, bytes: seq<bv8>)
    | Link(text: string, resolved: Option<Path>)
    | Junction(resolved: Option<Path>)

  type FileSystem = map<Path, Node>

  ghost predicate Distinct(names: seq<string>) {
    forall i, j :: 0 <= i < j < |names| ==> names[i] != names[j]
  }

  ghost predicate WellFormed(fs: FileSystem) {
    && (forall p :: p in fs ==> ".." !in p)
    && (forall p, n :: p in fs && fs[p].Dir? && n in fs[p].entries ==> p + [n] in fs)
    && (forall p :: p in fs && fs[p].Dir? ==> Distinct(fs[p].entries))
    && (forall p :: p in fs && (fs[p].Link? || fs[p].Junction?) && fs[p].resolved.Some? ==>
          fs[p].resolved.value in fs && !fs[fs[p].resolved.value].Link?)
  }

  /** How one copy runs: the pack root as named and as resolved, the repository whose
      node_modules may be read, and whether links are materialised. */
  datatype Policy = Policy(root: Path, physicalRoot: Path, repository: Option<Path>, dereference: bool)

  datatype CopyError = Missing | UnsafeLink | EscapesRoot | Unresolved | Outside | Cycle | Unsupported | Conflict

  // ----- Containment -----

  /** Case folding as far as it can meet an ASCII name: U+017F, the long s, folds to s too. */
  function LowerChar(c: char): (r: char) {
    if 'A' <= c <= 'Z' then (c as int + 32) as char else if c as int == 0x17F then 's' else c
  }

  function Lower(s: string): (r: string) {
    seq(|s|, i requires 0 <= i < |s| => LowerChar(s[i]))
  }

  /** The spellings of the name, letter by letter; the last one may be the long s. */
  lemma NodeModulesIff(s: string)
    ensures Lower(s) == "node_modules" <==>
              |s| == 12 && forall i :: 0 <= i < 12 ==>
                s[i] == "node_modules"[i] || s[i] == "NODE_MODULES"[i] || (i == 11 && s[i] as int == 0x17F)
  {
    if |s| == 12 {
      var name, upper := "node_modules", "NODE_MODULES";
      forall i | 0 <= i < 12
        ensures LowerChar(s[i]) == name[i] <==> s[i] == name[i] || s[i] == upper[i] || (i == 11 && s[i] as int == 0x17F)
      {
        LowerLetter(s[i], name[i], upper[i], i == 11);
      }
      assert Lower(s) == name <==> forall i :: 0 <= i < 12 ==> LowerChar(s[i]) == name[i];
    }
  }

  lemma LowerLetter(c: char, low: char, up: char, last: bool)
    requires (low == '_' && up == '_') || ('a' <= low <= 'z' && up as int == low as int - 32)
    requires last <==> low == 's'
    ensures LowerChar(c) == low <==> c == low || c == up || (last && c as int == 0x17F)
  {
  }

  predicate AllowedPath(physicalRoot: Path, repository: Option<Path>, candidate: Path) {
    || PathWithin(physicalRoot, candidate)
    || (&& repository.Some?
        && PathWithin(repository.value, candidate)
        && exists i :: 0 <= i < |Rel(repository.value, candidate)|
                       && Lower(Rel(repository.value, candidate)[i]) == "node_modules")
  }

  /** The same boundary by components: under the pack root, or under the repository below a
      component that reads node_modules in any case. */
  ghost predicate InsideBoundary(physicalRoot: Path, repository: Option<Path>, p: Path) {
    || physicalRoot <= p
    || (&& repository.Some?
        && repository.value <= p
        && exists i :: |repository.value| <= i < |p| && Lower(p[i]) == "node_modules")
  }

  lemma AllowedIffInside(physicalRoot: Path, repository: Option<Path>, p: Path)
    requires ".." !in p
    ensures AllowedPath(physicalRoot, repository, p) <==> InsideBoundary(physicalRoot, repository, p)
  {
    PathWithinIsPrefix(physicalRoot, p);
    if repository.Some? {
      PathWithinIsPrefix(repository.value, p);
      if repository.value <= p {
        var r := Rel(repository.value, p);
        if i :| |repository.value| <= i < |p| && Lower(p[i]) == "node_modules" {
          assert r[i - |repository.value|] == p[i];
        }
        if i :| 0 <= i < |r| && Lower(r[i]) == "node_modules" {
          assert p[|repository.value| + i] == r[i];
        }
      }
    }
  }

  lemma InsideExtends(physicalRoot: Path, repository: Option<Path>, p: Path, name: string)
    requires InsideBoundary(physicalRoot, repository, p)
    ensures InsideBoundary(physicalRoot, repository, p + [name])
  {
    if !(physicalRoot <= p) {
      var i :| |repository.value| <= i < |p| && Lower(p[i]) == "node_modules";
      assert (p + [name])[i] == p[i];
    }
  }

  // ----- Following names through the graph -----

  /** The entry that stands for this one in the copy. */
  function Target(fs: FileSystem, dereference: bool, at: Path): (r: Option<Path>) {
    if at !in fs then None
    else if dereference && (fs[at].Link? || fs[at].Junction?) then fs[at].resolved
    else Some(at)
  }

  /** The entry reached by following names from an entry, resolving links on the way but not
      the last entry itself. */
  ghost function EntryAt(fs: FileSystem, dereference: bool, at: Path, names: Path): (r: Option<Path>)
    decreases |names|
  {
    if names == [] then Some(at)
    else
      var t := Target(fs, dereference, at);
      if t.Some? && t.value in fs && fs[t.value].Dir? && names[0] in fs[t.value].entries
      then EntryAt(fs, dereference, t.value + [names[0]], names[1..])
      else None
  }

  ghost function Walk(fs: FileSystem, dereference: bool, at: Path, names: Path): (r: Option<Path>) {
    match EntryAt(fs, dereference, at, names)
    case None => None
    case Some(e) => Target(fs, dereference, e)
  }

  lemma {:induction false} EntryExtends(fs: FileSystem, dereference: bool, at: Path, names: Path, name: string)
    requires WellFormed(fs)
    requires Walk(fs, dereference, at, names).Some?
    ensures var d := Walk(fs, dereference, at, names).value;
      EntryAt(fs, dereference, at, names + [name]) ==
      if d in fs && fs[d].Dir? && name in fs[d].entries then Some(d + [name]) else None
    decreases |names|
  {
    if names == [] {
      assert ([] + [name])[1..] == [];
    } else {
      assert (names + [name])[1..] == names[1..] + [name];
      var t := Target(fs, dereference, at);
      EntryExtends(fs, dereference, t.value + [names[0]], names[1..], name);
    }
  }

  // ----- The copy of one entry -----

  /** What is written at a destination path. */
  datatype Item = DirItem(mode: nat) | FileItem(mode: nat, bytes: seq<bv8>) | LinkItem(text: string)

  function ItemOf(n: Node): (r: Item) {
    match n
    case Dir(mode, _) => DirItem(mode)
    case File(mode, bytes) => FileItem(mode, bytes)
    case Link(text, _) => LinkItem(text)
    case Junction(_) => LinkItem("")
  }

  /** The link text, read from the directory of the link as named. */
  function LinkPath(source: Path, text: string): (r: Path) {
    Resolve(true, [], Parent(source) + Split(text))
  }

  /** The physical entry to write for this entry, or why it is refused. */
  function Material(fs: FileSystem, policy: Policy, at: Path, source: Path): (r: Result<Path, CopyError>) {
    if at !in fs then Err(Missing)
    else match fs[at]
      case Link(text, resolved) =>
        if policy.dereference then Dereferenced(fs, policy, resolved)
        else if text == "" || IsAbs(text) then Err(UnsafeLink)
        else if !PathWithin(policy.root, LinkPath(source, text)) then Err(EscapesRoot)
        else if resolved.None? then Err(Unresolved)
        else if !AllowedPath(policy.physicalRoot, None, resolved.value) then Err(Outside)
        else Ok(at)
      case Dir(_, _) =>
        if AllowedPath(policy.physicalRoot, policy.repository, at) then Ok(at) else Err(Outside)
      case File(_, _) => Ok(at)
      case Junction(resolved) =>
        if policy.dereference && resolved.Some? && resolved.value in fs
           && (fs[resolved.value].Dir? || fs[resolved.value].File?)
        then Dereferenced(fs, policy, resolved)
        else Err(Unsupported)
  }

  function Dereferenced(fs: FileSystem, policy: Policy, resolved: Option<Path>): (r: Result<Path, CopyError>) {
    if resolved.None? then Err(Unresolved)
    else if !AllowedPath(policy.physicalRoot, policy.repository, resolved.value) then Err(Outside)
    else if resolved.value !in fs then Err(Missing)
    else if fs[resolved.value].Dir? || fs[resolved.value].File? then Ok(resolved.value)
    else Err(Unsupported)
  }

  lemma MaterialIsTarget(fs: FileSystem, policy: Policy, at: Path, source: Path)
    ensures var m := Material(fs, policy, at, source);
      m.Ok? ==>
        && Target(fs, policy.dereference, at) == Some(m.value)
        && m.value in fs
        && !fs[m.value].Junction?
        && (policy.dereference ==> !fs[m.value].Link?)
        && (m.value != at || fs[at].Dir? ==> AllowedPath(policy.physicalRoot, policy.repository, m.value))
  {
  }

  /** Which entries are accepted, and as which: a file always, a directory inside the boundary, a link
      that is followed when its target is a file or directory inside the boundary, and a link that is
      kept when its text stays under the root by name and its target under the physical root. */
  lemma MaterialIff(fs: FileSystem, policy: Policy, at: Path, source: Path, p: Path)
    requires WellFormed(fs) && Plain(source)
    ensures Material(fs, policy, at, source) == Ok(p) <==>
              && at in fs
              && (fs[at].File? ==> p == at)
              && (fs[at].Dir? ==> p == at && InsideBoundary(policy.physicalRoot, policy.repository, at))
              && (fs[at].Link? && !policy.dereference ==>
                    && p == at && fs[at].text != "" && fs[at].text[0] != '/'
                    && policy.root <= Follow(Parent(source), Split(fs[at].text))
                    && fs[at].resolved.Some? && policy.physicalRoot <= fs[at].resolved.value)
              && (fs[at].Junction? ==> policy.dereference)
              && ((fs[at].Link? && policy.dereference) || fs[at].Junction? ==>
                    && fs[at].resolved == Some(p) && (fs[p].Dir? || fs[p].File?)
                    && InsideBoundary(policy.physicalRoot, policy.repository, p))
  {
    hide PathWithin, AllowedPath, InsideBoundary, LinkPath;
    if at in fs {
      AllowedIffInside(policy.physicalRoot, policy.repository, at);
      if fs[at].Link? { LinkPathFollows(policy.root, source, fs[at].text); }
      if (fs[at].Link? || fs[at].Junction?) && fs[at].resolved.Some? {
        AllowedIffInside(policy.physicalRoot, policy.repository, fs[at].resolved.value);
        AllowedIffInside(policy.physicalRoot, None, fs[at].resolved.value);
        InsideWithoutRepository(policy.physicalRoot, fs[at].resolved.value);
      }
    }
  }

  lemma LinkPathFollows(root: Path, source: Path, text: string)
    requires Plain(source)
    ensures PathWithin(root, LinkPath(source, text)) <==> root <= Follow(Parent(source), Split(text))
  {
    hide Split, PathWithin;
    var dir := Parent(source);
    ResolveFollows([], dir + Split(text));
    FollowAppend([], dir, Split(text));
    FollowPlain([], dir);
    assert [] + dir == dir;
    FollowStaysPlain(dir, Split(text));
    PathWithinIsPrefix(root, Follow(dir, Split(text)));
  }

  lemma InsideWithoutRepository(physicalRoot: Path, p: Path)
    ensures InsideBoundary(physicalRoot, None, p) <==> physicalRoot <= p
  {
  }

  /** How the others are refused. */
  lemma MaterialRefusals(fs: FileSystem, policy: Policy, at: Path, source: Path)
    requires WellFormed(fs) && Plain(source)
    ensures Material(fs, policy, at, source) == Err(Missing) <==> at !in fs
    ensures Material(fs, policy, at, source) == Err(UnsafeLink) <==>
              at in fs && fs[at].Link? && !policy.dereference && (fs[at].text == "" || fs[at].text[0] == '/')
    ensures Material(fs, policy, at, source) == Err(EscapesRoot) ==>
              at in fs && fs[at].Link? && !policy.dereference && !(policy.root <= Follow(Parent(source), Split(fs[at].text)))
    ensures Material(fs, policy, at, source) == Err(Unresolved) ==> at in fs && fs[at].Link? && fs[at].resolved.None?
    ensures Material(fs, policy, at, source) != Err(Cycle) && Material(fs, policy, at, source) != Err(Conflict)
  {
    hide PathWithin, AllowedPath, LinkPath;
    if at in fs && fs[at].Link? { LinkPathFollows(policy.root, source, fs[at].text); }
  }

  // ----- The whole copy -----

  /** A materialised tree. */
  datatype Tree = Leaf(item: Item) | Branch(mode: nat, children: map<string, Tree>)

  function Lookup(t: Tree, names: Path): (r: Option<Item>)
    decreases |names|
  {
    if names == [] then Some(if t.Leaf? then t.item else DirItem(t.mode))
    else if t.Branch? && names[0] in t.children then Lookup(t.children[names[0]], names[1..])
    else None
  }

  function Directories(fs: FileSystem): (r: set<Path>) {
    set p | p in fs && fs[p].Dir?
  }

  /** The copy of an entry; active holds the directories being copied above it. Each nested
      directory is new to active, so the walk is bounded by the number of directories. */
  function Plan(fs: FileSystem, policy: Policy, at: Path, source: Path, active: set<Path>)
    : (r: Result<Tree, CopyError>)
    decreases |Directories(fs) - active|, 1
  {
    match Material(fs, policy, at, source)
    case Err(e) => Err(e)
    case Ok(p) =>
      MaterialIsTarget(fs, policy, at, source);
      if fs[p].Dir? then PlanDirectory(fs, policy, p, source, active) else Ok(Leaf(ItemOf(fs[p])))
  }

  function PlanDirectory(fs: FileSystem, policy: Policy, dir: Path, source: Path, active: set<Path>)
    : (r: Result<Tree, CopyError>)
    requires dir in fs && fs[dir].Dir?
    decreases |Directories(fs) - active|, 0
  {
    if dir in active then Err(Cycle)
    else
      assert Directories(fs) - (active + {dir}) == Directories(fs) - active - {dir};
      match PlanEntries(fs, policy, dir, source, active + {dir}, |fs[dir].entries|)
      case Err(e) => Err(e)
      case Ok(children) => Ok(Branch(fs[dir].mode, children))
  }

  /** The copies of the first n entries of a directory. */
  function PlanEntries(fs: FileSystem, policy: Policy, dir: Path, source: Path, active: set<Path>, n: nat)
    : (r: Result<map<string, Tree>, CopyError>)
    requires dir in fs && fs[dir].Dir? && n <= |fs[dir].entries|
    decreases |Directories(fs) - active|, 2, n
  {
    if n == 0 then Ok(map[])
    else
      match PlanEntries(fs, policy, dir, source, active, n - 1)
      case Err(e) => Err(e)
      case Ok(before) =>
        var name := fs[dir].entries[n - 1];
        match Plan(fs, policy, dir + [name], source + [name], active)
        case Err(e) => Err(e)
        case Ok(t) => Ok(before[name := t])
  }

  // ----- The copy is the unfolding of the graph -----

  /** The node reached by following names, as it should be written. */
  ghost function Reached(fs: FileSystem, policy: Policy, at: Path, names: Path): (r: Option<Item>) {
    match Walk(fs, policy.dereference, at, names)
    case None => None
    case Some(p) => if p in fs then Some(ItemOf(fs[p])) else None
  }

  /** The tree holds exactly the paths that can be followed from the entry, each with the node the
      following reaches. */
  ghost predicate Unfolds(fs: FileSystem, policy: Policy, at: Path, t: Tree) {
    forall names: Path :: Lookup(t, names) == Reached(fs, policy, at, names)
  }

  ghost predicate EntriesUnfold(fs: FileSystem, policy: Policy, dir: Path, names: seq<string>, children: map<string, Tree>) {
    && (forall name :: name in children <==> name in names)
    && (forall name :: name in children ==> Unfolds(fs, policy, dir + [name], children[name]))
  }

  lemma BranchUnfolds(fs: FileSystem, policy: Policy, at: Path, p: Path, children: map<string, Tree>)
    requires Target(fs, policy.dereference, at) == Some(p) && p in fs && fs[p].Dir?
    requires EntriesUnfold(fs, policy, p, fs[p].entries, children)
    ensures Unfolds(fs, policy, at, Branch(fs[p].mode, children))
  {
    var t := Branch(fs[p].mode, children);
    forall names: Path ensures Lookup(t, names) == Reached(fs, policy, at, names) {
      if names != [] && names[0] in children {
        assert Unfolds(fs, policy, p + [names[0]], children[names[0]]);
      }
    }
  }

  lemma LeafUnfolds(fs: FileSystem, policy: Policy, at: Path, p: Path)
    requires Target(fs, policy.dereference, at) == Some(p) && p in fs && !fs[p].Dir?
    ensures Unfolds(fs, policy, at, Leaf(ItemOf(fs[p])))
  {
  }

  /** A successful copy is the unfolding of the source graph. */
  lemma {:induction false} PlanUnfolds(
    fs: FileSystem, policy: Policy, at: Path, source: Path, active: set<Path>, t: Tree)
    requires Plan(fs, policy, at, source, active) == Ok(t)
    ensures Unfolds(fs, policy, at, t)
    decreases |Directories(fs) - active|, 1
  {
    MaterialIsTarget(fs, policy, at, source);
    var p := Material(fs, policy, at, source).value;
    if fs[p].Dir? {
      assert Directories(fs) - (active + {p}) == Directories(fs) - active - {p};
      PlanEntriesUnfold(fs, policy, p, source, active + {p}, |fs[p].entries|, t.children);
      assert fs[p].entries[..|fs[p].entries|] == fs[p].entries;
      BranchUnfolds(fs, policy, at, p, t.children);
    } else {
      LeafUnfolds(fs, policy, at, p);
    }
  }

  lemma NoEntriesUnfold(fs: FileSystem, policy: Policy, dir: Path)
    ensures EntriesUnfold(fs, policy, dir, [], map[])
  {
  }

  lemma EntriesUnfoldStep(
    fs: FileSystem, policy: Policy, dir: Path, names: seq<string>, name: string, before: map<string, Tree>, t: Tree)
    requires EntriesUnfold(fs, policy, dir, names, before) && Unfolds(fs, policy, dir + [name], t)
    ensures EntriesUnfold(fs, policy, dir, names + [name], before[name := t])
  {
  }

  lemma {:induction false} PlanEntriesUnfold(
    fs: FileSystem, policy: Policy, dir: Path, source: Path, active: set<Path>, n: nat, children: map<string, Tree>)
    requires dir in fs && fs[dir].Dir? && n <= |fs[dir].entries|
    requires PlanEntries(fs, policy, dir, source, active, n) == Ok(children)
    ensures EntriesUnfold(fs, policy, dir, fs[dir].entries[..n], children)
    decreases |Directories(fs) - active|, 2, n
  {
    NoEntriesUnfold(fs, policy, dir);
    hide Unfolds, EntriesUnfold, Plan, Directories;
    if n > 0 {
      var name := fs[dir].entries[n - 1];
      var before := PlanEntries(fs, policy, dir, source, active, n - 1).value;
      var t := Plan(fs, policy, dir + [name], source + [name], active).value;
      PlanEntriesUnfold(fs, policy, dir, source, active, n - 1, before);
      PlanUnfolds(fs, policy, dir + [name], source + [name], active, t);
      EntriesUnfoldStep(fs, policy, dir, fs[dir].entries[..n - 1], name, before, t);
      assert fs[dir].entries[..n] == fs[dir].entries[..n - 1] + [name];
    }
  }

  lemma EntryIsNew(
    fs: FileSystem, policy: Policy, dir: Path, source: Path, active: set<Path>, n: nat, children: map<string, Tree>)
    requires WellFormed(fs) && dir in fs && fs[dir].Dir? && n < |fs[dir].entries|
    requires PlanEntries(fs, policy, dir, source, active, n) == Ok(children)
    ensures fs[dir].entries[n] !in children
  {
    PlanEntriesUnfold(fs, policy, dir, source, active, n, children);
    assert Distinct(fs[dir].entries);
  }

  /** The first failing entry decides the outcome of the directory. */
  lemma {:induction false} EntryDecides(
    fs: FileSystem, policy: Policy, dir: Path, source: Path, active: set<Path>, n: nat, m: nat, e: CopyError)
    requires dir in fs && fs[dir].Dir? && n <= m <= |fs[dir].entries|
    requires PlanEntries(fs, policy, dir, source, active, n) == Err(e)
    ensures PlanEntries(fs, policy, dir, source, active, m) == Err(e)
    decreases m
  {
    if n < m { EntryDecides(fs, policy, dir, source, active, n, m - 1, e); }
  }

  // ----- Every entry below a successful copy was itself accepted -----

  lemma {:induction false} EntryPlanned(
    fs: FileSystem, policy: Policy, dir: Path, source: Path, active: set<Path>, n: nat, i: nat)
    requires dir in fs && fs[dir].Dir? && i < n <= |fs[dir].entries|
    requires PlanEntries(fs, policy, dir, source, active, n).Ok?
    ensures var name := fs[dir].entries[i]; Plan(fs, policy, dir + [name], source + [name], active).Ok?
    decreases n
  {
    if i < n - 1 { EntryPlanned(fs, policy, dir, source, active, n - 1, i); }
  }

  lemma {:induction false} ReachedPlanned(
    fs: FileSystem, policy: Policy, at: Path, source: Path, active: set<Path>, names: Path) returns (below: set<Path>)
    requires Plan(fs, policy, at, source, active).Ok?
    requires EntryAt(fs, policy.dereference, at, names).Some?
    ensures Plan(fs, policy, EntryAt(fs, policy.dereference, at, names).value, source + names, below).Ok?
    ensures active <= below
    ensures names != [] ==> Target(fs, policy.dereference, at).Some? && Target(fs, policy.dereference, at).value in below
    decreases |names|
  {
    if names == [] {
      below := active;
      assert source + names == source;
    } else {
      MaterialIsTarget(fs, policy, at, source);
      var p := Material(fs, policy, at, source).value;
      var i :| 0 <= i < |fs[p].entries| && fs[p].entries[i] == names[0];
      EntryPlanned(fs, policy, p, source, active + {p}, |fs[p].entries|, i);
      below := ReachedPlanned(fs, policy, p + [names[0]], source + [names[0]], active + {p}, names[1..]);
      assert source + [names[0]] + names[1..] == source + names;
    }
  }

  /** Everything a successful copy reads lies inside the boundary, and so does the target of every
      link it keeps. */
  lemma {:induction false} CopyStaysInside(
    fs: FileSystem, policy: Policy, at: Path, source: Path, names: Path)
    requires WellFormed(fs) && Plan(fs, policy, at, source, {}).Ok?
    requires Target(fs, policy.dereference, at).Some?
    requires InsideBoundary(policy.physicalRoot, policy.repository, Target(fs, policy.dereference, at).value)
    requires Walk(fs, policy.dereference, at, names).Some?
    ensures var p := Walk(fs, policy.dereference, at, names).value;
      && p in fs
      && InsideBoundary(policy.physicalRoot, policy.repository, p)
      && (fs[p].Link? ==> fs[p].resolved.Some? && InsideBoundary(policy.physicalRoot, None, fs[p].resolved.value))
    decreases |names|
  {
    var below := ReachedPlanned(fs, policy, at, source, {}, names);
    var e := EntryAt(fs, policy.dereference, at, names).value;
    MaterialIsTarget(fs, policy, e, source + names);
    var p := Walk(fs, policy.dereference, at, names).value;
    AllowedIffInside(policy.physicalRoot, policy.repository, p);
    if fs[p].Link? { AllowedIffInside(policy.physicalRoot, None, fs[p].resolved.value); }
    if names != [] {
      var front, last := names[..|names| - 1], names[|names| - 1];
      assert front + [last] == names;
      PrefixReached(fs, policy.dereference, at, front, last);
      CopyStaysInside(fs, policy, at, source, front);
      var d := Walk(fs, policy.dereference, at, front).value;
      EntryExtends(fs, policy.dereference, at, front, last);
      InsideExtends(policy.physicalRoot, policy.repository, d, last);
    }
  }

  lemma {:induction false} PrefixReached(fs: FileSystem, dereference: bool, at: Path, names: Path, last: string)
    requires EntryAt(fs, dereference, at, names + [last]).Some?
    ensures Walk(fs, dereference, at, names).Some?
    decreases |names|
  {
    if names != [] {
      assert (names + [last])[1..] == names[1..] + [last];
      PrefixReached(fs, dereference, Target(fs, dereference, at).value + [names[0]], names[1..], last);
    }
  }

  /** Materialising leaves no link behind. */
  lemma MaterialisedHasNoLinks(fs: FileSystem, policy: Policy, at: Path, source: Path, t: Tree, names: Path)
    requires policy.dereference && Plan(fs, policy, at, source, {}) == Ok(t)
    ensures Lookup(t, names).Some? ==> !Lookup(t, names).value.LinkItem?
  {
    PlanUnfolds(fs, policy, at, source, {}, t);
    if Lookup(t, names).Some? {
      assert Lookup(t, names) == Reached(fs, policy, at, names);
      var below := ReachedPlanned(fs, policy, at, source, {}, names);
      MaterialIsTarget(fs, policy, EntryAt(fs, policy.dereference, at, names).value, source + names);
    }
  }

  // ----- The cycle guard is exact -----

  /** Some directory that can be reached from the entry can be reached again from itself. */
  ghost predicate Cyclic(fs: FileSystem, dereference: bool, at: Path) {
    exists names: Path, loop: Path :: Returns(fs, dereference, at, names, loop)
  }

  ghost predicate Returns(fs: FileSystem, dereference: bool, at: Path, names: Path, loop: Path) {
    && loop != []
    && Walk(fs, dereference, at, names).Some?
    && var d := Walk(fs, dereference, at, names).value;
       d in fs && fs[d].Dir? && Walk(fs, dereference, d, loop) == Some(d)
  }

  lemma CopyMeansAcyclic(fs: FileSystem, policy: Policy, at: Path, source: Path, names: Path, loop: Path)
    requires Plan(fs, policy, at, source, {}).Ok?
    ensures !Returns(fs, policy.dereference, at, names, loop)
  {
    if Returns(fs, policy.dereference, at, names, loop) {
      var above := ReachedPlanned(fs, policy, at, source, {}, names);
      var e := EntryAt(fs, policy.dereference, at, names).value;
      var below := ReachedPlanned(fs, policy, e, source + names, above, loop);
      var again := EntryAt(fs, policy.dereference, e, loop).value;
      MaterialIsTarget(fs, policy, again, source + names + loop);
      assert false;
    }
  }

  lemma {:induction false} WalkComposes(fs: FileSystem, dereference: bool, at: Path, names: Path, k: nat)
    requires k < |names| && Walk(fs, dereference, at, names).Some?
    requires Walk(fs, dereference, at, names[..k]).Some?
    requires var d := Walk(fs, dereference, at, names[..k]).value; d in fs && fs[d].Dir?
    ensures Walk(fs, dereference, Walk(fs, dereference, at, names[..k]).value, names[k..])
         == Walk(fs, dereference, at, names)
    decreases k
  {
    if k == 0 {
      assert names[k..] == names && names[..k] == [];
    } else {
      assert names[..k][1..] == names[1..][..k - 1] && names[1..][k - 1..] == names[k..];
      WalkComposes(fs, dereference, Target(fs, dereference, at).value + [names[0]], names[1..], k - 1);
    }
  }

  /** Where a copy failed: an entry that is refused in itself, or a directory already above it. */
  ghost predicate FailsAt(fs: FileSystem, policy: Policy, at: Path, source: Path, active: set<Path>, e: CopyError, names: Path) {
    && EntryAt(fs, policy.dereference, at, names).Some?
    && (|| Material(fs, policy, EntryAt(fs, policy.dereference, at, names).value, source + names) == Err(e)
        || (&& e == Cycle
            && Walk(fs, policy.dereference, at, names).Some?
            && var d := Walk(fs, policy.dereference, at, names).value;
               && d in fs && fs[d].Dir?
               && (d in active || exists k :: 0 <= k < |names| && Walk(fs, policy.dereference, at, names[..k]) == Some(d))))
  }

  lemma {:induction false} FailureReached(
    fs: FileSystem, policy: Policy, at: Path, source: Path, active: set<Path>, e: CopyError) returns (names: Path)
    requires Plan(fs, policy, at, source, active) == Err(e)
    ensures FailsAt(fs, policy, at, source, active, e, names)
    decreases |Directories(fs) - active|, 1
  {
    names := [];
    assert source + names == source;
    if Material(fs, policy, at, source).Ok? {
      MaterialIsTarget(fs, policy, at, source);
      var p := Material(fs, policy, at, source).value;
      if p !in active {
        assert Directories(fs) - (active + {p}) == Directories(fs) - active - {p};
        var name, inner := EntryFailure(fs, policy, p, source, active + {p}, |fs[p].entries|, e);
        names := [name] + inner;
        FailureLifts(fs, policy, at, p, source, active, e, name, inner);
      }
    }
  }

  lemma FailureLifts(
    fs: FileSystem, policy: Policy, at: Path, p: Path, source: Path, active: set<Path>, e: CopyError, name: string, inner: Path)
    requires Target(fs, policy.dereference, at) == Some(p) && p in fs && fs[p].Dir? && name in fs[p].entries
    requires FailsAt(fs, policy, p + [name], source + [name], active + {p}, e, inner)
    ensures FailsAt(fs, policy, at, source, active, e, [name] + inner)
  {
    var names := [name] + inner;
    assert names[1..] == inner && source + [name] + inner == source + names;
    assert names[..0] == [] && Walk(fs, policy.dereference, at, names[..0]) == Some(p);
    forall k | 0 <= k < |inner|
      ensures Walk(fs, policy.dereference, at, names[..k + 1]) == Walk(fs, policy.dereference, p + [name], inner[..k])
    {
      assert names[..k + 1][1..] == inner[..k];
    }
  }

  lemma {:induction false} EntryFailure(
    fs: FileSystem, policy: Policy, dir: Path, source: Path, active: set<Path>, n: nat, e: CopyError)
    returns (name: string, inner: Path)
    requires dir in fs && fs[dir].Dir? && n <= |fs[dir].entries|
    requires PlanEntries(fs, policy, dir, source, active, n) == Err(e)
    ensures name in fs[dir].entries
    ensures FailsAt(fs, policy, dir + [name], source + [name], active, e, inner)
    decreases |Directories(fs) - active|, 2, n
  {
    if PlanEntries(fs, policy, dir, source, active, n - 1).Err? {
      name, inner := EntryFailure(fs, policy, dir, source, active, n - 1, e);
    } else {
      name := fs[dir].entries[n - 1];
      inner := FailureReached(fs, policy, dir + [name], source + [name], active, e);
    }
  }

  /** On every graph, a copy that reports a cycle has met one. */
  lemma CycleErrorMeansCyclic(fs: FileSystem, policy: Policy, at: Path, source: Path)
    requires Plan(fs, policy, at, source, {}) == Err(Cycle)
    ensures Cyclic(fs, policy.dereference, at)
  {
    var names := FailureReached(fs, policy, at, source, {}, Cycle);
    var k :| 0 <= k < |names| &&
      Walk(fs, policy.dereference, at, names[..k]) == Walk(fs, policy.dereference, at, names);
    WalkComposes(fs, policy.dereference, at, names, k);
    assert Returns(fs, policy.dereference, at, names[..k], names[k..]);
  }

  /** Every entry that can be reached is accepted on its own. */
  ghost predicate Untroubled(fs: FileSystem, policy: Policy, at: Path, source: Path) {
    forall names: Path :: EntryAt(fs, policy.dereference, at, names).Some? ==>
      Material(fs, policy, EntryAt(fs, policy.dereference, at, names).value, source + names).Ok?
  }

  ghost predicate RefusedAt(fs: FileSystem, policy: Policy, at: Path, source: Path, names: Path) {
    && EntryAt(fs, policy.dereference, at, names).Some?
    && Material(fs, policy, EntryAt(fs, policy.dereference, at, names).value, source + names).Err?
  }

  /** Some entry that can be reached is refused on its own. */
  ghost predicate Troubled(fs: FileSystem, policy: Policy, at: Path, source: Path) {
    exists names: Path :: RefusedAt(fs, policy, at, source, names)
  }

  lemma CopiedIsNoJunction(fs: FileSystem, policy: Policy, at: Path, source: Path, names: Path)
    requires Plan(fs, policy, at, source, {}).Ok? && Walk(fs, policy.dereference, at, names).Some?
    ensures Walk(fs, policy.dereference, at, names).value in fs && !fs[Walk(fs, policy.dereference, at, names).value].Junction?
  {
    var below := ReachedPlanned(fs, policy, at, source, {}, names);
    MaterialIsTarget(fs, policy, EntryAt(fs, policy.dereference, at, names).value, source + names);
  }

  /** On every graph the copy fails exactly when a directory is reachable from itself or an entry that
      can be reached is refused. */
  lemma CopyFailsIff(fs: FileSystem, policy: Policy, at: Path, source: Path)
    ensures Plan(fs, policy, at, source, {}).Err? <==>
              Cyclic(fs, policy.dereference, at) || Troubled(fs, policy, at, source)
  {
    if Plan(fs, policy, at, source, {}).Err? {
      var e := Plan(fs, policy, at, source, {}).error;
      var names := FailureReached(fs, policy, at, source, {}, e);
      if !RefusedAt(fs, policy, at, source, names) {
        CycleErrorMeansCyclic(fs, policy, at, source);
      }
    } else {
      if Cyclic(fs, policy.dereference, at) {
        var names: Path, loop: Path :| Returns(fs, policy.dereference, at, names, loop);
        CopyMeansAcyclic(fs, policy, at, source, names, loop);
      }
      if names: Path :| RefusedAt(fs, policy, at, source, names) {
        var below := ReachedPlanned(fs, policy, at, source, {}, names);
      }
    }
  }

  /** Absent other errors the copy fails exactly on a cycle, and then with the cycle error. */
  lemma CycleErrorIffCyclic(fs: FileSystem, policy: Policy, at: Path, source: Path)
    requires Untroubled(fs, policy, at, source)
    ensures Plan(fs, policy, at, source, {}).Err? <==> Cyclic(fs, policy.dereference, at)
    ensures Plan(fs, policy, at, source, {}).Err? ==> Plan(fs, policy, at, source, {}).error == Cycle
  {
    if Plan(fs, policy, at, source, {}).Err? {
      var names := FailureReached(fs, policy, at, source, {}, Plan(fs, policy, at, source, {}).error);
      CycleErrorMeansCyclic(fs, policy, at, source);
    } else if Cyclic(fs, policy.dereference, at) {
      var names: Path, loop: Path :| Returns(fs, policy.dereference, at, names, loop);
      CopyMeansAcyclic(fs, policy, at, source, names, loop);
    }
  }
}
