/** Packing a tree into sorted entries, and the round trip through extraction. */
module ArchivePack {
  import opened Json
  import opened Paths
  import opened Archive

  // ----- Byte order of names -----

  /** sort.Strings: the byte order on texts. */
  predicate Before(a: string, b: string) {
    b != "" && (a == "" || a[0] < b[0] || (a[0] == b[0] && Before(a[1..], b[1..])))
  }

  lemma {:induction false} BeforeIsStrictTotal(a: string, b: string)
    ensures !(Before(a, b) && Before(b, a))
    ensures a != b ==> Before(a, b) || Before(b, a)
    decreases |a|
  {
    if a != "" && b != "" {
      BeforeIsStrictTotal(a[1..], b[1..]);
      assert a == [a[0]] + a[1..] && b == [b[0]] + b[1..];
    }
  }

  lemma {:induction false} BeforeTransitive(a: string, b: string, c: string)
    requires Before(a, b) && Before(b, c)
    ensures Before(a, c)
    decreases |a|
  {
    if a != "" && a[0] == b[0] && b[0] == c[0] { BeforeTransitive(a[1..], b[1..], c[1..]); }
  }

  lemma {:induction false} PrefixBefore(a: string, b: string)
    requires a < b
    ensures Before(a, b)
    decreases |a|
  {
    if a != "" { PrefixBefore(a[1..], b[1..]); }
  }

  /** The order of bytes at the first place where two names differ. */
  lemma {:induction false} BeforeAtDifference(common: string, x: char, y: char, a: string, b: string)
    requires x < y
    ensures Before(common + [x] + a, common + [y] + b)
    decreases |common|
  {
    var s, t := common + [x] + a, common + [y] + b;
    if common != "" {
      BeforeAtDifference(common[1..], x, y, a, b);
      assert s[1..] == common[1..] + [x] + a && t[1..] == common[1..] + [y] + b;
    }
  }

  lemma JoinInjective(p: Path, q: Path)
    requires Plain(p) && Plain(q) && p != [] && q != []
    ensures Join(p) == Join(q) <==> p == q
  {
    SplitJoin(p);
    SplitJoin(q);
  }

  ghost predicate Sorted(names: seq<Path>) {
    forall i, j :: 0 <= i < j < |names| ==> Before(Join(names[i]), Join(names[j]))
  }

  ghost predicate Enumerates(names: seq<Path>, all: set<Path>) {
    && (forall p :: p in all <==> p in names)
    && (forall i, j :: 0 <= i < j < |names| ==> names[i] != names[j])
  }

  lemma {:induction false} JoinExtends(p: Path, k: nat)
    requires Plain(p) && 0 < k < |p|
    ensures Join(p[..k]) < Join(p)
    decreases k
  {
    if k == 1 {
      assert Join(p[..1]) == p[0];
    } else {
      JoinExtends(p[1..], k - 1);
      assert p[1..][..k - 1] == p[..k][1..];
      var short, long := Join(p[..k][1..]), Join(p[1..]);
      assert Join(p[..k]) == p[0] + "/" + short && Join(p) == p[0] + "/" + long;
    }
  }

  /** In byte order a directory precedes everything below it. */
  lemma ParentPrecedesChild(names: seq<Path>, i: nat, j: nat)
    requires Sorted(names) && i < |names| && j < |names|
    requires Plain(names[j]) && names[i] != [] && names[i] < names[j]
    ensures i < j
  {
    var p, k := names[j], |names[i]|;
    assert p[..k] == names[i];
    JoinExtends(p, k);
    PrefixBefore(Join(names[i]), Join(names[j]));
    BeforeIsStrictTotal(Join(names[i]), Join(names[j]));
  }

  lemma EmptyOrMember(names: seq<Path>)
    ensures names == [] || names[0] in names
  {
  }

  /** The sorted order of a set of names is unique, so equal trees give equal archives. */
  lemma {:induction false} SortedOrderUnique(a: seq<Path>, b: seq<Path>, all: set<Path>)
    requires Sorted(a) && Sorted(b) && Enumerates(a, all) && Enumerates(b, all)
    ensures a == b
    decreases |a|
  {
    if a == [] {
      EmptyOrMember(b);
    } else {
      assert a[0] in b && b != [];
      assert b[0] in a;
      BeforeIsStrictTotal(Join(a[0]), Join(b[0]));
      assert a[0] == b[0];
      var rest := all - {a[0]};
      assert forall p :: p in a[1..] <==> p in a && p != a[0];
      assert forall p :: p in b[1..] <==> p in b && p != b[0];
      SortedOrderUnique(a[1..], b[1..], rest);
      assert a == [a[0]] + a[1..] && b == [b[0]] + b[1..];
    }
  }

  // ----- Packing -----

  datatype PackError = Incomplete | UnsafeSourceLink

  function HeaderOf(p: Path, node: Node): (r: Entry) {
    match node
    case Dir(mode) => Header(Join(p), DirKind, mode, "", [])
    case File(bytes, mode) => Header(Join(p), FileKind, mode, "", bytes)
    case Link(text) => Header(Join(p), LinkKind, 0x1ff, text, [])
    case Special => Header(Join(p), OtherKind, 0, "", [])
  }

  function HeadersOf(t: Tree, names: seq<Path>): (r: seq<Entry>)
    requires forall p :: p in names ==> p in t
  {
    seq(|names|, i requires 0 <= i < |names| => HeaderOf(names[i], t[names[i]]))
  }

  /** os.Stat finds a required top-level entry: a link must resolve. */
  predicate Found(t: Tree, resolves: set<Path>, name: string) {
    [name] in t && (t[[name]].Link? ==> [name] in resolves)
  }

  predicate Complete(t: Tree, resolves: set<Path>) {
    Found(t, resolves, "manifest.json") && Found(t, resolves, "launcher") && Found(t, resolves, "payload")
  }

  ghost predicate LinksStayInside(t: Tree, root: Path) {
    forall p :: p in t && t[p].Link? ==> SourceLinkSafe(root, p, t[p].text)
  }

  /** What packing asks of a tree, in names and directories. */
  lemma PackGuards(t: Tree, root: Path, resolves: set<Path>)
    requires Plain(root) && Grounded(t)
    ensures Complete(t, resolves) <==>
              forall name :: name in {"manifest.json", "launcher", "payload"} ==>
                [name] in t && (t[[name]].Link? ==> [name] in resolves)
    ensures LinksStayInside(t, root) <==>
              forall p :: p in t && t[p].Link? ==>
                t[p].text != "" && t[p].text[0] != '/' && root <= Follow(root + Parent(p), Split(t[p].text))
  {
    forall p | p in t && t[p].Link?
      ensures SourceLinkSafe(root, p, t[p].text) <==>
                t[p].text != "" && t[p].text[0] != '/' && root <= Follow(root + Parent(p), Split(t[p].text))
    {
      SourceLinkSafeIff(root, p, t[p].text);
    }
  }

  /** Followed by name from the link's directory, the text ends at or below the root. */
  lemma SourceLinkSafeIff(root: Path, at: Path, text: string)
    requires Plain(root) && Plain(at)
    ensures SourceLinkSafe(root, at, text) <==>
              text != "" && text[0] != '/' && root <= Follow(root + Parent(at), Split(text))
  {
    hide PathWithin, Resolve, Split;
    var dir := root + Parent(at);
    assert Plain(dir);
    ResolveFollows([], dir + Split(text));
    FollowAppend([], dir, Split(text));
    FollowPlain([], dir);
    assert [] + dir == dir;
    FollowStaysPlain(dir, Split(text));
    PathWithinIsPrefix(root, Follow(dir, Split(text)));
  }

  method InsertName(names: seq<Path>, p: Path) returns (r: seq<Path>)
    requires Sorted(names) && p !in names && Plain(p) && p != []
    requires forall q :: q in names ==> Plain(q) && q != []
    ensures Sorted(r)
    ensures forall q :: q in r <==> q in names || q == p
  {
    var i := 0;
    while i < |names| && Before(Join(names[i]), Join(p))
      invariant 0 <= i <= |names|
      invariant forall j :: 0 <= j < i ==> Before(Join(names[j]), Join(p))
    {
      i := i + 1;
    }
    r := names[..i] + [p] + names[i..];
    if i < |names| {
      assert names[i] in names;
      JoinInjective(names[i], p);
      BeforeIsStrictTotal(Join(names[i]), Join(p));
      forall j | i < j < |names| ensures Before(Join(p), Join(names[j])) {
        BeforeTransitive(Join(p), Join(names[i]), Join(names[j]));
      }
    }
  }

  /** The walk over the tree in any order, then sorted. */
  method SortedNames(t: Tree) returns (names: seq<Path>)
    requires Grounded(t)
    ensures Sorted(names) && Enumerates(names, t.Keys)
  {
    names := [];
    var rest := t.Keys;
    while rest != {}
      invariant rest <= t.Keys && Sorted(names)
      invariant forall p :: p in names <==> p in t.Keys && p !in rest
      decreases |rest|
    {
      var p :| p in rest;
      names := InsertName(names, p);
      rest := rest - {p};
    }
    SortedDistinct(names);
  }

  lemma SortedDistinct(names: seq<Path>)
    requires Sorted(names)
    ensures forall i, j :: 0 <= i < j < |names| ==> names[i] != names[j]
  {
    forall i, j | 0 <= i < j < |names| ensures names[i] != names[j] {
      BeforeIsStrictTotal(Join(names[i]), Join(names[j]));
    }
  }

  /** The archive is the headers of every entry in byte order; a link that leaves the root by name
      stops the packing. */
  method Pack(t: Tree, root: Path, resolves: set<Path>) returns (r: Result<seq<Entry>, PackError>)
    requires Grounded(t)
    ensures r.Ok? <==> Complete(t, resolves) && LinksStayInside(t, root)
    ensures r.Ok? ==> exists names :: Sorted(names) && Enumerates(names, t.Keys) && r.value == HeadersOf(t, names)
  {
    if !Complete(t, resolves) { return Err(Incomplete); }
    var names := SortedNames(t);
    r := PackNames(t, root, names);
  }

  method PackNames(t: Tree, root: Path, names: seq<Path>) returns (r: Result<seq<Entry>, PackError>)
    requires forall p :: p in names <==> p in t
    ensures r.Ok? <==> LinksStayInside(t, root)
    ensures r.Ok? ==> r.value == HeadersOf(t, names)
    ensures r.Err? ==> r.error == UnsafeSourceLink
  {
    hide SourceLinkSafe, HeaderOf;
    var entries: seq<Entry> := [];
    for i := 0 to |names|
      invariant |entries| == i
      invariant forall j :: 0 <= j < i ==> entries[j] == HeaderOf(names[j], t[names[j]])
      invariant forall j :: 0 <= j < i && t[names[j]].Link? ==> SourceLinkSafe(root, names[j], t[names[j]].text)
    {
      var p := names[i];
      if t[p].Link? && !SourceLinkSafe(root, p, t[p].text) { return Err(UnsafeSourceLink); }
      entries := entries + [HeaderOf(p, t[p])];
    }
    assert entries == HeadersOf(t, names);
    r := Ok(entries);
  }

  // ----- Extract after Pack -----

  /** What survives: kinds, bytes, link texts and whether a file is executable. */
  function Normalized(node: Node): (r: Node) {
    match node
    case Dir(_) => Dir(DIR_MODE)
    case File(bytes, mode) => File(bytes, FileMode(mode))
    case _ => node
  }

  /** Every name and link is one that extraction accepts. */
  ghost predicate NodeSafe(p: Path, node: Node) {
    p != [] && '\\' !in Join(p) && !node.Special? && (node.Link? ==> ArchiveLinkSafe(p, node.text))
  }

  ghost predicate ArchiveSafe(t: Tree) {
    forall p :: p in t ==> NodeSafe(p, t[p])
  }

  lemma NameSurvives(p: Path)
    requires Plain(p) && p != []
    ensures SafeArchivePath(Join(p)) == if '\\' in Join(p) then None else Some(p)
  {
    SplitJoin(p);
    assert p[0] != "" && p[0][0] != '/';
    assert Join(p)[0] == p[0][0];
    SafeNameIffPlain(Join(p));
  }

  /** Extraction so far: part of the normalised tree, with every file and link from its own entry. */
  ghost predicate Partway(t: Tree, done: seq<Path>, u: Tree) {
    && (forall p :: p in u ==> p in t && u[p] == Normalized(t[p]) && (u[p].Dir? || p in done))
    && (forall p :: p in done ==> p in u)
  }

  lemma {:induction false} DirectoriesReturn(t: Tree, done: seq<Path>, u: Tree, p: Path)
    requires Grounded(t) && Partway(t, done, u)
    requires forall k :: 0 < k <= |p| ==> IsDir(t, p[..k])
    ensures EnsureDirectory(u, p).Some?
    ensures Partway(t, done, EnsureDirectory(u, p).value)
    ensures p != [] ==> p in EnsureDirectory(u, p).value
    ensures forall q :: q in EnsureDirectory(u, p).value && q !in u ==> t[q].Dir?
    decreases |p|
  {
    if p != [] {
      var front := p[..|p| - 1];
      assert forall k :: 0 < k <= |front| ==> front[..k] == p[..k];
      assert p[..|p|] == p;
      DirectoriesReturn(t, done, u, front);
    }
  }

  lemma DirectoryReturns(t: Tree, done: seq<Path>, u: Tree, p: Path)
    requires Grounded(t) && Partway(t, done, u) && p in t && t[p].Dir?
    ensures EnsureDirectory(u, p).Some?
    ensures Partway(t, done + [p], EnsureDirectory(u, p).value)
  {
    assert p[..|p|] == p;
    assert forall k :: 0 < k <= |p| ==> IsDir(t, p[..k]);
    DirectoriesReturn(t, done, u, p);
  }

  lemma LeafReturns(t: Tree, done: seq<Path>, u: Tree, p: Path)
    requires Grounded(t) && Partway(t, done, u) && p in t && !t[p].Dir? && p !in done && p != []
    ensures Create(u, p, Normalized(t[p])).Some?
    ensures Partway(t, done + [p], Create(u, p, Normalized(t[p])).value)
  {
    var front := p[..|p| - 1];
    assert forall k :: 0 < k <= |front| ==> front[..k] == p[..k];
    DirectoriesReturn(t, done, u, front);
    assert p !in u;
  }

  lemma EntryReturns(t: Tree, done: seq<Path>, u: Tree, p: Path)
    requires Grounded(t) && Partway(t, done, u) && p in t && p !in done && NodeSafe(p, t[p])
    ensures ExtractEntry(u, HeaderOf(p, t[p])).Some?
    ensures Partway(t, done + [p], ExtractEntry(u, HeaderOf(p, t[p])).value)
  {
    NameSurvives(p);
    if t[p].Dir? { DirectoryReturns(t, done, u, p); } else { LeafReturns(t, done, u, p); }
  }

  ghost predicate Listed(t: Tree, names: seq<Path>) {
    && (forall p :: p in names ==> p in t)
    && (forall i, j :: 0 <= i < j < |names| ==> names[i] != names[j])
  }

  lemma HeadersOfFront(t: Tree, names: seq<Path>)
    requires names != [] && Listed(t, names)
    ensures var n := |names| - 1;
      && Listed(t, names[..n])
      && HeadersOf(t, names)[..n] == HeadersOf(t, names[..n])
      && HeadersOf(t, names)[n] == HeaderOf(names[n], t[names[n]])
      && names[n] !in names[..n]
      && names == names[..n] + [names[n]]
  {
    var n := |names| - 1;
    assert forall p :: p in names[..n] ==> p in names;
  }

  lemma {:induction false} EntriesReturn(t: Tree, names: seq<Path>)
    requires Grounded(t) && ArchiveSafe(t) && Listed(t, names)
    ensures ExtractAll(map[], HeadersOf(t, names)).Some?
    ensures Partway(t, names, ExtractAll(map[], HeadersOf(t, names)).value)
    decreases |names|
  {
    if names != [] {
      var n := |names| - 1;
      HeadersOfFront(t, names);
      EntriesReturn(t, names[..n]);
      EntryReturns(t, names[..n], ExtractAll(map[], HeadersOf(t, names[..n])).value, names[n]);
    }
  }

  lemma UnsafeEntryFails(t: Tree, u: Tree, p: Path)
    requires Grounded(t) && p in t && !NodeSafe(p, t[p])
    ensures ExtractEntry(u, HeaderOf(p, t[p])).None?
  {
    NameSurvives(p);
  }

  lemma {:induction false} UnsafeEntriesFail(t: Tree, names: seq<Path>, p: Path)
    requires Grounded(t) && Listed(t, names) && p in names && !NodeSafe(p, t[p])
    ensures ExtractAll(map[], HeadersOf(t, names)).None?
    decreases |names|
  {
    hide HeaderOf, ExtractEntry, NodeSafe;
    var n := |names| - 1;
    HeadersOfFront(t, names);
    if names[n] != p {
      UnsafeEntriesFail(t, names[..n], p);
    } else if ExtractAll(map[], HeadersOf(t, names[..n])).Some? {
      UnsafeEntryFails(t, ExtractAll(map[], HeadersOf(t, names[..n])).value, p);
    }
  }

  /** Extracting a packed tree succeeds exactly when every name and link is archive-safe, and then
      gives back the tree: same paths, kinds, bytes, link texts and executable bits. The order of
      the entries does not matter. */
  lemma RoundTrip(t: Tree, names: seq<Path>)
    requires Grounded(t) && Enumerates(names, t.Keys)
    ensures ExtractAll(map[], HeadersOf(t, names)).Some? <==> ArchiveSafe(t)
    ensures ArchiveSafe(t) ==>
      ExtractAll(map[], HeadersOf(t, names)) == Some(map p | p in t :: Normalized(t[p]))
  {
    if ArchiveSafe(t) {
      EntriesReturn(t, names);
      var u := ExtractAll(map[], HeadersOf(t, names)).value;
      assert u == map p | p in t :: Normalized(t[p]);
    } else {
      var p :| p in t && !NodeSafe(p, t[p]);
      UnsafeEntriesFail(t, names, p);
    }
  }

  /** The extracted tree, by bits and bytes. */
  lemma RoundTripContents(t: Tree, names: seq<Path>, u: Tree)
    requires Grounded(t) && Enumerates(names, t.Keys) && ExtractAll(map[], HeadersOf(t, names)) == Some(u)
    ensures u.Keys == t.Keys
    ensures forall p :: p in t && t[p].Dir? ==> u[p] == Dir(0x1ed)
    ensures forall p :: p in t && t[p].Link? ==> u[p] == Link(t[p].text)
    ensures forall p :: p in t && t[p].File? ==>
              && u[p].File? && u[p].bytes == t[p].bytes
              && (u[p].mode & 0x049 != 0 <==> t[p].mode & 0x049 != 0)
              && u[p].mode == (if t[p].mode & 0x049 != 0 then 0x1ed else 0x1a4)
    ensures forall p :: p in t ==> !t[p].Special?
  {
    RoundTrip(t, names);
    hide HeadersOf, ExtractAll, Grounded;
  }

  // ----- The two link checks -----

  lemma {:induction false} ClimbStays(stack: Path, cs: Path)
    requires stack != [] && stack[0] == ".."
    ensures Resolve(false, stack, cs) != [] && Resolve(false, stack, cs)[0] == ".."
    decreases |cs|
  {
    if cs != [] {
      if cs[0] == "" || cs[0] == "." {
        ClimbStays(stack, cs[1..]);
      } else if cs[0] != ".." {
        ClimbStays(stack + [cs[0]], cs[1..]);
      } else if stack[|stack| - 1] != ".." {
        ClimbStays(stack[..|stack| - 1], cs[1..]);
      } else {
        ClimbStays(stack + [".."], cs[1..]);
      }
    }
  }

  /** A relative walk that never ends above its start is the same walk from any root. */
  lemma {:induction false} ResolveFromRoot(root: Path, stack: Path, cs: Path)
    requires Plain(root) && Plain(stack) && forall i :: 0 <= i < |cs| ==> '/' !in cs[i]
    requires Resolve(false, stack, cs) == [] || Resolve(false, stack, cs)[0] != ".."
    ensures Resolve(true, root + stack, cs) == root + Resolve(false, stack, cs)
    decreases |cs|
  {
    if cs != [] {
      var all := root + stack;
      if cs[0] == "" || cs[0] == "." {
        ResolveFromRoot(root, stack, cs[1..]);
      } else if cs[0] == ".." && stack == [] {
        ClimbStays(stack + [".."], cs[1..]);
        assert false;
      } else if cs[0] == ".." {
        assert all[|all| - 1] == stack[|stack| - 1] && all[..|all| - 1] == root + stack[..|stack| - 1];
        ResolveFromRoot(root, stack[..|stack| - 1], cs[1..]);
      } else {
        assert all + [cs[0]] == root + (stack + [cs[0]]);
        ResolveFromRoot(root, stack + [cs[0]], cs[1..]);
      }
    }
  }

  /** A link that extraction accepts never stops the packing. */
  lemma ArchiveSafeLinkPacks(root: Path, at: Path, text: string)
    requires Plain(root) && Plain(at) && ArchiveLinkSafe(at, text)
    ensures SourceLinkSafe(root, at, text)
  {
    var cs := Parent(at) + Split(text);
    ResolvePlain(true, [], root);
    ResolveAppends(root, cs);
    ResolveFromRoot(root, [], cs);
    assert root + [] == root;
    var target := Resolve(false, [], cs);
    var ups := ResolveSettles(false, [], cs, 0);
    assert root + Parent(at) + Split(text) == root + cs;
    assert ".." !in root + target;
    PathWithinIsPrefix(root, root + target);
  }

  /** Extraction accepts exactly the links without a backslash that packing accepts under every root:
      those whose text never climbs above the root, wherever the tree stands. */
  lemma ArchiveLinkSafeIff(at: Path, text: string)
    requires Plain(at)
    ensures ArchiveLinkSafe(at, text) <==>
              '\\' !in text && forall root: Path :: Plain(root) && root != [] ==> SourceLinkSafe(root, at, text)
  {
    if ArchiveLinkSafe(at, text) {
      forall root: Path | Plain(root) && root != [] ensures SourceLinkSafe(root, at, text) {
        ArchiveSafeLinkPacks(root, at, text);
      }
    } else if '\\' !in text && forall root: Path :: Plain(root) && root != [] ==> SourceLinkSafe(root, at, text) {
      var target := LinkTarget(at, text);
      var names := Follow([], target);
      var root := if names != [] && names[0] == "a" then ["b"] else ["a"];
      assert Plain(root);
      assert SourceLinkSafe(root, at, text);
      ClimbingLeaves(root, at, text);
    }
  }

  /** From a root of one component, a link that climbs above it ends where it would from the top. */
  lemma ClimbingLeaves(root: Path, at: Path, text: string)
    requires Plain(at) && Plain(root) && |root| == 1
    requires LinkTarget(at, text) != [] && LinkTarget(at, text)[0] == ".."
    requires var names := Follow([], LinkTarget(at, text)); names == [] || names[0] != root[0]
    ensures !PathWithin(root, Resolve(true, [], root + Parent(at) + Split(text)))
  {
    hide PathWithin, Resolve, Split, Parent;
    var cs := Parent(at) + Split(text);
    var target := LinkTarget(at, text);
    assert root + Parent(at) + Split(text) == root + cs;
    assert forall i :: 0 <= i < |cs| ==> '/' !in cs[i] by { ParentIsPlain(at); }
    ResolveFollows([], root + cs);
    FollowAppend([], root, cs);
    FollowPlain([], root);
    assert [] + root == root;
    ResolveKeepsMeaning(root, [], cs, 0);
    ClimbFirst(root, target);
    FollowStaysPlain(root, cs);
    PathWithinIsPrefix(root, Follow(root, cs));
  }

  lemma ParentIsPlain(at: Path)
    requires Plain(at)
    ensures Plain(Parent(at))
  {
  }

  lemma ClimbFirst(root: Path, target: Path)
    requires |root| == 1 && target != [] && target[0] == ".."
    ensures Follow(root, target) == Follow([], target)
  {
    assert Parent(root) == [] == Parent([]);
  }

  lemma {:induction false} ResolveAppends(root: Path, cs: Path)
    requires Plain(root)
    ensures Resolve(true, [], root + cs) == Resolve(true, root, cs)
  {
    ResolveSteps(true, [], root, cs);
    assert [] + root == root;
  }

  lemma {:induction false} ResolveSteps(rooted: bool, stack: Path, plain: Path, cs: Path)
    requires Plain(plain)
    ensures Resolve(rooted, stack, plain + cs) == Resolve(rooted, stack + plain, cs)
    decreases |plain|
  {
    if plain == [] {
      assert plain + cs == cs && stack + plain == stack;
    } else {
      assert (plain + cs)[1..] == plain[1..] + cs;
      assert stack + [plain[0]] + plain[1..] == stack + plain;
      ResolveSteps(rooted, stack + [plain[0]], plain[1..], cs);
    }
  }
}
