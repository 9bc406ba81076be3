/** Bundle entries and what extracting them builds (internal/bundle/bundle.go). The tar and zstd
    layers are the identity on the entry sequence. */
module Archive {
  import opened Json
  import opened Paths

  /** Permission bits of a file or directory. */
  type Mode = bv12

  const DIR_MODE: Mode := 0x1ed    // 0o755
  const EXEC_MODE: Mode := 0x1ed   // 0o755
  const PLAIN_MODE: Mode := 0x1a4  // 0o644

  datatype Node = Dir(mode: Mode) | File(bytes: seq<bv8>, mode: Mode) | Link(text: string) | Special

  /** A tree below its root, by relative path. */
  type Tree = map<Path, Node>

  datatype Kind = DirKind | FileKind | LinkKind | OtherKind

  datatype Entry =
    | Header(name: string, kind: Kind, mode: Mode, link: string, bytes: seq<bv8>)
    | Broken  // the reader fails here

  function Executable(mode: Mode): (r: bool) {
    mode & 0x049 != 0
  }

  function FileMode(mode: Mode): (r: Mode) {
    if Executable(mode) then EXEC_MODE else PLAIN_MODE
  }

  // ----- Names and links -----

  /** The components of a name that extraction accepts. */
  function SafeArchivePath(name: string): (r: Option<Path>)
  {
    if name == "" || '\\' in name || IsAbs(name) then None
    else
      var clean := Clean(name);
      if clean == "." || clean == ".." || "../" <= clean || clean != name then None
      else Some(Split(clean))
  }

  /** A name is accepted exactly when it is relative, free of backslashes and made of plain
      components, and then it stands for those components. */
  lemma SafeNameIffPlain(name: string)
    ensures SafeArchivePath(name).Some? <==> name != "" && !IsAbs(name) && '\\' !in name && Plain(Split(name))
    ensures SafeArchivePath(name).Some? ==> SafeArchivePath(name).value == Split(name) && Plain(Split(name))
  {
    if name != "" && !IsAbs(name) { CleanIffPlain(name); }
  }

  /** Where a link would point, read lexically from the directory of its entry. */
  function LinkTarget(at: Path, text: string): (r: Path) {
    Resolve(false, [], Parent(at) + Split(text))
  }

  predicate ArchiveLinkSafe(at: Path, text: string) {
    text != "" && !IsAbs(text) && '\\' !in text
    && (LinkTarget(at, text) == [] || LinkTarget(at, text)[0] != "..")
  }

  predicate SourceLinkSafe(root: Path, at: Path, text: string) {
    text != "" && !IsAbs(text)
    && PathWithin(root, Resolve(true, [], root + Parent(at) + Split(text)))
  }

  // ----- Building the tree -----

  /** ensureDirectory: every missing directory on the way down is made; anything else is refused. */
  function EnsureDirectory(t: Tree, p: Path): (r: Option<Tree>)
    decreases |p|
  {
    if p == [] then Some(t)
    else match EnsureDirectory(t, p[..|p| - 1])
      case None => None
      case Some(above) =>
        if p !in above then Some(above[p := Dir(DIR_MODE)])
        else if above[p].Dir? then Some(above)
        else None
  }

  function Create(t: Tree, p: Path, node: Node): (r: Option<Tree>)
    requires p != []
  {
    match EnsureDirectory(t, p[..|p| - 1])
    case None => None
    case Some(above) => if p in above then None else Some(above[p := node])
  }

  function ExtractEntry(t: Tree, e: Entry): (r: Option<Tree>) {
    if e.Broken? then None
    else match SafeArchivePath(e.name)
      case None => None
      case Some(p) =>
        match e.kind
        case DirKind => EnsureDirectory(t, p)
        case FileKind => Create(t, p, File(e.bytes, FileMode(e.mode)))
        case LinkKind => if ArchiveLinkSafe(p, e.link) then Create(t, p, Link(e.link)) else None
        case OtherKind => None
  }

  function ExtractAll(t: Tree, entries: seq<Entry>): (r: Option<Tree>)
    decreases |entries|
  {
    if entries == [] then Some(t)
    else match ExtractAll(t, entries[..|entries| - 1])
      case None => None
      case Some(u) => ExtractEntry(u, entries[|entries| - 1])
  }

  // ----- What every entry keeps -----

  /** Every node has a plain path with only real directories above it. */
  ghost predicate Grounded(t: Tree) {
    forall p :: p in t ==> p != [] && Plain(p) && forall k :: 0 < k < |p| ==> IsDir(t, p[..k])
  }

  ghost predicate IsDir(t: Tree, p: Path) {
    p in t && t[p].Dir?
  }

  /** Nothing already there is changed. */
  ghost predicate Extends(t: Tree, u: Tree) {
    forall p :: p in t ==> p in u && u[p] == t[p]
  }

  lemma {:induction false} EnsureDirectoryKeeps(t: Tree, p: Path, u: Tree)
    requires Grounded(t) && Plain(p) && EnsureDirectory(t, p) == Some(u)
    ensures Grounded(u) && Extends(t, u)
    ensures forall k :: 0 < k <= |p| ==> IsDir(u, p[..k])
    ensures forall q :: q in u && q !in t ==> q <= p && u[q] == Dir(DIR_MODE)
    decreases |p|
  {
    if p != [] {
      var front := p[..|p| - 1];
      var above := EnsureDirectory(t, front).value;
      EnsureDirectoryKeeps(t, front, above);
      assert forall k :: 0 < k < |p| ==> p[..k] == front[..k];
      assert p[..|p|] == p;
    }
  }

  lemma CreateKeeps(t: Tree, p: Path, node: Node, u: Tree)
    requires Grounded(t) && p != [] && Plain(p) && Create(t, p, node) == Some(u)
    ensures Grounded(u) && Extends(t, u) && p !in t && p in u && u[p] == node
    ensures forall q :: q in u && q !in t && q != p ==> q <= p && u[q] == Dir(DIR_MODE)
  {
    var front := p[..|p| - 1];
    var above := EnsureDirectory(t, front).value;
    EnsureDirectoryKeeps(t, front, above);
    assert forall k :: 0 < k < |p| ==> p[..k] == front[..k];
  }

  /** What one entry stands for once it is written. */
  ghost predicate Written(u: Tree, e: Entry) {
    && e.Header?
    && Split(e.name) in u
    && match e.kind
       case DirKind => u[Split(e.name)].Dir?
       case FileKind => u[Split(e.name)] == File(e.bytes, if e.mode & 0x049 != 0 then 0x1ed else 0x1a4)
       case LinkKind => u[Split(e.name)] == Link(e.link)
       case OtherKind => false
  }

  /** One entry writes its own node at its own name, adds at most directories above it, changes
      nothing and leaves every node on real directories. */
  lemma ExtractEntryKeeps(t: Tree, e: Entry, u: Tree)
    requires Grounded(t) && ExtractEntry(t, e) == Some(u)
    ensures Grounded(u) && Extends(t, u) && Written(u, e)
    ensures forall q :: q in u && q !in t && q != Split(e.name) ==> q <= Split(e.name) && u[q] == Dir(DIR_MODE)
    ensures Split(e.name) in t ==> e.kind.DirKind? && t[Split(e.name)].Dir?
    ensures e.kind.DirKind? && Split(e.name) !in t ==> u[Split(e.name)] == Dir(0x1ed)
    ensures e.kind.FileKind? ==>
              && u[Split(e.name)].File? && u[Split(e.name)].bytes == e.bytes
              && u[Split(e.name)].mode == (if e.mode & 0x049 != 0 then 0x1ed else 0x1a4)
    ensures e.kind.LinkKind? ==> u[Split(e.name)] == Link(e.link)
  {
    SafeNameIffPlain(e.name);
    var p := Split(e.name);
    match e.kind
    case DirKind =>
      EnsureDirectoryKeeps(t, p, u);
      assert p[..|p|] == p;
    case FileKind => CreateKeeps(t, p, File(e.bytes, FileMode(e.mode)), u);
    case LinkKind => CreateKeeps(t, p, Link(e.link), u);
  }

  lemma WrittenStays(u: Tree, v: Tree, e: Entry)
    requires Extends(u, v) && Written(u, e)
    ensures Written(v, e)
  {
  }

  lemma {:induction false} EnsureDirectoryIff(t: Tree, p: Path)
    ensures EnsureDirectory(t, p).Some? <==> forall k :: 0 < k <= |p| && p[..k] in t ==> t[p[..k]].Dir?
    ensures EnsureDirectory(t, p).Some? ==>
              && (forall q :: q in t ==> q in EnsureDirectory(t, p).value && EnsureDirectory(t, p).value[q] == t[q])
              && (forall q :: q in EnsureDirectory(t, p).value && q !in t ==> |q| <= |p| && q == p[..|q|])
    decreases |p|
  {
    if p != [] {
      var front := p[..|p| - 1];
      EnsureDirectoryIff(t, front);
      assert forall k :: 0 < k < |p| ==> front[..k] == p[..k];
      assert p[..|p|] == p;
      if forall k :: 0 < k <= |p| && p[..k] in t ==> t[p[..k]].Dir? {
        forall k | 0 < k <= |front| && front[..k] in t ensures t[front[..k]].Dir? {
          assert p[..k] in t;
        }
      }
    }
  }

  /** An entry is extracted exactly when its name is safe, its kind known, its link safe, nothing but
      directories is above it, and its own place is free or, for a directory, a directory. */
  lemma ExtractEntryIff(t: Tree, e: Entry)
    ensures ExtractEntry(t, e).Some? <==>
              && e.Header? && SafeArchivePath(e.name).Some? && !e.kind.OtherKind?
              && (e.kind.LinkKind? ==> ArchiveLinkSafe(Split(e.name), e.link))
              && (forall k :: 0 < k < |Split(e.name)| && Split(e.name)[..k] in t ==> t[Split(e.name)[..k]].Dir?)
              && (Split(e.name) in t ==> e.kind.DirKind? && t[Split(e.name)].Dir?)
  {
    hide SafeArchivePath, ArchiveLinkSafe, Create, EnsureDirectory;
    if e.Header? && SafeArchivePath(e.name).Some? {
      SafeNameIffPlain(e.name);
      var p := Split(e.name);
      EnsureDirectoryIff(t, p);
      CreateIff(t, p, File(e.bytes, FileMode(e.mode)));
      CreateIff(t, p, Link(e.link));
      assert p[..|p|] == p;
    }
  }

  lemma CreateIff(t: Tree, p: Path, node: Node)
    requires p != []
    ensures Create(t, p, node).Some? <==> p !in t && forall k :: 0 < k < |p| && p[..k] in t ==> t[p[..k]].Dir?
  {
    hide EnsureDirectory;
    var front := p[..|p| - 1];
    EnsureDirectoryIff(t, front);
    assert forall k :: 0 < k < |p| ==> front[..k] == p[..k];
    if forall k :: 0 < k < |p| && p[..k] in t ==> t[p[..k]].Dir? {
      forall k | 0 < k <= |front| && front[..k] in t ensures t[front[..k]].Dir? {
        assert p[..k] in t;
      }
    }
  }

  /** Extraction of a whole archive keeps what was there and grounds every node. */
  lemma {:induction false} ExtractAllGrounded(t: Tree, entries: seq<Entry>, u: Tree)
    requires Grounded(t) && ExtractAll(t, entries) == Some(u)
    ensures Grounded(u) && Extends(t, u)
    decreases |entries|
  {
    if entries != [] {
      var before := ExtractAll(t, entries[..|entries| - 1]).value;
      ExtractAllGrounded(t, entries[..|entries| - 1], before);
      ExtractEntryKeeps(before, entries[|entries| - 1], u);
    }
  }

  /** Every prefix of an archive that extracts has extracted, and nothing it wrote is overwritten. */
  lemma {:induction false} PrefixExtracted(t: Tree, entries: seq<Entry>, k: nat, u: Tree)
    requires Grounded(t) && k <= |entries| && ExtractAll(t, entries) == Some(u)
    ensures ExtractAll(t, entries[..k]).Some?
    ensures Extends(ExtractAll(t, entries[..k]).value, u)
    decreases |entries|
  {
    if k == |entries| {
      assert entries[..k] == entries;
    } else {
      var front := entries[..|entries| - 1];
      var before := ExtractAll(t, front).value;
      PrefixExtracted(t, front, k, before);
      assert front[..k] == entries[..k];
      ExtractAllGrounded(t, front, before);
      ExtractEntryKeeps(before, entries[|entries| - 1], u);
    }
  }

  /** Every entry of an archive that extracts stands in the result, at its own name. */
  lemma EntryExtracted(t: Tree, entries: seq<Entry>, i: nat, u: Tree)
    requires Grounded(t) && i < |entries| && ExtractAll(t, entries) == Some(u)
    ensures Written(u, entries[i])
  {
    PrefixExtracted(t, entries, i + 1, u);
    var upTo := entries[..i + 1];
    assert upTo[..|upTo| - 1] == entries[..i] && upTo[|upTo| - 1] == entries[i];
    PrefixExtracted(t, entries, i, u);
    var before, after := ExtractAll(t, entries[..i]).value, ExtractAll(t, upTo).value;
    ExtractAllGrounded(t, entries[..i], before);
    ExtractEntryKeeps(before, entries[i], after);
    WrittenStays(after, u, entries[i]);
  }

  /** Nothing else stands there: every new node is an entry's own or a directory above one. */
  lemma {:induction false} NodeHasEntry(t: Tree, entries: seq<Entry>, u: Tree, q: Path) returns (i: nat)
    requires Grounded(t) && ExtractAll(t, entries) == Some(u) && q in u && q !in t
    ensures i < |entries| && entries[i].Header?
    ensures q == Split(entries[i].name) || (q <= Split(entries[i].name) && u[q] == Dir(DIR_MODE))
    decreases |entries|
  {
    var front := entries[..|entries| - 1];
    var before := ExtractAll(t, front).value;
    ExtractAllGrounded(t, front, before);
    ExtractEntryKeeps(before, entries[|entries| - 1], u);
    if q in before {
      i := NodeHasEntry(t, front, before, q);
      assert front[i] == entries[i];
    } else {
      i := |entries| - 1;
    }
  }
}
