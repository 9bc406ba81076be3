/** Extraction as the source runs it, on a whole disk. */
module ArchiveExtract {
  import opened Json
  import opened Paths
  import opened Archive

  /** The disk is the base plus a tree mounted below the destination directory. */
  ghost predicate Mounted(nodes: Tree, base: Tree, d: Path, t: Tree) {
    && (forall q :: !(d < q) ==> (q in nodes <==> q in base) && (q in nodes ==> nodes[q] == base[q]))
    && (forall r :: r != [] ==> (d + r in nodes <==> r in t) && (r in t ==> nodes[d + r] == t[r]))
    && [] !in t
  }

  lemma PrefixIsSlice(d: Path, q: Path)
    ensures d <= q <==> |d| <= |q| && q[..|d|] == d
    ensures d <= q && |d| == |q| ==> d == q
  {
    assert q[..|q|] == q;
  }

  lemma NothingBelow(nodes: Tree, d: Path)
    requires d != [] && d !in nodes
    requires forall q, k :: q in nodes && 0 < k < |q| ==> IsDir(nodes, q[..k])
    ensures forall q :: q in nodes ==> !(d <= q)
  {
    forall q | q in nodes ensures !(d <= q) {
      PrefixIsSlice(d, q);
      assert |d| < |q| ==> IsDir(nodes, q[..|d|]);
    }
  }

  lemma MountedAt(nodes: Tree, base: Tree, d: Path, t: Tree, r: Path)
    requires Mounted(nodes, base, d, t) && r != []
    ensures d + r in nodes <==> r in t
    ensures r in t ==> nodes[d + r] == t[r]
  {
  }

  lemma MountedGrows(nodes: Tree, base: Tree, d: Path, t: Tree, p: Path, node: Node)
    requires Mounted(nodes, base, d, t) && p != []
    ensures Mounted(nodes[d + p := node], base, d, t[p := node])
  {
    assert forall r :: d + r == d + p <==> r == p by {
      forall r ensures d + r == d + p <==> r == p {
        assert (d + r)[|d|..] == r && (d + p)[|d|..] == p;
      }
    }
  }

  class Disk {
    var nodes: Tree

    constructor (nodes: Tree)
      ensures this.nodes == nodes
    {
      this.nodes := nodes;
    }

    method EnsureDirectory(d: Path, p: Path, ghost base: Tree, ghost t: Tree) returns (ok: bool, ghost u: Tree)
      requires Mounted(nodes, base, d, t)
      modifies this
      ensures Mounted(nodes, base, d, u)
      ensures ok <==> Archive.EnsureDirectory(t, p).Some?
      ensures ok ==> Archive.EnsureDirectory(t, p) == Some(u)
    {
      hide Mounted;
      u := t;
      var current := d;
      assert d + p[..0] == d;
      for k := 0 to |p|
        invariant current == d + p[..k]
        invariant Mounted(nodes, base, d, u)
        invariant Archive.EnsureDirectory(t, p[..k]) == Some(u)
      {
        assert p[..k + 1][..k] == p[..k] && d + p[..k] + [p[k]] == d + p[..k + 1];
        current := current + [p[k]];
        MountedAt(nodes, base, d, u, p[..k + 1]);
        if current !in nodes {
          MountedGrows(nodes, base, d, u, p[..k + 1], Dir(DIR_MODE));
          nodes := nodes[current := Dir(DIR_MODE)];
          u := u[p[..k + 1] := Dir(DIR_MODE)];
        } else if !nodes[current].Dir? {
          EnsureFails(t, p, k + 1);
          return false, u;
        }
      }
      assert p[..|p|] == p;
      ok := true;
    }

    method CreateAt(d: Path, p: Path, node: Node, ghost base: Tree, ghost t: Tree) returns (ok: bool, ghost u: Tree)
      requires p != [] && Mounted(nodes, base, d, t)
      modifies this
      ensures Mounted(nodes, base, d, u)
      ensures ok <==> Create(t, p, node).Some?
      ensures ok ==> Create(t, p, node) == Some(u)
    {
      ok, u := EnsureDirectory(d, p[..|p| - 1], base, t);
      if !ok { return; }
      var target := d + p;
      if target in nodes { return false, u; }
      MountedGrows(nodes, base, d, u, p, node);
      nodes := nodes[target := node];
      u := u[p := node];
    }

    method ExtractOne(d: Path, e: Entry, ghost base: Tree, ghost t: Tree) returns (ok: bool, ghost u: Tree)
      requires Mounted(nodes, base, d, t)
      modifies this
      ensures Mounted(nodes, base, d, u)
      ensures ok <==> ExtractEntry(t, e).Some?
      ensures ok ==> ExtractEntry(t, e) == Some(u)
    {
      if e.Broken? { return false, t; }
      var relative := SafeArchivePath(e.name);
      if relative.None? { return false, t; }
      match e.kind
      case DirKind => ok, u := EnsureDirectory(d, relative.value, base, t);
      case FileKind => ok, u := CreateAt(d, relative.value, File(e.bytes, FileMode(e.mode)), base, t);
      case LinkKind =>
        if !ArchiveLinkSafe(relative.value, e.link) { return false, t; }
        ok, u := CreateAt(d, relative.value, Link(e.link), base, t);
      case OtherKind => ok, u := false, t;
    }

    /** A failed extraction leaves nothing at the destination; a successful one leaves exactly the
        extracted tree; and either way nothing outside the destination changes, except that missing
        directories above it are made. The destination d is a physical path: a link above it is in
        the way. */
    method Extract(entries: seq<Entry>, d: Path) returns (ok: bool)
      requires d != []
      requires forall q, k :: q in nodes && 0 < k < |q| ==> IsDir(nodes, q[..k])
      modifies this
      ensures ok <==> && d !in old(nodes)
                      && (forall k :: 0 < k < |d| && d[..k] in old(nodes) ==> old(nodes)[d[..k]].Dir?)
                      && ExtractAll(map[], entries).Some?
      ensures forall q :: q in old(nodes) ==> q in nodes && nodes[q] == old(nodes)[q]
      ensures forall q :: q in nodes && q !in old(nodes) ==> d < q || (q <= d && nodes[q] == Dir(0x1c0))
      ensures ok ==> d in nodes
      ensures !ok && d !in old(nodes) ==> forall q :: d <= q ==> q !in nodes
      ensures ok ==> forall r: Path :: r != [] ==>
                && (d + r in nodes <==> r in ExtractAll(map[], entries).value)
                && (d + r in nodes ==> nodes[d + r] == ExtractAll(map[], entries).value[r])
    {
      if d in nodes { return false; }
      NothingBelow(nodes, d);
      for k := 1 to |d|
        invariant forall j :: 0 < j < k && d[..j] in nodes ==> nodes[d[..j]].Dir?
        invariant nodes == old(nodes)
      {
        if d[..k] in nodes && !nodes[d[..k]].Dir? { return false; }
      }
      nodes := WithDirectories(nodes, d, Dir(0x1c0));
      ghost var base, t := nodes, map[];
      assert Mounted(nodes, base, d, t) by {
        forall r: Path | r != [] ensures d + r !in nodes { assert d < d + r; }
      }
      for index := 0 to |entries|
        invariant Mounted(nodes, base, d, t)
        invariant ExtractAll(map[], entries[..index]) == Some(t)
      {
        assert entries[..index + 1][..index] == entries[..index];
        ok, t := ExtractOne(d, entries[index], base, t);
        if !ok {
          ExtractFails(entries, index + 1);
          nodes := map q | q in nodes && !(d <= q) :: nodes[q];
          return;
        }
      }
      assert entries[..|entries|] == entries;
      ok := true;
    }
  }

  lemma {:induction false} EnsureFails(t: Tree, p: Path, k: nat)
    requires k <= |p| && Archive.EnsureDirectory(t, p[..k]).None?
    ensures Archive.EnsureDirectory(t, p).None?
    decreases |p|
  {
    if k == |p| {
      assert p[..k] == p;
    } else {
      assert p[..|p| - 1][..k] == p[..k];
      EnsureFails(t, p[..|p| - 1], k);
    }
  }

  lemma {:induction false} ExtractFails(entries: seq<Entry>, k: nat)
    requires k <= |entries| && ExtractAll(map[], entries[..k]).None?
    ensures ExtractAll(map[], entries).None?
    decreases |entries|
  {
    if k == |entries| {
      assert entries[..k] == entries;
    } else {
      assert entries[..|entries| - 1][..k] == entries[..k];
      ExtractFails(entries[..|entries| - 1], k);
    }
  }
}
