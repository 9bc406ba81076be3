/** The recursive copy as the source runs it (internal/packager/packager.go): it marks the
    directories it is inside of and writes the destination entry by entry. */
module TreeCopy {
  import opened Json
  import opened Paths
  import opened LinkGraph

  type Written = map<Path, Item>

  /** Nothing at or below the path yet, and no ancestor that is not a directory. */
  ghost predicate Clear(w: Written, p: Path) {
    && p != []
    && (forall q :: q in w ==> !(p <= q))
    && (forall q :: q in w && AtOrAbove(q, Parent(p)) ==> w[q].DirItem?)
  }

  /** At and below the path stands exactly this tree. */
  ghost predicate Placed(w: Written, p: Path, t: Tree) {
    forall q :: p <= q ==>
      && (q in w <==> Lookup(t, q[|p|..]).Some?)
      && (q in w ==> Lookup(t, q[|p|..]) == Some(w[q]))
  }

  /** Nothing that was there is changed, and what is new lies below the path or is a directory above it. */
  ghost predicate OnlyAdds(before: Written, after: Written, p: Path) {
    && (forall q :: q in before ==> q in after && after[q] == before[q])
    && (forall q :: q in after && q !in before ==> p <= q || (AtOrAbove(q, p) && after[q].DirItem?))
  }

  ghost predicate DirsAbove(w: Written, p: Path) {
    forall q :: AtOrAbove(q, p) ==> q in w && w[q].DirItem?
  }

  lemma OnlyAddsMore(a: Written, b: Written, c: Written, p: Path)
    requires OnlyAdds(a, b, p) && OnlyAdds(b, c, p)
    ensures OnlyAdds(a, c, p)
  {
  }

  lemma OnlyAddsTwice(a: Written, b: Written, c: Written, p: Path, name: string)
    requires OnlyAdds(a, b, p) && OnlyAdds(b, c, p + [name])
    ensures OnlyAdds(a, c, p)
    ensures DirsAbove(b, p) ==> DirsAbove(c, p)
  {
    forall q | q in c && q !in a ensures p <= q || (AtOrAbove(q, p) && c[q].DirItem?) {
      if AtOrAbove(q, p + [name]) && q != p + [name] { assert q == (p + [name])[..|q|] == p[..|q|]; }
    }
  }

  lemma LeafPlaced(w: Written, p: Path, item: Item)
    requires forall q :: q in w ==> !(p <= q)
    requires !item.DirItem?
    ensures Placed(w[p := item], p, Leaf(item))
  {
    forall q | p <= q ensures q == p <==> q[|p|..] == [] {
      assert q == p + q[|p|..];
    }
  }

  lemma EmptyBranchPlaced(w: Written, p: Path, mode: nat)
    requires Clear(w, p)
    ensures Placed(WithDirectories(w, p, DirItem(mode)), p, Branch(mode, map[]))
  {
    var made := WithDirectories(w, p, DirItem(mode));
    forall q | p <= q ensures q in made <==> q[|p|..] == [] {
      assert q == p + q[|p|..];
    }
  }

  lemma NextChildClear(w: Written, p: Path, mode: nat, children: map<string, Tree>, name: string)
    requires Placed(w, p, Branch(mode, children)) && name !in children
    requires DirsAbove(w, p)
    ensures Clear(w, p + [name])
  {
    forall q | q in w ensures !(p + [name] <= q) {
      if p <= q && q != p { assert q[|p|..][0] == q[|p|]; }
    }
    assert Parent(p + [name]) == p;
  }

  lemma ChildPlaced(before: Written, after: Written, p: Path, mode: nat, children: map<string, Tree>, name: string, t: Tree)
    requires Placed(before, p, Branch(mode, children)) && OnlyAdds(before, after, p + [name])
    requires Placed(after, p + [name], t) && DirsAbove(before, p)
    ensures Placed(after, p, Branch(mode, children[name := t]))
  {
    var whole := Branch(mode, children[name := t]);
    forall q | p <= q
      ensures (q in after <==> Lookup(whole, q[|p|..]).Some?) && (q in after ==> Lookup(whole, q[|p|..]) == Some(after[q]))
    {
      if p + [name] <= q {
        assert q[|p|..][0] == name && q[|p|..][1..] == q[|p + [name]|..];
      } else if q != p {
        assert q[|p|..][0] == q[|p|];
        assert q[..|p| + 1] == p + [q[|p|]];
        assert !(q <= p + [name]);
        assert q in after <==> q in before;
      }
    }
  }

  class Copier {
    const fs: FileSystem
    const policy: Policy
    var active: set<Path>
    var written: Written

    constructor (fs: FileSystem, policy: Policy, written: Written)
      ensures this.fs == fs && this.policy == policy && this.written == written && active == {}
    {
      this.fs, this.policy, this.written, active := fs, policy, written, {};
    }

    method MkdirAll(p: Path, mode: nat) returns (ok: bool)
      modifies this`written
      ensures ok <==> forall q :: q in old(written) && AtOrAbove(q, p) ==> old(written)[q].DirItem?
      ensures written == if ok then WithDirectories(old(written), p, DirItem(mode)) else old(written)
    {
      var k := 1;
      while k <= |p|
        invariant 1 <= k <= |p| + 1
        invariant forall j :: 0 < j < k && p[..j] in written ==> written[p[..j]].DirItem?
        invariant written == old(written)
      {
        if p[..k] in written && !written[p[..k]].DirItem? { return false; }
        k := k + 1;
      }
      assert forall q :: AtOrAbove(q, p) ==> q == p[..|q|];
      written := WithDirectories(written, p, DirItem(mode));
      ok := true;
    }

    /** An existing entry at the destination is never overwritten. */
    method CreateLeaf(destination: Path, item: Item) returns (error: Option<CopyError>)
      requires !item.DirItem?
      modifies this`written
      ensures OnlyAdds(old(written), written, destination)
      ensures old(Clear(written, destination)) ==> error.None? && Placed(written, destination, Leaf(item))
    {
      var ok := MkdirAll(Parent(destination), 0x1ed);
      if !ok || destination in written { return Some(Conflict); }
      ghost var parents := written;
      written := written[destination := item];
      if old(Clear(written, destination)) { LeafPlaced(parents, destination, item); }
      error := None;
    }
  
    /** Links are followed or kept, directories are copied once on every path to them, and the set
        of directories being copied is the same on every exit as on entry. */
    method CopyTreeEntry(at: Path, source: Path, destination: Path) returns (error: Option<CopyError>)
      requires WellFormed(fs)
      modifies this
      ensures active == old(active)
      ensures OnlyAdds(old(written), written, destination)
      ensures old(Clear(written, destination)) ==>
                Copied(Plan(fs, policy, at, source, active), written, destination, error)
      decreases |Directories(fs) - active|, 3, 0
    {
      if at !in fs { return Some(Missing); }
      match fs[at]
      case Link(text, resolved) =>
        if policy.dereference {
          error := CopyDereferencedEntry(at, source, destination);
        } else if text == "" || IsAbs(text) {
          error := Some(UnsafeLink);
        } else if !PathWithin(policy.root, LinkPath(source, text)) {
          error := Some(EscapesRoot);
        } else if resolved.None? {
          error := Some(Unresolved);
        } else if !AllowedPath(policy.physicalRoot, None, resolved.value) {
          error := Some(Outside);
        } else {
          error := CreateLeaf(destination, LinkItem(text));
        }
      case Dir(mode, entries) =>
        if !AllowedPath(policy.physicalRoot, policy.repository, at) { return Some(Outside); }
        error := CopyDirectory(at, source, destination);
      case File(mode, bytes) =>
        error := CreateLeaf(destination, FileItem(mode, bytes));
      case Junction(resolved) =>
        if policy.dereference && resolved.Some? && resolved.value in fs
           && (fs[resolved.value].Dir? || fs[resolved.value].File?) {
          error := CopyDereferencedEntry(at, source, destination);
        } else {
          error := Some(Unsupported);
        }
    }

    method CopyDereferencedEntry(at: Path, source: Path, destination: Path) returns (error: Option<CopyError>)
      requires WellFormed(fs) && policy.dereference && at in fs
      requires fs[at].Link? || (fs[at].Junction? && fs[at].resolved.Some? && fs[at].resolved.value in fs
                                && (fs[fs[at].resolved.value].Dir? || fs[fs[at].resolved.value].File?))
      modifies this
      ensures active == old(active)
      ensures OnlyAdds(old(written), written, destination)
      ensures old(Clear(written, destination)) ==>
                Copied(Plan(fs, policy, at, source, active), written, destination, error)
      decreases |Directories(fs) - active|, 2
    {
      var resolved := fs[at].resolved;
      if resolved.None? { return Some(Unresolved); }
      var physical := resolved.value;
      if !AllowedPath(policy.physicalRoot, policy.repository, physical) { return Some(Outside); }
      match fs[physical]
      case Dir(_, _) => error := CopyDirectory(physical, source, destination);
      case File(mode, bytes) => error := CreateLeaf(destination, FileItem(mode, bytes));
      case _ => error := Some(Unsupported);
    }

    method CopyDirectory(dir: Path, source: Path, destination: Path) returns (error: Option<CopyError>)
      requires WellFormed(fs) && dir in fs && fs[dir].Dir?
      modifies this
      ensures active == old(active)
      ensures OnlyAdds(old(written), written, destination)
      ensures old(Clear(written, destination)) ==>
                Copied(PlanDirectory(fs, policy, dir, source, active), written, destination, error)
      decreases |Directories(fs) - active|, 1
    {
      if dir in active { return Some(Cycle); }
      active := active + {dir};
      assert Directories(fs) - active == Directories(fs) - old(active) - {dir};
      ghost var clear := Clear(written, destination);
      var mode, entries := fs[dir].mode, fs[dir].entries;
      var ok := MkdirAll(destination, mode);
      if !ok {
        active := active - {dir};
        return Some(Conflict);
      }
      if clear { EmptyBranchPlaced(old(written), destination, mode); }
      error := CopyEntries(dir, source, destination);
      active := active - {dir};
    }

    /** The loop over the entries of a directory that has just been created. */
    method CopyEntries(dir: Path, source: Path, destination: Path) returns (error: Option<CopyError>)
      requires WellFormed(fs) && dir in fs && fs[dir].Dir? && DirsAbove(written, destination)
      modifies this
      ensures active == old(active)
      ensures OnlyAdds(old(written), written, destination)
      ensures old(Placed(written, destination, Branch(fs[dir].mode, map[]))) ==>
                EntriesCopied(fs, policy, dir, source, active, |fs[dir].entries|, written, destination, error)
      decreases |Directories(fs) - active|, 4
    {
      ghost var clear := Placed(written, destination, Branch(fs[dir].mode, map[]));
      var entries := fs[dir].entries;
      error := None;
      for index := 0 to |entries|
        invariant active == old(active) && DirsAbove(written, destination)
        invariant OnlyAdds(old(written), written, destination)
        invariant clear ==> EntriesCopied(fs, policy, dir, source, active, index, written, destination, None)
      {
        ghost var before := written;
        error := CopyNextEntry(dir, source, destination, index);
        OnlyAddsMore(old(written), before, written, destination);
        if error.Some? { return; }
      }
      error := None;
    }

    method CopyNextEntry(dir: Path, source: Path, destination: Path, index: nat) returns (error: Option<CopyError>)
      requires WellFormed(fs) && dir in fs && fs[dir].Dir? && index < |fs[dir].entries| && DirsAbove(written, destination)
      modifies this
      ensures active == old(active) && DirsAbove(written, destination)
      ensures OnlyAdds(old(written), written, destination)
      ensures old(EntriesCopied(fs, policy, dir, source, active, index, written, destination, None)) ==>
                EntriesCopied(fs, policy, dir, source, active, if error.None? then index + 1 else |fs[dir].entries|,
                              written, destination, error)
      decreases |Directories(fs) - active|, 3, 1
    {
      var name := fs[dir].entries[index];
      ghost var clear := EntriesCopied(fs, policy, dir, source, active, index, written, destination, None);
      if clear { NextEntryClear(fs, policy, dir, source, active, index, written, destination); }
      error := CopyTreeEntry(dir + [name], source + [name], destination + [name]);
      OnlyAddsTwice(old(written), old(written), written, destination, name);
      if clear { EntryCopied(fs, policy, dir, source, active, index, old(written), written, destination, error); }
    }
  }

  /** The first n entries have been copied, or one of the directory's entries decided the error. */
  ghost predicate EntriesCopied(
    fs: FileSystem, policy: Policy, dir: Path, source: Path, active: set<Path>, n: nat,
    w: Written, p: Path, error: Option<CopyError>)
    requires dir in fs && fs[dir].Dir? && n <= |fs[dir].entries|
  {
    match PlanEntries(fs, policy, dir, source, active, n)
    case Err(e) => error == Some(e)
    case Ok(children) => error == None && Placed(w, p, Branch(fs[dir].mode, children))
  }

  lemma NextEntryClear(
    fs: FileSystem, policy: Policy, dir: Path, source: Path, active: set<Path>, n: nat, w: Written, p: Path)
    requires WellFormed(fs) && dir in fs && fs[dir].Dir? && n < |fs[dir].entries| && DirsAbove(w, p)
    requires EntriesCopied(fs, policy, dir, source, active, n, w, p, None)
    ensures Clear(w, p + [fs[dir].entries[n]])
  {
    var children := PlanEntries(fs, policy, dir, source, active, n).value;
    EntryIsNew(fs, policy, dir, source, active, n, children);
    NextChildClear(w, p, fs[dir].mode, children, fs[dir].entries[n]);
  }

  lemma EntryCopied(
    fs: FileSystem, policy: Policy, dir: Path, source: Path, active: set<Path>, n: nat,
    before: Written, after: Written, p: Path, error: Option<CopyError>)
    requires dir in fs && fs[dir].Dir? && n < |fs[dir].entries| && DirsAbove(before, p)
    requires EntriesCopied(fs, policy, dir, source, active, n, before, p, None)
    requires OnlyAdds(before, after, p + [fs[dir].entries[n]])
    requires var name := fs[dir].entries[n];
      Copied(Plan(fs, policy, dir + [name], source + [name], active), after, p + [name], error)
    ensures error.None? ==> EntriesCopied(fs, policy, dir, source, active, n + 1, after, p, None)
    ensures error.Some? ==> EntriesCopied(fs, policy, dir, source, active, |fs[dir].entries|, after, p, error)
  {
    var name := fs[dir].entries[n];
    var children := PlanEntries(fs, policy, dir, source, active, n).value;
    if error.Some? {
      EntryDecides(fs, policy, dir, source, active, n + 1, |fs[dir].entries|, error.value);
    } else {
      var t := Plan(fs, policy, dir + [name], source + [name], active).value;
      ChildPlaced(before, after, p, fs[dir].mode, children, name, t);
    }
  }

  /** The outcome of a copy onto a clear destination is the outcome of the plan. */
  ghost predicate Copied(plan: Result<Tree, CopyError>, w: Written, p: Path, error: Option<CopyError>) {
    match plan
    case Err(e) => error == Some(e)
    case Ok(t) => error == None && Placed(w, p, t)
  }

  /** A whole copy: the entry at which the named root stands is resolved to the physical root, and
      copied from there with no directory active. */
  method CopyTree(fs: FileSystem, at: Path, root: Path, destination: Path, dereference: bool, repository: Option<Path>, before: Written)
    returns (error: Option<CopyError>, after: Written)
    requires WellFormed(fs)
    ensures OnlyAdds(before, after, destination)
    ensures Clear(before, destination) && error.None? ==>
              forall names: Path ::
                && (destination + names in after <==> RootReached(fs, dereference, at, names).Some?)
                && (destination + names in after ==>
                      RootReached(fs, dereference, at, names) == Some(after[destination + names]))
    ensures Clear(before, destination) && error.None? ==>
              forall names: Path, p: Path :: Walk(fs, dereference, at, names) == Some(p) && p in fs ==>
                && destination + names in after
                && (fs[p].File? ==> after[destination + names] == FileItem(fs[p].mode, fs[p].bytes))
                && (fs[p].Dir? ==> after[destination + names] == DirItem(fs[p].mode))
                && (fs[p].Link? ==> after[destination + names] == LinkItem(fs[p].text))
                && !fs[p].Junction?
    ensures Clear(before, destination) && at in fs && Target(fs, true, at).Some? ==>
              (error.Some? <==>
                 || Cyclic(fs, dereference, at)
                 || Troubled(fs, Policy(root, Target(fs, true, at).value, repository, dereference), at, root))
    ensures at !in fs || Target(fs, true, at).None? ==> error.Some? && after == before
    ensures Clear(before, destination) && error.None? && (dereference || (at in fs && !fs[at].Link?)) ==>
              && Target(fs, true, at).Some?
              && forall names: Path :: Walk(fs, dereference, at, names).Some? ==>
                   InsideBoundary(Target(fs, true, at).value, repository, Walk(fs, dereference, at, names).value)
    ensures at in fs && Target(fs, true, at).Some? && Clear(before, destination)
            && Untroubled(fs, Policy(root, Target(fs, true, at).value, repository, dereference), at, root) ==>
              && (error.Some? <==> Cyclic(fs, dereference, at))
              && (error.Some? ==> error.value == Cycle)
  {
    after := before;
    if at !in fs { return Some(Missing), before; }
    var physical := Target(fs, true, at);
    if physical.None? { return Some(Unresolved), before; }
    var policy := Policy(root, physical.value, repository, dereference);
    var copier := new Copier(fs, policy, before);
    error := copier.CopyTreeEntry(at, root, destination);
    after := copier.written;
    hide Plan, Placed, Clear, Material, Cyclic, Troubled, Untroubled, Walk, InsideBoundary, OnlyAdds;
    CopyFailsIff(fs, policy, at, root);
    if Untroubled(fs, policy, at, root) { CycleErrorIffCyclic(fs, policy, at, root); }
    if Clear(before, destination) && error.None? {
      CopyHolds(fs, policy, at, after, destination);
      if dereference || !fs[at].Link? { CopyInside(fs, policy, at); }
    }
  }

  lemma CopyHolds(fs: FileSystem, policy: Policy, at: Path, w: Written, p: Path)
    requires Copied(Plan(fs, policy, at, policy.root, {}), w, p, None)
    ensures forall names: Path ::
              && (p + names in w <==> RootReached(fs, policy.dereference, at, names).Some?)
              && (p + names in w ==> RootReached(fs, policy.dereference, at, names) == Some(w[p + names]))
    ensures forall names: Path, q: Path :: Walk(fs, policy.dereference, at, names) == Some(q) && q in fs ==>
              && p + names in w
              && (fs[q].File? ==> w[p + names] == FileItem(fs[q].mode, fs[q].bytes))
              && (fs[q].Dir? ==> w[p + names] == DirItem(fs[q].mode))
              && (fs[q].Link? ==> w[p + names] == LinkItem(fs[q].text))
              && !fs[q].Junction?
  {
    var t := Plan(fs, policy, at, policy.root, {}).value;
    PlanUnfolds(fs, policy, at, policy.root, {}, t);
    hide Plan, EntryAt;
    forall names: Path
      ensures && (p + names in w <==> RootReached(fs, policy.dereference, at, names).Some?)
              && (p + names in w ==> RootReached(fs, policy.dereference, at, names) == Some(w[p + names]))
    {
      assert (p + names)[|p|..] == names;
      assert Lookup(t, names) == Reached(fs, policy, at, names);
    }
    forall names: Path, q: Path | Walk(fs, policy.dereference, at, names) == Some(q) && q in fs
      ensures p + names in w && w[p + names] == ItemOf(fs[q]) && !fs[q].Junction?
    {
      assert RootReached(fs, policy.dereference, at, names) == Some(ItemOf(fs[q]));
      CopiedIsNoJunction(fs, policy, at, policy.root, names);
    }
  }

  lemma CopyInside(fs: FileSystem, policy: Policy, at: Path)
    requires WellFormed(fs) && Plan(fs, policy, at, policy.root, {}).Ok?
    requires at in fs && Target(fs, true, at) == Some(policy.physicalRoot) && (policy.dereference || !fs[at].Link?)
    ensures forall names: Path :: Walk(fs, policy.dereference, at, names).Some? ==>
              InsideBoundary(policy.physicalRoot, policy.repository, Walk(fs, policy.dereference, at, names).value)
  {
    MaterialIsTarget(fs, policy, at, policy.root);
    assert InsideBoundary(policy.physicalRoot, policy.repository, policy.physicalRoot);
    hide InsideBoundary, EntryAt;
    forall names: Path | Walk(fs, policy.dereference, at, names).Some?
      ensures InsideBoundary(policy.physicalRoot, policy.repository, Walk(fs, policy.dereference, at, names).value)
    {
      CopyStaysInside(fs, policy, at, policy.root, names);
    }
  }

  ghost function RootReached(fs: FileSystem, dereference: bool, at: Path, names: Path): (r: Option<Item>) {
    Reached(fs, Policy([], [], None, dereference), at, names)
  }
}
