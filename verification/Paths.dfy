/** Lexical paths with '/' separators: splitting, cleaning and relative paths, as Go's path and
    path/filepath compute them on Unix. */
module Paths {

  /** A path as its components. */
  type Path = seq<string>

  /** q is p or a directory above it; the root is not counted. */
  predicate AtOrAbove(q: Path, p: Path) {
    q != [] && q <= p
  }

  /** The directory of a path. */
  function Parent(p: Path): (r: Path) {
    if p == [] then [] else p[..|p| - 1]
  }

  // ----- Text and components -----

  /** strings.Split(s, "/"): never empty. */
  function Split(s: string): (r: Path)
    ensures |r| >= 1
    ensures forall i :: 0 <= i < |r| ==> '/' !in r[i]
  {
    if s == "" then [""]
    else if s[0] == '/' then [""] + Split(s[1..])
    else
      var rest := Split(s[1..]);
      [[s[0]] + rest[0]] + rest[1..]
  }

  function Join(cs: Path): (r: string) {
    if cs == [] then "" else if |cs| == 1 then cs[0] else cs[0] + "/" + Join(cs[1..])
  }

  lemma {:induction false} JoinAfter(c: string, cs: Path)
    requires cs != []
    ensures Join([c] + cs) == c + "/" + Join(cs)
  {
    assert ([c] + cs)[1..] == cs;
  }

  lemma {:induction false} JoinPrepend(c: string, cs: Path)
    requires cs != []
    ensures Join([c + cs[0]] + cs[1..]) == c + Join(cs)
  {
    var all := [c + cs[0]] + cs[1..];
    assert all[1..] == cs[1..];
    if |cs| > 1 {
      var tail := Join(cs[1..]);
      assert (c + cs[0]) + "/" + tail == c + (cs[0] + "/" + tail);
    }
  }

  lemma {:induction false} JoinSplit(s: string)
    ensures Join(Split(s)) == s
  {
    if s != "" {
      JoinSplit(s[1..]);
      if s[0] == '/' {
        JoinAfter("", Split(s[1..]));
        assert "" + "/" + s[1..] == s;
      } else {
        JoinPrepend([s[0]], Split(s[1..]));
        assert [s[0]] + s[1..] == s;
      }
    }
  }

  lemma {:induction false} SplitFirst(c: string, tail: string)
    requires '/' !in c
    ensures Split(c) == [c]
    ensures Split(c + "/" + tail) == [c] + Split(tail)
  {
    var s := c + "/" + tail;
    if c == "" {
      assert s[0] == '/' && s[1..] == tail;
    } else {
      SplitFirst(c[1..], tail);
      assert s[0] == c[0] && s[1..] == c[1..] + "/" + tail;
      assert Split(s[1..])[0] == c[1..];
      assert [c[0]] + c[1..] == c;
      assert Split(c[1..]) == [c[1..]];
    }
  }

  lemma {:induction false} SplitJoin(cs: Path)
    requires cs != [] && forall i :: 0 <= i < |cs| ==> '/' !in cs[i]
    ensures Split(Join(cs)) == cs
  {
    if |cs| == 1 {
      SplitFirst(cs[0], "");
    } else {
      SplitJoin(cs[1..]);
      SplitFirst(cs[0], Join(cs[1..]));
      assert [cs[0]] + cs[1..] == cs;
    }
  }

  // ----- Cleaning -----

  /** The stack machine of path.Clean over components. */
  function Resolve(rooted: bool, stack: Path, cs: Path): (r: Path)
    decreases |cs|
  {
    if cs == [] then stack
    else if cs[0] == "" || cs[0] == "." then Resolve(rooted, stack, cs[1..])
    else if cs[0] != ".." then Resolve(rooted, stack + [cs[0]], cs[1..])
    else if stack != [] && stack[|stack| - 1] != ".." then Resolve(rooted, stack[..|stack| - 1], cs[1..])
    else if rooted then Resolve(rooted, stack, cs[1..])
    else Resolve(rooted, stack + [".."], cs[1..])
  }

  predicate IsAbs(s: string) {
    s != "" && s[0] == '/'
  }

  function Clean(s: string): (r: string) {
    var cs := Resolve(IsAbs(s), [], Split(s));
    if IsAbs(s) then "/" + Join(cs) else if cs == [] then "." else Join(cs)
  }

  /** Every component names an entry: none is empty, "." or "..". */
  predicate Plain(p: Path) {
    forall i :: 0 <= i < |p| ==> PlainName(p[i])
  }

  predicate PlainName(c: string) {
    c != "" && c != "." && c != ".." && '/' !in c
  }

  /** What the machine keeps on its stack: a run of ".." and then plain components. */
  ghost predicate Settled(p: Path, ups: nat) {
    ups <= |p| && forall i :: 0 <= i < |p| ==> if i < ups then p[i] == ".." else PlainName(p[i])
  }

  lemma {:induction false} ResolvePlain(rooted: bool, stack: Path, cs: Path)
    requires Plain(cs)
    ensures Resolve(rooted, stack, cs) == stack + cs
    decreases |cs|
  {
    if cs == [] {
      assert stack + cs == stack;
    } else {
      assert Plain(cs[1..]);
      ResolvePlain(rooted, stack + [cs[0]], cs[1..]);
      assert stack + [cs[0]] + cs[1..] == stack + cs;
    }
  }

  lemma {:induction false} ResolveSettles(rooted: bool, stack: Path, cs: Path, ups: nat) returns (n: nat)
    requires Settled(stack, ups)
    requires forall i :: 0 <= i < |cs| ==> '/' !in cs[i]
    ensures Settled(Resolve(rooted, stack, cs), n)
    decreases |cs|
  {
    if cs == [] {
      n := ups;
    } else if cs[0] == "" || cs[0] == "." {
      n := ResolveSettles(rooted, stack, cs[1..], ups);
    } else if cs[0] != ".." {
      n := ResolveSettles(rooted, stack + [cs[0]], cs[1..], ups);
    } else if stack != [] && stack[|stack| - 1] != ".." {
      var popped := stack[..|stack| - 1];
      n := ResolveSettles(rooted, popped, cs[1..], ups);
    } else if rooted {
      n := ResolveSettles(rooted, stack, cs[1..], ups);
    } else {
      n := ResolveSettles(rooted, stack + [".."], cs[1..], ups + 1);
    }
  }

  lemma JoinClimbs(cs: Path)
    ensures cs != [] && cs[0] == ".." ==> Join(cs) == ".." || "../" <= Join(cs)
  {
    if |cs| > 1 && cs[0] == ".." {
      assert Join(cs)[..3] == "../";
    }
  }

  /** A relative path is its own cleaning, and stays inside, exactly when it is plain. */
  lemma CleanIffPlain(s: string)
    requires s != "" && !IsAbs(s)
    ensures Clean(s) == s && s != "." && s != ".." && !("../" <= s) <==> Plain(Split(s))
  {
    JoinSplit(s);
    if Plain(Split(s)) {
      ResolvePlain(false, [], Split(s));
      assert [] + Split(s) == Split(s);
      SplitFirst(".", "");
      SplitFirst("..", "");
      if "../" <= s {
        assert s == ".." + "/" + s[3..];
        SplitFirst("..", s[3..]);
      }
    }
    if Clean(s) == s && s != "." && s != ".." && !("../" <= s) {
      var cs := Resolve(false, [], Split(s));
      var ups := ResolveSettles(false, [], Split(s), 0);
      assert ups == 0 || s == ".." || "../" <= s by { JoinClimbs(cs); }
      SplitJoin(cs);
    }
  }

  // ----- What a path names -----

  /** The directory reached from a directory: nothing and "." stay, ".." goes up and stays at the root,
      and a name goes down. */
  function Follow(d: Path, cs: Path): (r: Path)
    decreases |cs|
  {
    if cs == [] then d
    else if cs[0] == "" || cs[0] == "." then Follow(d, cs[1..])
    else if cs[0] == ".." then Follow(Parent(d), cs[1..])
    else Follow(d + [cs[0]], cs[1..])
  }

  lemma {:induction false} FollowAppend(d: Path, a: Path, b: Path)
    ensures Follow(d, a + b) == Follow(Follow(d, a), b)
    decreases |a|
  {
    if a == [] {
      assert a + b == b;
    } else {
      assert (a + b)[1..] == a[1..] + b;
      FollowAppend(if a[0] == "" || a[0] == "." then d else if a[0] == ".." then Parent(d) else d + [a[0]], a[1..], b);
    }
  }

  lemma {:induction false} FollowStaysPlain(d: Path, cs: Path)
    requires Plain(d) && forall i :: 0 <= i < |cs| ==> '/' !in cs[i]
    ensures Plain(Follow(d, cs))
    decreases |cs|
  {
    if cs != [] {
      FollowStaysPlain(if cs[0] == "" || cs[0] == "." then d else if cs[0] == ".." then Parent(d) else d + [cs[0]], cs[1..]);
    }
  }

  lemma {:induction false} FollowPlain(d: Path, cs: Path)
    requires Plain(cs)
    ensures Follow(d, cs) == d + cs
    decreases |cs|
  {
    if cs == [] {
      assert d + cs == d;
    } else {
      FollowPlain(d + [cs[0]], cs[1..]);
      assert d + [cs[0]] + cs[1..] == d + cs;
    }
  }

  /** Cleaning a relative path keeps what it names, from every directory. */
  lemma {:induction false} ResolveKeepsMeaning(d: Path, stack: Path, cs: Path, ups: nat)
    requires Settled(stack, ups) && forall i :: 0 <= i < |cs| ==> '/' !in cs[i]
    ensures Follow(d, Resolve(false, stack, cs)) == Follow(Follow(d, stack), cs)
    decreases |cs|
  {
    if cs == [] {
    } else if cs[0] == "" || cs[0] == "." {
      ResolveKeepsMeaning(d, stack, cs[1..], ups);
    } else if cs[0] != ".." {
      ResolveKeepsMeaning(d, stack + [cs[0]], cs[1..], ups);
      FollowAppend(d, stack, [cs[0]]);
      assert Follow(Follow(d, stack), [cs[0]]) == Follow(d, stack) + [cs[0]];
    } else if stack != [] && stack[|stack| - 1] != ".." {
      var n := |stack| - 1;
      ResolveKeepsMeaning(d, stack[..n], cs[1..], ups);
      FollowAppend(d, stack[..n], [stack[n]]);
      assert stack == stack[..n] + [stack[n]];
      assert Follow(Follow(d, stack[..n]), [stack[n]]) == Follow(d, stack[..n]) + [stack[n]];
      assert Parent(Follow(d, stack[..n]) + [stack[n]]) == Follow(d, stack[..n]);
    } else {
      ResolveKeepsMeaning(d, stack + [".."], cs[1..], ups + 1);
      FollowAppend(d, stack, [".."]);
      assert Follow(Follow(d, stack), [".."]) == Parent(Follow(d, stack));
    }
  }

  /** Cleaning a rooted path gives the directory it names. */
  lemma {:induction false} ResolveFollows(stack: Path, cs: Path)
    requires ".." !in stack
    ensures Resolve(true, stack, cs) == Follow(stack, cs)
    decreases |cs|
  {
    if cs != [] {
      ResolveFollows(if cs[0] == "" || cs[0] == "." then stack else if cs[0] == ".." then Parent(stack) else stack + [cs[0]], cs[1..]);
    }
  }

  /** The cleaned text of a relative path names what the path names. */
  lemma CleanKeepsMeaning(d: Path, s: string)
    requires !IsAbs(s)
    ensures Follow(d, Split(Clean(s))) == Follow(d, Split(s))
  {
    var cs := Resolve(false, [], Split(s));
    ResolveKeepsMeaning(d, [], Split(s), 0);
    var n := ResolveSettles(false, [], Split(s), 0);
    if cs == [] {
      SplitFirst(".", "");
      assert Split(".") == ["."] && Follow(d, ["."]) == Follow(d, []);
    } else {
      SplitJoin(cs);
    }
  }

  // ----- Directories above a path -----

  /** The path and every missing directory above it, as os.MkdirAll makes them. */
  function WithDirectories<T>(nodes: map<Path, T>, p: Path, directory: T): (r: map<Path, T>)
    ensures forall q :: q in r <==> q in nodes || AtOrAbove(q, p)
    ensures forall q :: q in r ==> r[q] == if q in nodes then nodes[q] else directory
    decreases |p|
  {
    if p == [] then nodes
    else
      var above := WithDirectories(nodes, p[..|p| - 1], directory);
      assert forall q :: AtOrAbove(q, p) <==> AtOrAbove(q, p[..|p| - 1]) || q == p;
      if p in nodes then above else above[p := directory]
  }

  // ----- Relative paths -----

  /** filepath.Rel between two cleaned paths of the same kind; [] stands for ".". */
  function Rel(base: Path, target: Path): (r: Path) {
    if base != [] && target != [] && base[0] == target[0] then Rel(base[1..], target[1..])
    else seq(|base|, _ => "..") + target
  }

  predicate PathWithin(root: Path, candidate: Path) {
    var r := Rel(root, candidate);
    r == [] || r[0] != ".."
  }

  /** Lexical containment is the prefix relation on paths without "..". */
  lemma {:induction false} PathWithinIsPrefix(root: Path, candidate: Path)
    requires ".." !in candidate
    ensures PathWithin(root, candidate) <==> root <= candidate
    ensures root <= candidate ==> Rel(root, candidate) == candidate[|root|..]
    decreases |root|
  {
    if root != [] && candidate != [] && root[0] == candidate[0] {
      PathWithinIsPrefix(root[1..], candidate[1..]);
      assert root <= candidate <==> root[1..] <= candidate[1..] by {
        assert root == [root[0]] + root[1..] && candidate == [candidate[0]] + candidate[1..];
      }
      assert root <= candidate ==> candidate[1..][|root| - 1..] == candidate[|root|..];
    } else if root == [] {
      assert seq(0, _ => "..") + candidate == candidate;
    } else {
      assert (seq(|root|, _ => "..") + candidate)[0] == "..";
    }
  }
}
