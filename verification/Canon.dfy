/** canonicalize_path of kernel/fs/vfs.c. */
module Canon {
  import opened Basics
  import opened Names
  import opened Tar

  /** The linked stacks of the function. */
  datatype Stack = Empty | Item(name: string, prev: Stack) {
    /** From the bottom to the top. */
    function Up(): Path { if Empty? then [] else prev.Up() + [name] }

    /** From the top to the bottom. */
    function Down(): Path { if Empty? then [] else [name] + prev.Down() }
  }

  /** One component. */
  function Then(st: Path, t: string): (r: Option<Path>) {
    if t == "." then Some(st)
    else if t == ".." then (if st == [] then None else Some(st[..|st| - 1]))
    else Some(st + [t])
  }

  /** What is left of a path; None where ".." has nothing to take back. */
  function Reduced(ts: Path): Option<Path> {
    if ts == [] then Some([])
    else
      match Reduced(ts[..|ts| - 1])
      case None => None
      case Some(st) => Then(st, ts[|ts| - 1])
  }

  function Render(p: Path): string { if p == [] then [SLASH] else Join(p) }

  /** The string that gets cut up. */
  function Full(path: string, prefix: Option<string>): string {
    if prefix.Some? && !(path != "" && path[0] == SLASH) then prefix.value + [SLASH] + path else path
  }

  /** The prefix counts for relative paths only, and comes first. */
  lemma FullTokens(path: string, prefix: Option<string>)
    ensures Tokens(Full(path, prefix)) == if prefix.None? || (path != "" && path[0] == SLASH) then Tokens(path)
                                          else Tokens(prefix.value) + Tokens(path)
  {
    if prefix.Some? { TokensConcat(prefix.value, path); }
  }

  lemma RenderStarts(p: Path)
    ensures Render(p) != "" && Render(p)[0] == SLASH
    ensures Render(p) == if p == [] then [SLASH] else Join(p)
  {
    JoinStarts(p);
  }

  /** canonicalize_path; None is the null pointer that a ".." too many runs into. */
  method Canonicalize(path: string, prefix: Option<string>) returns (ret: Option<string>)
    ensures ret.None? <==> Reduced(Tokens(Full(path, prefix))).None?
    ensures ret.Some? ==> ret.value == Render(Reduced(Tokens(Full(path, prefix))).value)
    ensures prefix.None? || (path != "" && path[0] == SLASH) ==>
              && (ret.None? <==> Reduced(Tokens(path)).None?)
              && (ret.Some? ==> ret.value == Render(Reduced(Tokens(path)).value))
    ensures prefix.Some? && (path == "" || path[0] != SLASH) ==>
              && (ret.None? <==> Reduced(Tokens(prefix.value) + Tokens(path)).None?)
              && (ret.Some? ==> ret.value == Render(Reduced(Tokens(prefix.value) + Tokens(path)).value))
    ensures ret.Some? ==> ret.value != "" && ret.value[0] == SLASH
  {
    hide Tokens, Reduced, Render;
    FullTokens(path, prefix);
    if Reduced(Tokens(Full(path, prefix))).Some? { RenderStarts(Reduced(Tokens(Full(path, prefix))).value); }
    var pth := if prefix.Some? && !(path != "" && path[0] == SLASH) then prefix.value + [SLASH] + path else path;
    var j := PushAll(Tokens(pth));
    if j.None? {
      return None;
    }
    var k := Turn(j.value);
    var out := Rebuild(k);
    return Some(out);
  }

  /** The second stack, from its top, becomes the new path. */
  method Rebuild(stack: Stack) returns (out: string)
    ensures out == Render(stack.Down())
  {
    var k := stack;
    out := "";
    if k.Empty? {
      out := [SLASH];
    }
    ghost var done: Path := [];
    assert done + k.Down() == stack.Down();
    while k.Item?
      invariant done + k.Down() == stack.Down() && out == if stack.Down() == [] then [SLASH] else Join(done)
      decreases k
    {
      assert (done + [k.name])[..|done|] == done;
      assert done + [k.name] + k.prev.Down() == done + k.Down();
      out := out + [SLASH] + k.name;
      done := done + [k.name];
      k := k.prev;
    }
    assert done == stack.Down();
  }

  /** The loop over the pieces: names are pushed, ".." pops. */
  method PushAll(ts: Path) returns (r: Option<Stack>)
    ensures r.None? <==> Reduced(ts).None?
    ensures r.Some? ==> Reduced(ts) == Some(r.value.Up())
  {
    var j := Empty;
    var n := 0;
    while n < |ts|
      invariant n <= |ts| && Reduced(ts[..n]) == Some(j.Up())
    {
      assert ts[..n + 1][..n] == ts[..n];
      if ts[n] == "." {
      } else if ts[n] == ".." {
        if j.Empty? {
          Underflow(ts, n + 1);
          return None;
        }
        j := j.prev;
      } else {
        j := Item(ts[n], j);
      }
      n := n + 1;
    }
    assert ts[..n] == ts;
    return Some(j);
  }

  /** Turn the stack around. */
  method Turn(s: Stack) returns (k: Stack)
    ensures k.Down() == s.Up()
  {
    k := Empty;
    var j := s;
    while j.Item?
      invariant j.Up() + k.Down() == s.Up()
      decreases j
    {
      k := Item(j.name, k);
      j := j.prev;
    }
  }

  lemma {:induction false} Underflow(ts: Path, n: nat)
    requires n <= |ts| && Reduced(ts[..n]).None?
    ensures Reduced(ts).None?
    decreases |ts|
  {
    if n < |ts| {
      assert ts[..|ts| - 1][..n] == ts[..n];
      Underflow(ts[..|ts| - 1], n);
    } else {
      assert ts[..n] == ts;
    }
  }

  // ------------------------------------------------------------ when it faults

  function NamesIn(ts: Path): nat {
    if ts == [] then 0 else NamesIn(ts[..|ts| - 1]) + (if ts[|ts| - 1] != "." && ts[|ts| - 1] != ".." then 1 else 0)
  }

  function UpsIn(ts: Path): nat {
    if ts == [] then 0 else UpsIn(ts[..|ts| - 1]) + (if ts[|ts| - 1] == ".." then 1 else 0)
  }

  /** It faults exactly if at some point there have been more ".." than names. */
  lemma {:induction false} FaultsIff(ts: Path)
    ensures Reduced(ts).None? <==> exists n: nat :: n <= |ts| && UpsIn(ts[..n]) > NamesIn(ts[..n])
    ensures Reduced(ts).Some? ==> |Reduced(ts).value| == NamesIn(ts) - UpsIn(ts)
    decreases |ts|
  {
    if ts != [] {
      var front := ts[..|ts| - 1];
      FaultsIff(front);
      assert forall n: nat | n <= |front| :: front[..n] == ts[..n];
      assert ts[..|ts|] == ts;
    } else {
      assert ts[..0] == ts;
    }
  }

  // ------------------------------------------------------------- what comes out

  /** A path in normal form. */
  predicate Normal(p: Path) {
    forall i | 0 <= i < |p| :: p[i] != "" && p[i] != "." && p[i] != ".." && SLASH !in p[i]
  }

  lemma {:induction false} ReducedNormal(ts: Path)
    requires (forall i | 0 <= i < |ts| :: ts[i] != "" && SLASH !in ts[i]) && Reduced(ts).Some?
    ensures Normal(Reduced(ts).value)
    decreases |ts|
  {
    if ts != [] { ReducedNormal(ts[..|ts| - 1]); }
  }

  lemma {:induction false} NormalStays(p: Path)
    requires Normal(p)
    ensures Reduced(p) == Some(p)
    decreases |p|
  {
    if p != [] {
      var front, name := p[..|p| - 1], p[|p| - 1];
      assert Normal(front) && name != "." && name != "..";
      hide Normal;
      NormalStays(front);
      assert p == front + [name];
    }
  }

  /** The result has no ".", "..", or empty component, and cutting it up gives just the reduced path. */
  lemma OutcomeNormal(s: string)
    requires Reduced(Tokens(s)).Some?
    ensures var p := Reduced(Tokens(s)).value; Normal(p) && Tokens(Render(p)) == p
  {
    var p := Reduced(Tokens(s)).value;
    ReducedNormal(Tokens(s));
    TokensJoin(p);
  }

  /** A canonical path is its own canonical form. */
  lemma Idempotent(s: string)
    requires Reduced(Tokens(s)).Some?
    ensures var r := Render(Reduced(Tokens(s)).value);
            Reduced(Tokens(r)).Some? && Render(Reduced(Tokens(r)).value) == r
  {
    OutcomeNormal(s);
    NormalStays(Reduced(Tokens(s)).value);
  }

  // ------------------------------------------------------------ room for it

  lemma {:induction false} JoinCons(name: string, p: Path)
    ensures Join([name] + p) == [SLASH] + name + Join(p)
    decreases |p|
  {
    if p == [] {
      assert [name] + p == [name] && [name][..0] == [];
    } else {
      assert ([name] + p)[..|p|] == [name] + p[..|p| - 1];
      JoinCons(name, p[..|p| - 1]);
    }
  }

  /** The components of an absolute path, put together again, are not longer than the path. */
  lemma {:induction false} TokensRoom(s: string)
    requires s == "" || s[0] == SLASH
    ensures |Join(Tokens(s))| <= |s| && (|Join(Tokens(s))| == |s| ==> Join(Tokens(s)) == s)
    decreases |s|
  {
    if s != "" {
      var t := s[1..];
      var n := Until(t);
      if n == 0 {
        TokensRoom(t);
      } else {
        TokensRoom(t[n..]);
        JoinCons(t[..n], Tokens(t[n..]));
        assert Tokens(s) == [t[..n]] + Tokens(t[n..]);
        assert s == [SLASH] + t[..n] + t[n..];
      }
    }
  }

  lemma {:induction false} ReducedRoom(ts: Path)
    requires Reduced(ts).Some?
    ensures var p := Reduced(ts).value; |Join(p)| <= |Join(ts)| && (|Join(p)| == |Join(ts)| ==> p == ts)
    decreases |ts|
  {
    if ts != [] { ReducedRoom(ts[..|ts| - 1]); }
  }

  lemma NoSlashTwice(path: string)
    requires Reduced(Tokens(path)).Some?
    ensures var r := Render(Reduced(Tokens(path)).value);
            && (|r| <= |path| <==> r != [SLASH] + path) && (path != "" && path[0] == SLASH ==> |r| <= |path|)
  {
    var s := if path != "" && path[0] == SLASH then path else [SLASH] + path;
    assert Tokens(s) == Tokens(path) by { if s != path { assert s[1..] == path; } }
    TokensRoom(s);
    ReducedRoom(Tokens(s));
    if path != "" && path[0] == SLASH {
      assert |[SLASH] + path| == |path| + 1;
    }
  }

  /** No slash at the beginning or the end, and none behind another. */
  predicate Tight(path: string) {
    path != "" && path[0] != SLASH && path[|path| - 1] != SLASH
    && forall i | 0 < i < |path| :: path[i - 1] != SLASH || path[i] != SLASH
  }

  /** A relative path without anything to leave out. */
  predicate Plain(path: string) {
    path == "" || (Tight(path) && "." !in Tokens(path) && ".." !in Tokens(path))
  }

  lemma TightRest(s: string, n: nat)
    requires Tight(s) && n < |s| && s[n] == SLASH
    ensures n + 1 < |s| && Tight(s[n + 1..]) && Tokens(s[n..]) == Tokens(s[n + 1..])
  {
    var rest := s[n + 1..];
    assert s[n..][1..] == rest && s[n..][0] == SLASH && n + 1 < |s|;
    assert rest[0] == s[n + 1] && s[n + 1 - 1] == SLASH;
    forall i | 0 < i < |rest| ensures rest[i - 1] != SLASH || rest[i] != SLASH {
      assert s[n + i + 1 - 1] != SLASH || s[n + i + 1] != SLASH;
    }
  }

  lemma TokensCut(s: string)
    requires s != "" && s[0] != SLASH
    ensures Tokens(s) == [s[..Until(s)]] + Tokens(s[Until(s)..]) && Tokens("") == []
  {}

  lemma CutJoin(s: string, n: nat, ts: Path)
    requires n <= |s| && Join(ts) == s[n..]
    ensures Join([s[..n]] + ts) == [SLASH] + s
  {
    JoinCons(s[..n], ts);
    assert s == s[..n] + s[n..];
  }

  lemma {:induction false} TightJoin(s: string)
    requires Tight(s)
    ensures Join(Tokens(s)) == [SLASH] + s
    decreases |s|
  {
    var n := Until(s);
    TokensCut(s);
    if n < |s| {
      TightRest(s, n);
      TightJoin(s[n + 1..]);
      hide Tokens, Tight, Until, Join;
      assert s[n..] == [SLASH] + s[n + 1..];
      CutJoin(s, n, Tokens(s[n..]));
    } else {
      assert s[n..] == "";
      CutJoin(s, n, []);
    }
  }

  lemma {:induction false} JoinTight(p: Path)
    requires Normal(p)
    ensures var j := Join(p);
            && (p != [] ==> j != "" && j[0] == SLASH && j[|j| - 1] != SLASH)
            && forall i | 0 < i < |j| :: j[i - 1] != SLASH || j[i] != SLASH
    decreases |p|
  {
    if p != [] {
      var front, name := p[..|p| - 1], p[|p| - 1];
      JoinTight(front);
      assert name[0] in name && name[|name| - 1] in name;
      assert forall i | 0 <= i < |name| :: name[i] in name;
    }
  }

  /** Nothing to leave out: the result is the path behind a slash. */
  lemma PlainGrows(path: string)
    requires Plain(path)
    ensures Reduced(Tokens(path)).Some? && Render(Reduced(Tokens(path)).value) == [SLASH] + path
  {
    if path != "" {
      TightJoin(path);
      hide Tight;
      NormalStays(Tokens(path));
    }
  }

  /** And if it is, there was nothing to leave out. */
  lemma GrowsPlain(path: string, p: Path)
    requires Normal(p) && path != "" && Join(p) == [SLASH] + path
    ensures Tight(path) && Tokens(path) == p
  {
    JoinTight(p);
    TokensJoin(p);
    var j := [SLASH] + path;
    assert j[1..] == path && Tokens(j) == Tokens(path);
    hide Tokens, Join, Normal;
    assert path[0] == j[1] && path[|path| - 1] == j[|path|];
    assert forall i | 0 < i < |path| :: path[i - 1] == j[i] && path[i] == j[i + 1];
  }

  lemma PlainIff(path: string)
    requires Reduced(Tokens(path)).Some?
    ensures Render(Reduced(Tokens(path)).value) == [SLASH] + path <==> Plain(path)
  {
    var p := Reduced(Tokens(path)).value;
    ReducedNormal(Tokens(path));
    if Plain(path) { PlainGrows(path); }
    if Render(p) == [SLASH] + path && path != "" { GrowsPlain(path, p); }
    hide Tokens, Join, Tight;
  }

  /**
   Without a prefix the buffer has as many bytes as the path with its NUL. The result is
   one byte longer exactly if the path is relative and has nothing to leave out: the
   caller can tell from its first and last character, double slashes, and dots.
   */
  lemma FitsIff(path: string)
    requires Reduced(Tokens(path)).Some?
    ensures var r := Render(Reduced(Tokens(path)).value);
            && (|r| + 1 > |path| + 1 <==> Plain(path))
            && (|r| <= |path| + 1)
            && (path != "" && path[0] == SLASH ==> |r| + 1 <= |path| + 1)
  {
    NoSlashTwice(path);
    PlainIff(path);
    assert |[SLASH] + path| == |path| + 1;
  }

  /** One byte short: a single name. */
  lemma RelativeOverflows()
    ensures Reduced(Tokens("a")) == Some(["a"]) && |Render(["a"])| + 1 > |"a"| + 1
  {
    TokensOne("a");
    NormalStays(["a"]);
    JoinCons("a", []);
    assert ["a"] + [] == ["a"];
  }

  // ---------------------------------------------------------------- meaning

  /** Following names from a node. */
  function Resolve(find: (nat, string) -> Option<nat>, n: nat, ts: Path): Option<nat> {
    if ts == [] then Some(n)
    else
      match Resolve(find, n, ts[..|ts| - 1])
      case None => None
      case Some(m) => find(m, ts[|ts| - 1])
  }

  /** "." is the node itself and ".." the one it was found in. */
  ghost predicate Proper(find: (nat, string) -> Option<nat>) {
    && (forall n: nat :: find(n, ".") == Some(n))
    && (forall n: nat, t: string | t != "." && t != ".." && find(n, t).Some? :: find(find(n, t).value, "..") == Some(n))
  }

  /** If a path resolves, what it reduces to resolves to the same node. */
  lemma {:induction false} SameNode(find: (nat, string) -> Option<nat>, root: nat, ts: Path)
    requires Proper(find) && Resolve(find, root, ts).Some? && Reduced(ts).Some?
    requires forall i | 0 <= i < |ts| :: ts[i] != "" && SLASH !in ts[i]
    ensures Resolve(find, root, Reduced(ts).value) == Resolve(find, root, ts)
    decreases |ts|
  {
    if ts != [] {
      var front, t := ts[..|ts| - 1], ts[|ts| - 1];
      SameNode(find, root, front);
      ReducedNormal(front);
      var st := Reduced(front).value;
      if t == ".." {
        assert Then(st, t) == Some(st[..|st| - 1]);
      } else if t != "." {
        assert (st + [t])[..|st|] == st;
      }
    }
  }

  /** The canonical path leads where the path leads. */
  lemma MeaningKept(find: (nat, string) -> Option<nat>, root: nat, path: string)
    requires Proper(find) && Resolve(find, root, Tokens(path)).Some? && Reduced(Tokens(path)).Some?
    ensures Resolve(find, root, Tokens(Render(Reduced(Tokens(path)).value))) == Resolve(find, root, Tokens(path))
  {
    OutcomeNormal(path);
    SameNode(find, root, Tokens(path));
  }

  /** With a prefix, from the node the prefix leads to. */
  lemma {:induction false} ResolveConcat(find: (nat, string) -> Option<nat>, n: nat, a: Path, b: Path)
    ensures Resolve(find, n, a + b) ==
            match Resolve(find, n, a) case None => None case Some(m) => Resolve(find, m, b)
    decreases |b|
  {
    if b == [] {
      assert a + b == a;
    } else {
      assert (a + b)[..|a + b| - 1] == a + b[..|b| - 1];
      ResolveConcat(find, n, a, b[..|b| - 1]);
    }
  }

  lemma PrefixMeaning(find: (nat, string) -> Option<nat>, root: nat, path: string, prefix: string)
    requires path == "" || path[0] != SLASH
    ensures Resolve(find, root, Tokens(Full(path, Some(prefix)))) ==
            match Resolve(find, root, Tokens(prefix)) case None => None case Some(m) => Resolve(find, m, Tokens(path))
  {
    TokensConcat(prefix, path);
    ResolveConcat(find, root, Tokens(prefix), Tokens(path));
  }

  /** Lookup in a tar tree, as one function. */
  function TarFind(nodes: seq<Node>): (nat, string) -> Option<nat> {
    (n: nat, t: string) => if n < |nodes| then Found(nodes, n, t) else if t == "." then Some(n) else None
  }

  /** The trees of the archive reader are of that kind. */
  lemma TarProper(nodes: seq<Node>, paths: seq<Path>)
    requires Shape(nodes, paths)
    ensures Proper(TarFind(nodes))
  {
    var find := TarFind(nodes);
    forall n: nat, t: string | t != "." && t != ".." && find(n, t).Some?
        ensures find(find(n, t).value, "..") == Some(n) {
      assert Tar.Down(nodes, paths, n);
      assert find(n, t).value in nodes[n].children;
    }
  }

  /** So a path into a tar archive and its canonical form name the same file. */
  lemma TarMeaningKept(nodes: seq<Node>, paths: seq<Path>, path: string)
    requires Shape(nodes, paths) && Resolve(TarFind(nodes), 0, Tokens(path)).Some?
    ensures Reduced(Tokens(path)).Some?
    ensures Resolve(TarFind(nodes), 0, Tokens(Render(Reduced(Tokens(path)).value))) ==
            Resolve(TarFind(nodes), 0, Tokens(path))
  {
    TarProper(nodes, paths);
    NoUnderflow(TarFind(nodes), 0, Tokens(path));
    MeaningKept(TarFind(nodes), 0, path);
  }

  /** Where the root has no parent, a path that resolves never climbs above it. */
  lemma {:induction false} NoUnderflow(find: (nat, string) -> Option<nat>, root: nat, ts: Path)
    requires Proper(find) && find(root, "..").None? && Resolve(find, root, ts).Some?
    requires forall i | 0 <= i < |ts| :: ts[i] != "" && SLASH !in ts[i]
    ensures Reduced(ts).Some?
    decreases |ts|
  {
    if ts != [] {
      var front := ts[..|ts| - 1];
      NoUnderflow(find, root, front);
      SameNode(find, root, front);
    }
  }
}
