/**
 kernel/fs/tarfs.c: a directory tree built from a tar archive in memory
 ("ustar Interchange Format" of the pax utility, IEEE Std 1003.1).
 */
module Tar {
  import opened Basics
  import opened Names

  const NUL: char := 0 as char
  const BLOCK: nat := 512

  // ------------------------------------------------------------- octal numbers

  function Pow8(k: nat): (r: nat)
    ensures r > 0
  {
    if k == 0 then 1 else 8 * Pow8(k - 1)
  }

  /** The leading one of several octal digits. */
  function Digit(n: nat, p: nat): (c: char)
    requires p > 0 && n < 8 * p
  {
    DigitBound(n, p);
    '0' + (n / p) as char
  }

  /** `k` octal digits, as an archiver writes them. */
  function Octal(n: nat, k: nat): (s: string)
    requires n < Pow8(k)
    ensures |s| == k
  {
    if k == 0 then "" else [Digit(n, Pow8(k - 1))] + Octal(n % Pow8(k - 1), k - 1)
  }

  lemma DigitBound(n: nat, p: nat)
    requires p > 0 && n < 8 * p
    ensures n / p < 8
  {}

  predicate IsOctal(c: char) { '0' <= c <= '7' }

  /** sscanf("%o"): the digits at the front. */
  function Scan(s: string, acc: nat): nat {
    if s != "" && IsOctal(s[0]) then Scan(s[1..], 8 * acc + (s[0] - '0') as nat) else acc
  }

  lemma DigitStep(acc: nat, n: nat, p: nat)
    requires p > 0
    ensures (8 * acc + n / p) * p + n % p == acc * (8 * p) + n
  {
    assert n / p * p + n % p == n;
    assert 8 * acc * p == acc * (8 * p);
  }

  lemma DigitChar(d: nat, acc: nat)
    requires d < 8
    ensures var c := '0' + d as char; IsOctal(c) && 8 * acc + (c - '0') as nat == 8 * acc + d
  {}

  lemma {:induction false} ScanDigits(n: nat, k: nat, rest: string, acc: nat)
    requires n < Pow8(k)
    ensures Scan(Octal(n, k) + rest, acc) == Scan(rest, acc * Pow8(k) + n)
  {
    if k == 0 {
      assert Octal(n, k) + rest == rest;
    } else {
      var p := Pow8(k - 1);
      DigitBound(n, p);
      DigitChar(n / p, acc);
      DigitStep(acc, n, p);
      assert (Octal(n, k) + rest)[1..] == Octal(n % p, k - 1) + rest;
      hide IsOctal;
      ScanDigits(n % p, k - 1, rest, 8 * acc + n / p);
    }
  }

  // ------------------------------------------------------------------ archives

  function Zeros(n: nat): (s: string)
    ensures |s| == n && forall i | 0 <= i < n :: s[i] == NUL
  {
    seq(n, i => NUL)
  }

  /** What the archive says of one file; `mid` and `tail` are the fields that are not meant to be read here. */
  datatype Entry = Entry(name: string, mid: string, tail: string, data: string) {
    ghost predicate WellFormed() {
      && 0 < |name| <= 100 && NUL !in name && SLASH in name
      && |mid| == 24 && |tail| == 376 && |data| < 0x1_0000_0000 && |data| < Pow8(11)
    }
  }

  function RoundUp(n: nat): (r: nat)
    ensures r % BLOCK == 0 && n <= r < n + BLOCK
  {
    if n % BLOCK == 0 then n else n + BLOCK - n % BLOCK
  }

  /** The header block: name, other fields, size in octal, and the rest. */
  function Header(e: Entry): (s: string)
    requires e.WellFormed()
    ensures |s| == BLOCK
  {
    e.name + Zeros(100 - |e.name|) + e.mid + Octal(|e.data|, 11) + [NUL] + e.tail
  }

  function Blocks(e: Entry): (s: string)
    requires e.WellFormed()
    ensures |s| == BLOCK + RoundUp(|e.data|)
  {
    Header(e) + e.data + Zeros(RoundUp(|e.data|) - |e.data|)
  }

  /** All entries, and two empty blocks. */
  function Archive(es: seq<Entry>): (s: string)
    requires forall e | e in es :: e.WellFormed()
    ensures |s| >= 1024
  {
    if es == [] then Zeros(1024) else Blocks(es[0]) + Archive(es[1..])
  }

  /** The string at the front, up to the first NUL. */
  function CString(s: string): string {
    if s == "" || s[0] == NUL then "" else [s[0]] + CString(s[1..])
  }

  lemma {:induction false} CStringIs(name: string, rest: string)
    requires NUL !in name
    ensures CString(name + rest) == name + CString(rest)
  {
    if name == "" {
      assert name + rest == rest;
    } else {
      assert (name + rest)[1..] == name[1..] + rest;
      CStringIs(name[1..], rest);
    }
  }

  /** Nothing behind a NUL matters. */
  lemma {:induction false} CStringEnds(s: string, rest: string)
    ensures CString(s + [NUL] + rest) == CString(s)
  {
    if s == "" {
      assert s + [NUL] + rest == [NUL] + rest;
    } else {
      assert (s + [NUL] + rest)[1..] == s[1..] + [NUL] + rest;
      CStringEnds(s[1..], rest);
    }
  }

  /**
   The name the kernel sees. One that fills all 100 bytes of its field has no NUL there, so the
   kernel reads on, through the mode and what follows, to the first NUL.
   */
  function Seen(e: Entry): string
    requires e.WellFormed()
  {
    if |e.name| < 100 then e.name else e.name + CString(e.mid + Octal(|e.data|, 11))
  }

  /** What the kernel reads in a header block is what was written. */
  lemma HeaderFields(e: Entry, more: string)
    requires e.WellFormed()
    ensures var s := Header(e) + more; s[0] != NUL && CString(s) == Seen(e) && Scan(s[124..], 0) == |e.data|
  {
    hide Octal, Scan, CString;
    var s := Header(e) + more;
    var digits := Octal(|e.data|, 11);
    var front := e.name + Zeros(100 - |e.name|) + e.mid;
    NameSeen(e, more);
    assert s[0] == e.name[0] && e.name[0] in e.name;
    assert s == front + (digits + ([NUL] + e.tail + more)) && |front| == 124;
    assert s[124..] == digits + ([NUL] + e.tail + more);
    ScanDigits(|e.data|, 11, [NUL] + e.tail + more, 0);
    ScanStop([NUL] + e.tail + more, 0 * Pow8(11) + |e.data|);
  }

  lemma NameSeen(e: Entry, more: string)
    requires e.WellFormed()
    ensures CString(Header(e) + more) == Seen(e)
  {
    hide Octal, CString;
    var digits, zeros := Octal(|e.data|, 11), Zeros(100 - |e.name|);
    var rest := zeros + e.mid + digits + [NUL] + e.tail + more;
    assert Header(e) + more == e.name + rest;
    CStringIs(e.name, rest);
    if |e.name| < 100 {
      FirstNul(rest);
    } else {
      assert rest == (e.mid + digits) + [NUL] + (e.tail + more);
      CStringEnds(e.mid + digits, e.tail + more);
    }
  }

  lemma FirstNul(s: string)
    requires s != "" && s[0] == NUL
    ensures forall name: string :: name + CString(s) == name
  {}

  lemma ScanStop(s: string, acc: nat)
    requires s != "" && s[0] == NUL
    ensures Scan(s, acc) == acc
  {}

  /** Where the header of entry `i` starts. */
  function HeaderPos(es: seq<Entry>, i: nat): nat
    requires i <= |es|
  {
    if i == 0 then 0 else HeaderPos(es, i - 1) + BLOCK + RoundUp(|es[i - 1].data|)
  }

  /** The path below the root: the first component of an archived name is dropped. */
  function PathOf(name: string): (t: Path)
    ensures forall i | 0 <= i < |t| :: t[i] != "" && SLASH !in t[i]
  {
    Tokens(name[Until(name)..])
  }

  /** Whatever comes before the first slash does not matter. */
  lemma PathBelow(c: string, rest: string)
    requires SLASH !in c
    ensures PathOf(c + [SLASH] + rest) == Tokens(rest)
  {
    assert c + [SLASH] + rest == c + ([SLASH] + rest);
    UntilOf(c, [SLASH] + rest);
    assert (c + ([SLASH] + rest))[|c|..] == [SLASH] + rest && ([SLASH] + rest)[1..] == rest;
  }

  /** An entry called `c`, and the names in `ns` below it; directories may end in a slash. */
  predicate Called(name: string, c: string, ns: Path) {
    SLASH !in c && Components(ns) && (name == c + Join(ns) || name == c + Join(ns) + [SLASH])
  }

  lemma PathCalled(name: string, c: string, ns: Path)
    requires Called(name, c, ns)
    ensures PathOf(name) == ns
  {
    var rest := name[|c|..];
    assert name == c + rest && (rest == Join(ns) || rest == Join(ns) + [SLASH] + "");
    JoinStarts(ns);
    UntilOf(c, rest);
    TokensJoin(ns);
    TokensConcat(Join(ns), "");
  }

  // ---------------------------------------------------------------------- tree

  datatype Node = Node(name: string, tar: nat, parent: Option<nat>, children: seq<nat>)

  /** The first of these paths that is `q` or lies below it. */
  function First(hs: seq<Path>, q: Path): (i: nat)
    ensures i <= |hs| && (forall j | 0 <= j < i :: !(q <= hs[j])) && (i < |hs| ==> q <= hs[i])
  {
    if hs == [] || q <= hs[0] then 0 else 1 + First(hs[1..], q)
  }

  /** Every child is a node of its parent, at the parent's path and its own name. */
  ghost predicate Down(nodes: seq<Node>, paths: seq<Path>, k: nat)
    requires k < |nodes| == |paths|
  {
    && (forall c | c in nodes[k].children ::
          0 < c < |nodes| && nodes[c].parent == Some(k) && paths[c] == paths[k] + [nodes[c].name])
    && (forall i, j | 0 <= i < j < |nodes[k].children| :: nodes[k].children[i] != nodes[k].children[j])
  }

  ghost predicate Up(nodes: seq<Node>, c: nat)
    requires c < |nodes|
  {
    nodes[c].parent.Some? && nodes[c].parent.value < c && c in nodes[nodes[c].parent.value].children
  }

  /** A tree in which all paths are different. */
  ghost predicate Shape(nodes: seq<Node>, paths: seq<Path>) {
    && |nodes| == |paths| > 0 && paths[0] == [] && nodes[0].parent == None
    && (forall k | 0 <= k < |nodes| :: Down(nodes, paths, k))
    && (forall c | 0 < c < |nodes| :: Up(nodes, c))
    && (forall i, j | 0 <= i < j < |nodes| :: paths[i] != paths[j])
  }

  /** There is a node for exactly the paths that some header reaches, and it holds the first such header. */
  ghost predicate Holds(nodes: seq<Node>, paths: seq<Path>, hs: seq<Path>, offs: seq<nat>) {
    && |hs| == |offs| && Shape(nodes, paths)
    && (forall q | First(hs, q) < |hs| :: q in paths)
    && (forall k | 0 < k < |nodes| :: First(hs, paths[k]) < |hs| && nodes[k].tar == offs[First(hs, paths[k])])
  }

  /** The first of these nodes with a name. */
  function Named(nodes: seq<Node>, cs: seq<nat>, name: string): (r: Option<nat>)
    ensures r.Some? ==> r.value in cs && r.value < |nodes| && nodes[r.value].name == name
  {
    if cs == [] then None
    else if cs[0] < |nodes| && nodes[cs[0]].name == name then Some(cs[0])
    else Named(nodes, cs[1..], name)
  }

  /** What tar_finddir finds. */
  function Found(nodes: seq<Node>, node: nat, name: string): Option<nat>
    requires node < |nodes|
  {
    if name == "." then Some(node)
    else if name == ".." then nodes[node].parent
    else Named(nodes, nodes[node].children, name)
  }

  /** What tar_readdir lists: the directory, its parent, and the children in their order. */
  function Listed(nodes: seq<Node>, node: nat, index: nat): Option<(string, nat)>
    requires node < |nodes|
  {
    if index == 0 then Some((".", node))
    else if index == 1 then (if nodes[node].parent.Some? then Some(("..", nodes[node].parent.value)) else None)
    else if index - 2 < |nodes[node].children| && nodes[node].children[index - 2] < |nodes| then
      Some((nodes[nodes[node].children[index - 2]].name, nodes[node].children[index - 2]))
    else None
  }

  class TarTree {
    var nodes: seq<Node>
    ghost var paths: seq<Path>

    ghost predicate Valid(hs: seq<Path>, offs: seq<nat>)
      reads this
    {
      Holds(nodes, paths, hs, offs)
    }

    /** The search for a name among the children of a node. */
    method Child(node: nat, name: string) returns (c: Option<nat>)
      requires Shape(nodes, paths) && node < |nodes|
      ensures c == Named(nodes, nodes[node].children, name)
      ensures c.None? ==> paths[node] + [name] !in paths
      ensures c.Some? ==>
                0 < c.value < |nodes| && paths[c.value] == paths[node] + [name] && c.value in nodes[node].children
    {
      NamedPath(nodes, paths, node, name);
      hide Shape;
      assert nodes[node].children[0..] == nodes[node].children;
      var i := 0;
      while i < |nodes[node].children|
        invariant i <= |nodes[node].children|
        invariant Named(nodes, nodes[node].children, name) == Named(nodes, nodes[node].children[i..], name)
      {
        assert nodes[node].children[i] in nodes[node].children;
        assert nodes[node].children[i..][1..] == nodes[node].children[i + 1..];
        if nodes[nodes[node].children[i]].name == name {
          return Some(nodes[node].children[i]);
        }
        i := i + 1;
      }
      return None;
    }

    /** tree_make_child of a new node. */
    method MakeChild(node: nat, name: string, tar: nat) returns (c: nat)
      requires Shape(nodes, paths) && node < |nodes| && paths[node] + [name] !in paths
      modifies this
      ensures Shape(nodes, paths) && c == |old(nodes)| && |nodes| == c + 1
              && paths == old(paths) + [old(paths)[node] + [name]]
      ensures nodes[c] == Node(name, tar, Some(node), [])
      ensures forall k | 0 <= k < c :: nodes[k].tar == old(nodes)[k].tar
    {
      c := |nodes|;
      ghost var n0, p0 := nodes, paths;
      nodes := Grown(nodes, node, name, tar);
      paths := paths + [paths[node] + [name]];
      GrownShape(n0, p0, node, name, tar);
    }
  
    /** tartree_add_node: walk along the path and make what is missing. */
    method AddNode(path: string, tar: nat, ghost hs: seq<Path>, ghost offs: seq<nat>)
      requires Valid(hs, offs)
      modifies this
      ensures Valid(hs + [PathOf(path)], offs + [tar]) && nodes[0].tar == old(nodes[0].tar)
    {
      hide Shape, Holds, First;
      var t := PathOf(path);
      var node: nat, i: nat := 0, 0;
      StartPath(nodes, paths, hs, offs, tar);
      assert t[..0] == [];
      while i < |t|
        invariant i <= |t| && node < |nodes| == |paths| && paths[node] == t[..i] && Valid(hs + [t[..i]], offs + [tar])
        invariant |nodes| > 0 && nodes[0].tar == old(nodes[0].tar)
      {
        ghost var n0, p0 := nodes, paths;
        assert t[..i + 1] == t[..i] + [t[i]];
        HoldsShape(nodes, paths, hs + [t[..i]], offs + [tar]);
        var found := Child(node, t[i]);
        if found.Some? {
          node := found.value;
          HoldsFound(nodes, paths, hs, offs, tar, t[..i], t[i], node);
        } else {
          node := MakeChild(node, t[i], tar);
          HoldsMade(n0, p0, nodes, paths, hs, offs, tar, t[..i], t[i]);
        }
        i := i + 1;
      }
      assert t[..i] == t;
    }
  
    /** One turn of the loop of build_tar_tree; the result is the address of the next header. */
    method AddEntry(image: string, base: nat, at: nat, ghost es: seq<Entry>, ghost i: nat) returns (tar: nat)
      requires (forall e | e in es :: e.WellFormed()) && i < |es| && AtHeader(image, base, es, at, i)
      requires base % BLOCK == 0 && base + |image| < WORD
      requires Valid(Paths(es[..i]), Headers(es, base)[..i]) && |nodes| > 0 && nodes[0].tar == base
      modifies this
      ensures AtHeader(image, base, es, tar, i + 1)
      ensures Valid(Paths(es[..i + 1]), Headers(es, base)[..i + 1]) && |nodes| > 0 && nodes[0].tar == base
    {
      hide Shape, Holds, Blocks, Scan, CString, First, PathOf, Archive, HeaderPos;
      ArchiveFields(es, i);
      HoldsSome(nodes, paths, Paths(es[..i]), Headers(es, base)[..i]);
      AddNode(CString(image[at - base..]), at, Paths(es[..i]), Headers(es, base)[..i]);
      NextPath(es, base, i);
      HoldsSome(nodes, paths, Paths(es[..i + 1]), Headers(es, base)[..i + 1]);
      tar := Advance(image, base, at, es, i);
    }

    /** From one header to the next: over the data, and up to the next block. */
    method Advance(image: string, base: nat, at: nat, ghost es: seq<Entry>, ghost i: nat) returns (tar: nat)
      requires (forall e | e in es :: e.WellFormed()) && i < |es| && AtHeader(image, base, es, at, i)
      requires base % BLOCK == 0 && base + |image| < WORD
      ensures AtHeader(image, base, es, tar, i + 1)
    {
      hide Blocks, Scan, CString, Archive, HeaderPos, RoundUp;
      ArchiveFields(es, i);
      assert image[at - base..][124..] == image[at - base + 124..];
      var size := Scan(image[at - base + 124..], 0);
      NextHeader(es, i, image, at - base);
      BlockMultiple(es, i, base);
      tar := Skip(at, size);
    }

    /** build_tar_tree, for an archive at address `base`. */
    method Build(image: string, base: nat, ghost es: seq<Entry>)
      requires (forall e | e in es :: e.WellFormed()) && image == Archive(es) && es != [] && Tokens(Seen(es[0])) != []
      requires base % BLOCK == 0 && base + |image| < WORD
      modifies this
      ensures Valid(Paths(es), Headers(es, base)) && nodes[0].tar == base
    {
      hide Shape, Holds, Blocks, Scan, CString;
      ArchiveFields(es, 0);
      assert es[0..] == es && es[..0] == [];
      nodes, paths := [Node(Tokens(CString(image))[0], base, None, [])], [[]];
      RootOnly(nodes[0]);
      var tar: nat := base;
      ghost var i := 0;
      while image[tar - base] != NUL
        invariant i <= |es| && AtHeader(image, base, es, tar, i)
        invariant Valid(Paths(es[..i]), Headers(es, base)[..i]) && |nodes| > 0 && nodes[0].tar == base
        decreases |es| - i
      {
        tar := AddEntry(image, base, tar, es, i);
        i := i + 1;
      }
      assert es[..i] == es && Headers(es, base)[..i] == Headers(es, base);
    }

    /** tar_finddir; the root has no parent of its own. */
    method FindDir(node: nat, name: string) returns (c: Option<nat>)
      requires Shape(nodes, paths) && node < |nodes| && (name == ".." ==> node != 0)
      ensures c == Found(nodes, node, name) && (name == "." ==> c == Some(node))
      ensures name == ".." ==> c.Some? && c.value < |nodes| && exists n :: paths[node] == paths[c.value] + [n]
      ensures name != "." && name != ".." ==>
                (c.Some? <==> paths[node] + [name] in paths)
                && (c.Some? ==> c.value < |nodes| && paths[c.value] == paths[node] + [name])
    {
      if name == "." {
        return Some(node);
      }
      if name == ".." {
        assert Up(nodes, node);
        assert Down(nodes, paths, nodes[node].parent.value);
        return nodes[node].parent;
      }
      c := Child(node, name);
    }

    /** tar_readdir */
    method ReadDir(node: nat, index: nat) returns (de: Option<(string, nat)>)
      requires Shape(nodes, paths) && node < |nodes| && (index == 1 ==> node != 0)
      ensures de == Listed(nodes, node, index)
      ensures index == 0 ==> de == Some((".", node))
      ensures index == 1 ==>
                de.Some? && de.value.0 == ".." && de.value.1 < |nodes|
                    && exists n :: paths[node] == paths[de.value.1] + [n]
      ensures index >= 2 ==>
                && (de.Some? <==> index - 2 < |nodes[node].children|)
                && (de.Some? ==> de.value.1 == nodes[node].children[index - 2] < |nodes|
                                 && paths[de.value.1] == paths[node] + [de.value.0])
    {
      assert Down(nodes, paths, node);
      if index == 0 {
        return Some((".", node));
      }
      if index == 1 {
        assert Up(nodes, node);
        assert Down(nodes, paths, nodes[node].parent.value);
        return Some(("..", nodes[node].parent.value));
      }
      var left, i := index - 1, 0;
      while i < |nodes[node].children|
        invariant i <= |nodes[node].children| && left == index - 1 - i > 0
      {
        left := left - 1;
        if left == 0 {
          break;
        }
        i := i + 1;
      }
      if left != 0 {
        return None;
      }
      assert nodes[node].children[i] in nodes[node].children;
      return Some((nodes[nodes[node].children[i]].name, nodes[node].children[i]));
    }

    /**
     Walking a path of names finds a node exactly if some header reaches it, and that node holds
     the first such header.
     */
    method Lookup(q: Path, ghost hs: seq<Path>, ghost offs: seq<nat>) returns (r: Option<nat>)
      requires Valid(hs, offs) && "." !in q && ".." !in q
      ensures r.Some? <==> q == [] || First(hs, q) < |hs|
      ensures r.Some? ==> r.value < |nodes| && (q != [] ==> nodes[r.value].tar == offs[First(hs, q)])
    {
      hide Shape, First;
      HoldsShape(nodes, paths, hs, offs);
      var node: nat, i: nat := 0, 0;
      while i < |q|
        invariant i <= |q| && node < |nodes| == |paths| && paths[node] == q[..i]
      {
        assert q[..i + 1] == q[..i] + [q[i]] && q[i] in q;
        var c := FindDir(node, q[i]);
        if c.None? {
          FirstMonotone(hs, q[..i + 1], q);
          return None;
        }
        node := c.value;
        i := i + 1;
      }
      assert q[..i] == q;
      HoldsNode(nodes, paths, hs, offs, node);
      return Some(node);
    }

    /**
     An archive whose entries are called c/n1/../nk, for whatever c, is built into a tree, and a path
     of names looked up in it: it is found exactly if some entry is called so from n1 on, or
     further, and leads to the header of the first such entry.
     */
    method BuildLookup(image: string, base: nat, ghost es: seq<Entry>, ghost cs: seq<string>, ghost ps: seq<Path>,
                       q: Path)
      returns (r: Option<nat>)
      requires (forall e | e in es :: e.WellFormed()) && image == Archive(es) && es != [] && Tokens(Seen(es[0])) != []
      requires base % BLOCK == 0 && base + |image| < WORD && |cs| == |ps| == |es|
      requires forall i | 0 <= i < |es| :: Called(Seen(es[i]), cs[i], ps[i])
      requires q != [] && "." !in q && ".." !in q
      modifies this
      ensures r.Some? <==> exists i :: 0 <= i < |ps| && q <= ps[i]
      ensures r.Some? ==>
                && r.value < |nodes| && base <= nodes[r.value].tar <= base + |image|
                && exists i :: 0 <= i < |ps| && q <= ps[i] && (forall j | 0 <= j < i :: !(q <= ps[j]))
                               && image[nodes[r.value].tar - base..] == Archive(es[i..])
    {
      hide Shape, Holds, Blocks, Scan, CString, First, PathOf, Archive, Seen, Called;
      PathsCalled(es, cs, ps);
      Build(image, base, es);
      FirstIff(ps, q);
      r := Lookup(q, ps, Headers(es, base));
      if r.Some? {
        HeaderThere(es, First(ps, q));
        assert q <= ps[First(ps, q)];
      }
    }
  }

  lemma PathsCalled(es: seq<Entry>, cs: seq<string>, ps: seq<Path>)
    requires (forall e | e in es :: e.WellFormed()) && |cs| == |ps| == |es|
    requires forall i | 0 <= i < |es| :: Called(Seen(es[i]), cs[i], ps[i])
    ensures Paths(es) == ps
  {
    hide PathOf, Seen, Called;
    forall i | 0 <= i < |es| ensures Paths(es)[i] == ps[i] { PathCalled(Seen(es[i]), cs[i], ps[i]); }
  }

  /** What the image holds where a header is said to be. */
  lemma {:induction false} HeaderThere(es: seq<Entry>, i: nat)
    requires (forall e | e in es :: e.WellFormed()) && i < |es|
    ensures HeaderPos(es, i) <= |Archive(es)| && Archive(es)[HeaderPos(es, i)..] == Archive(es[i..])
  {
    if i == 0 {
      assert es[0..] == es;
    } else {
      HeaderThere(es, i - 1);
      hide Blocks, Archive, RoundUp;
      NextHeader(es, i - 1, Archive(es), HeaderPos(es, i - 1));
    }
  }

  lemma {:induction false} FirstIff(hs: seq<Path>, q: Path)
    ensures First(hs, q) < |hs| <==> exists i :: 0 <= i < |hs| && q <= hs[i]
  {
    if First(hs, q) < |hs| { assert q <= hs[First(hs, q)]; }
  }

  /** The walk has come to entry `i`, or to the end. */
  ghost predicate AtHeader(image: string, base: nat, es: seq<Entry>, tar: nat, i: nat)
    requires (forall e | e in es :: e.WellFormed()) && i <= |es|
  {
    && base <= tar == base + HeaderPos(es, i) && tar - base < |image| && image[tar - base..] == Archive(es[i..])
    && (image[tar - base] != NUL <==> i < |es|)
  }

  lemma HoldsSome(nodes: seq<Node>, paths: seq<Path>, hs: seq<Path>, offs: seq<nat>)
    requires Holds(nodes, paths, hs, offs)
    ensures |nodes| > 0
  {}

  lemma Multiples(a: nat, b: nat)
    requires a % BLOCK == 0 && b % BLOCK == 0
    ensures (a + BLOCK + b) % BLOCK == 0
  {}

  lemma {:induction false} BlockMultiple(es: seq<Entry>, i: nat, base: nat)
    requires i <= |es| && base % BLOCK == 0
    ensures (base + HeaderPos(es, i)) % BLOCK == 0
  {
    if i > 0 {
      BlockMultiple(es, i - 1, base);
      hide RoundUp;
      Multiples(base + HeaderPos(es, i - 1), RoundUp(|es[i - 1].data|));
    }
  }

  /** The address after the data, up to the next block. */
  method Skip(at: nat, size: nat) returns (tar: nat)
    requires at % BLOCK == 0 && at + BLOCK + RoundUp(size) < WORD
    ensures tar == at + BLOCK + RoundUp(size)
  {
    tar := (at + size + 512) % WORD;
    if tar % 512 != 0 {
      tar := (tar + 512 - tar % 512) % WORD;
    }
  }

  lemma SiblingsDiffer(nodes: seq<Node>, paths: seq<Path>, k: nat, c: nat, d: nat)
    requires Shape(nodes, paths) && k < |nodes| && c in nodes[k].children && d in nodes[k].children
    ensures c < |nodes| && d < |nodes| && (nodes[c].name == nodes[d].name ==> c == d)
  {
    assert Down(nodes, paths, k);
    assert c != d ==> paths[c] != paths[d];
  }

  lemma {:induction false} NamedOnly(nodes: seq<Node>, cs: seq<nat>, c: nat)
    requires c in cs && c < |nodes| && forall d | d in cs :: d < |nodes| && (nodes[d].name == nodes[c].name ==> d == c)
    ensures Named(nodes, cs, nodes[c].name) == Some(c)
  {
    if cs[0] != c { NamedOnly(nodes, cs[1..], c); }
  }

  lemma HoldsNode(nodes: seq<Node>, paths: seq<Path>, hs: seq<Path>, offs: seq<nat>, k: nat)
    requires Holds(nodes, paths, hs, offs) && k < |nodes| == |paths|
    ensures paths[k] == [] || (First(hs, paths[k]) < |hs| == |offs| && nodes[k].tar == offs[First(hs, paths[k])])
  {}

  lemma FirstMonotone(hs: seq<Path>, p: Path, q: Path)
    requires p <= q
    ensures First(hs, q) < |hs| ==> First(hs, p) < |hs|
  {
    assert First(hs, q) < |hs| ==> p <= hs[First(hs, q)];
  }

  lemma RootOnly(n: Node)
    requires n.parent == None && n.children == []
    ensures Holds([n], [[]], [], [])
  {}

  ghost function Paths(es: seq<Entry>): (r: seq<Path>)
    requires forall e | e in es :: e.WellFormed()
    ensures |r| == |es|
  {
    seq(|es|, i requires 0 <= i < |es| => PathOf(Seen(es[i])))
  }

  /** The addresses of the headers. */
  ghost function Headers(es: seq<Entry>, base: nat): (r: seq<nat>)
    ensures |r| == |es|
  {
    seq(|es|, i requires 0 <= i < |es| => base + HeaderPos(es, i))
  }

  lemma NextPath(es: seq<Entry>, base: nat, i: nat)
    requires (forall e | e in es :: e.WellFormed()) && i < |es|
    ensures Paths(es[..i + 1]) == Paths(es[..i]) + [PathOf(Seen(es[i]))]
    ensures Headers(es, base)[..i + 1] == Headers(es, base)[..i] + [base + HeaderPos(es, i)]
  {}

  /** What the kernel sees where entry `i` starts. */
  lemma ArchiveFields(es: seq<Entry>, i: nat)
    requires (forall e | e in es :: e.WellFormed()) && i < |es|
    ensures var s := Archive(es[i..]);
            && |s| >= BLOCK && s[0] != NUL && CString(s) == Seen(es[i]) && Scan(s[124..], 0) == |es[i].data|
            && s == Blocks(es[i]) + Archive(es[i + 1..])
  {
    var e, data, rest := es[i], es[i].data, Archive(es[i..][1..]);
    assert es[i..][1..] == es[i + 1..];
    HeaderFields(e, data + Zeros(RoundUp(|data|) - |data|) + rest);
    assert Header(e) + data + Zeros(RoundUp(|data|) - |data|) + rest ==
           Header(e) + (data + Zeros(RoundUp(|data|) - |data|) + rest);
  }

  lemma NextHeader(es: seq<Entry>, i: nat, image: string, at: nat)
    requires (forall e | e in es :: e.WellFormed()) && i < |es| && at <= |image| && image[at..] == Archive(es[i..])
             && at == HeaderPos(es, i)
    ensures var next := HeaderPos(es, i + 1);
            && next == at + BLOCK + RoundUp(|es[i].data|) < |image| && image[next..] == Archive(es[i + 1..])
            && (image[next] != NUL <==> i + 1 < |es|)
  {
    ArchiveFields(es, i);
    var n := BLOCK + RoundUp(|es[i].data|);
    assert image[at..][n..] == image[at + n..];
    assert (Blocks(es[i]) + Archive(es[i + 1..]))[n..] == Archive(es[i + 1..]);
    if i + 1 < |es| { ArchiveFields(es, i + 1); }
    assert image[at + n] == Archive(es[i + 1..])[0];
  }

  lemma ChildOf(nodes: seq<Node>, paths: seq<Path>, node: nat, name: string)
    requires Shape(nodes, paths) && node < |nodes| && paths[node] + [name] in paths
    ensures exists c :: c in nodes[node].children && 0 <= c < |nodes| && nodes[c].name == name
  {
    var c :| 0 <= c < |paths| && paths[c] == paths[node] + [name];
    assert Up(nodes, c);
    var k := nodes[c].parent.value;
    assert Down(nodes, paths, k);
    assert paths[k] == paths[c][..|paths[c]| - 1] == paths[node];
  }

  lemma {:induction false} NamedNone(nodes: seq<Node>, cs: seq<nat>, name: string)
    requires Named(nodes, cs, name).None?
    ensures forall c | c in cs && c < |nodes| :: nodes[c].name != name
  {
    if cs != [] { NamedNone(nodes, cs[1..], name); }
  }

  /** The search finds the node of the longer path. */
  lemma NamedPath(nodes: seq<Node>, paths: seq<Path>, node: nat, name: string)
    requires Shape(nodes, paths) && node < |nodes|
    ensures var c := Named(nodes, nodes[node].children, name);
            && (c.None? ==> paths[node] + [name] !in paths)
            && (c.Some? ==>
                  0 < c.value < |nodes| && paths[c.value] == paths[node] + [name] && c.value in nodes[node].children)
    ensures forall c | c in nodes[node].children :: c < |nodes|
  {
    assert Down(nodes, paths, node);
    if Named(nodes, nodes[node].children, name).None? {
      NamedNone(nodes, nodes[node].children, name);
      if paths[node] + [name] in paths { ChildOf(nodes, paths, node, name); }
    }
  }

  function Grown(nodes: seq<Node>, node: nat, name: string, tar: nat): (r: seq<Node>)
    requires node < |nodes|
    ensures |r| == |nodes| + 1
  {
    nodes[node := nodes[node].(children := nodes[node].children + [|nodes|])] + [Node(name, tar, Some(node), [])]
  }

  lemma GrownDown(nodes: seq<Node>, paths: seq<Path>, node: nat, name: string, tar: nat, k: nat)
    requires |nodes| == |paths| && node < |nodes| && k < |nodes| && Down(nodes, paths, k)
    ensures Down(Grown(nodes, node, name, tar), paths + [paths[node] + [name]], k)
  {
    var nodes', paths' := Grown(nodes, node, name, tar), paths + [paths[node] + [name]];
    forall c | c in nodes'[k].children
      ensures 0 < c < |nodes'| && nodes'[c].parent == Some(k) && paths'[c] == paths'[k] + [nodes'[c].name]
    {
      assert c in nodes[k].children || (k == node && c == |nodes|);
    }
    forall j | 0 <= j < |nodes[k].children| ensures nodes[k].children[j] < |nodes| {
      assert nodes[k].children[j] in nodes[k].children;
    }
  }

  lemma GrownShape(nodes: seq<Node>, paths: seq<Path>, node: nat, name: string, tar: nat)
    requires Shape(nodes, paths) && node < |nodes| && paths[node] + [name] !in paths
    ensures Shape(Grown(nodes, node, name, tar), paths + [paths[node] + [name]])
  {
    var nodes', paths' := Grown(nodes, node, name, tar), paths + [paths[node] + [name]];
    forall k | 0 <= k < |nodes'| ensures Down(nodes', paths', k) {
      if k < |nodes| { GrownDown(nodes, paths, node, name, tar, k); }
    }
    hide Down;
    forall c | 0 < c < |nodes'| ensures Up(nodes', c) {
      if c < |nodes| {
        assert Up(nodes, c);
      } else {
        assert nodes'[node].children[|nodes[node].children|] == c;
      }
    }
    forall j | 0 <= j < |nodes| ensures paths[j] != paths[node] + [name] {
      assert paths[j] in paths;
    }
  }

  lemma HoldsShape(nodes: seq<Node>, paths: seq<Path>, hs: seq<Path>, offs: seq<nat>)
    requires Holds(nodes, paths, hs, offs)
    ensures Shape(nodes, paths) && |nodes| == |paths| > 0 && paths[0] == [] && |hs| == |offs|
  {}

  lemma {:induction false} FirstSnoc(hs: seq<Path>, p: Path, q: Path)
    ensures First(hs + [p], q) == if First(hs, q) < |hs| then First(hs, q) else if q <= p then |hs| else |hs| + 1
  {
    if hs != [] {
      assert (hs + [p])[1..] == hs[1..] + [p];
      FirstSnoc(hs[1..], p, q);
    }
  }

  /** Before the first component there is only the root to reach. */
  lemma StartPath(nodes: seq<Node>, paths: seq<Path>, hs: seq<Path>, offs: seq<nat>, tar: nat)
    requires Holds(nodes, paths, hs, offs)
    ensures Holds(nodes, paths, hs + [[]], offs + [tar]) && |nodes| == |paths| > 0 && paths[0] == []
  {
    forall q
      ensures First(hs + [[]], q) == if First(hs, q) < |hs| then First(hs, q) else if q == [] then |hs| else |hs| + 1
    {
      FirstSnoc(hs, [], q);
    }
  }

  lemma FirstLonger(hs: seq<Path>, p: Path, name: string, q: Path)
    ensures q != p + [name] ==> First(hs + [p + [name]], q) == First(hs + [p], q)
    ensures First(hs + [p + [name]], p + [name]) == if First(hs, p + [name]) < |hs| then First(hs, p + [name]) else |hs|
    ensures First(hs + [p], p + [name]) == if First(hs, p + [name]) < |hs| then First(hs, p + [name]) else |hs| + 1
  {
    FirstSnoc(hs, p, q);
    FirstSnoc(hs, p + [name], q);
    FirstSnoc(hs, p, p + [name]);
    FirstSnoc(hs, p + [name], p + [name]);
    PrefixLonger(p, name, q);
  }

  lemma PrefixLonger(p: Path, name: string, q: Path)
    ensures q <= p + [name] <==> q <= p || q == p + [name]
  {
    if q <= p + [name] && |q| <= |p| { assert q == (p + [name])[..|q|] == p[..|q|]; }
  }

  /** The component is there already. */
  lemma HoldsFound(nodes: seq<Node>, paths: seq<Path>, hs: seq<Path>, offs: seq<nat>, tar: nat, p: Path, name: string,
                   node: nat)
    requires |hs| == |offs| && Holds(nodes, paths, hs + [p], offs + [tar])
    requires 0 < node < |nodes| == |paths| && paths[node] == p + [name]
    ensures Holds(nodes, paths, hs + [p + [name]], offs + [tar])
  {
    hide Shape;
    FirstLonger(hs, p, name, p + [name]);
    forall q ensures q != p + [name] ==> First(hs + [p + [name]], q) == First(hs + [p], q) {
      FirstLonger(hs, p, name, q);
    }
  }

  /** The component has been made, for this header. */
  lemma HoldsMade(nodes: seq<Node>, paths: seq<Path>, nodes': seq<Node>, paths': seq<Path>, hs: seq<Path>,
                  offs: seq<nat>, tar: nat,
                  p: Path, name: string)
    requires |hs| == |offs| && Holds(nodes, paths, hs + [p], offs + [tar]) && p + [name] !in paths
    requires Shape(nodes', paths') && paths' == paths + [p + [name]] && |nodes'| == |nodes| + 1
             && nodes'[|nodes|].tar == tar
    requires forall k | 0 <= k < |nodes| :: nodes'[k].tar == nodes[k].tar
    ensures Holds(nodes', paths', hs + [p + [name]], offs + [tar])
  {
    hide Shape;
    assert |nodes| == |paths| by { HoldsShape(nodes, paths, hs + [p], offs + [tar]); }
    FirstLonger(hs, p, name, p + [name]);
    forall q ensures q != p + [name] ==> First(hs + [p + [name]], q) == First(hs + [p], q) {
      FirstLonger(hs, p, name, q);
    }
    assert paths'[|nodes|] == p + [name] && p + [name] in paths';
    forall k | 0 <= k < |nodes| ensures paths'[k] == paths[k] && paths[k] in paths {}
  }
}
