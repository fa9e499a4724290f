/** Listing and lookup of kernel/fs/vfs.c on a tar directory with mounts laid over it. */
module Overlay {
  import opened Basics
  import opened Names
  import opened Tar

  datatype Inode = Archived(node: nat) | Mounted(id: nat)

  datatype Mount = Mount(name: string, ino: Inode)

  /** A vfs node on a tar directory; `mounts` are its children in the mount tree, in the order they are searched. */
  datatype VNode = VNode(self: Inode, directory: bool, inTree: bool, parent: Inode, mounts: seq<Mount>, tar: nat)

  datatype Dirent = Dirent(name: string, ino: Inode)

  function MountOf(mounts: seq<Mount>, name: string): Option<Inode> {
    if mounts == [] then None
    else if mounts[0].name == name then Some(mounts[0].ino)
    else MountOf(mounts[1..], name)
  }

  function VfsListed(nodes: seq<Node>, v: VNode, num: nat): Option<Dirent>
    requires v.tar < |nodes|
  {
    if !v.directory then None
    else if v.inTree && num == 0 then Some(Dirent(".", v.self))
    else if v.inTree && num == 1 then Some(Dirent("..", v.parent))
    else
      match Listed(nodes, v.tar, num)
      case None => None
      case Some((name, c)) =>
        Some(Dirent(name, if v.inTree && MountOf(v.mounts, name).Some? then MountOf(v.mounts, name).value
            else Archived(c)))
  }

  function VfsFound(nodes: seq<Node>, v: VNode, name: string): Option<Inode>
    requires v.tar < |nodes|
  {
    if !v.directory then None
    else if v.inTree && name == "." then Some(v.self)
    else if v.inTree && name == ".." then Some(v.parent)
    else if v.inTree && MountOf(v.mounts, name).Some? then MountOf(v.mounts, name)
    else
      match Found(nodes, v.tar, name)
      case None => None
      case Some(c) => Some(Archived(c))
  }

  /** The first mount of that name. */
  ghost predicate FirstMount(mounts: seq<Mount>, name: string, ino: Inode) {
    exists i :: 0 <= i < |mounts| && mounts[i] == Mount(name, ino) && forall j | 0 <= j < i :: mounts[j].name != name
  }

  /** A mount of that name there is, or else the archived node. */
  ghost predicate MountElse(v: VNode, name: string, ino: Inode, c: nat) {
    if v.inTree && exists m :: m in v.mounts && m.name == name then FirstMount(v.mounts, name, ino)
        else ino == Archived(c)
  }

  /** The walk over the mounts of a node. */
  method FindMount(v: VNode, name: string) returns (r: Option<Inode>)
    ensures r == MountOf(v.mounts, name)
    ensures r.None? <==> forall m | m in v.mounts :: m.name != name
    ensures r.Some? ==> FirstMount(v.mounts, name, r.value)
  {
    var i := 0;
    assert v.mounts[0..] == v.mounts;
    while i < |v.mounts|
      invariant i <= |v.mounts| && MountOf(v.mounts, name) == MountOf(v.mounts[i..], name)
      invariant forall j | 0 <= j < i :: v.mounts[j].name != name
    {
      if v.mounts[i].name == name {
        assert v.mounts[i] in v.mounts && v.mounts[i] == Mount(name, v.mounts[i].ino);
        return Some(v.mounts[i].ino);
      }
      assert v.mounts[i..][1..] == v.mounts[i + 1..];
      i := i + 1;
    }
    return None;
  }

  /** The archived parent of a directory. */
  ghost predicate Above(t: TarTree, node: nat, ino: Inode)
    reads t
  {
    ino.Archived? && node < |t.paths| && ino.node < |t.paths| && exists n :: t.paths[node] == t.paths[ino.node] + [n]
  }

  /** vfs_readdir */
  method Readdir(t: TarTree, v: VNode, num: nat) returns (de: Option<Dirent>)
    requires Shape(t.nodes, t.paths) && v.tar < |t.nodes| && (v.inTree || v.tar != 0)
    ensures de == VfsListed(t.nodes, v, num) && (!v.directory ==> de.None?)
    ensures v.directory && num == 0 ==> de == Some(Dirent(".", if v.inTree then v.self else Archived(v.tar)))
    ensures v.directory && num == 1 ==>
              de.Some? && de.value.name == ".." && if v.inTree then de.value.ino == v.parent
                  else Above(t, v.tar, de.value.ino)
    ensures v.directory && num >= 2 ==>
              var cs := t.nodes[v.tar].children;
              && (de.Some? <==> num - 2 < |cs|)
              && (de.Some? ==> cs[num - 2] < |t.nodes| == |t.paths|
                               && t.paths[cs[num - 2]] == t.paths[v.tar] + [de.value.name]
                               && MountElse(v, de.value.name, de.value.ino, cs[num - 2]))
  {
    if !v.directory {
      return None;
    }
    if v.inTree {
      if num == 0 {
        return Some(Dirent(".", v.self));
      } else if num == 1 {
        return Some(Dirent("..", v.parent));
      }
    }
    var e := t.ReadDir(v.tar, num);
    if e.None? {
      return None;
    }
    de := Some(Dirent(e.value.0, Archived(e.value.1)));
    if v.inTree {
      var n := FindMount(v, e.value.0);
      if n.Some? {
        de := Some(Dirent(e.value.0, n.value));
      }
    }
  }

  /** vfs_finddir, for a driver that has finddir. */
  method Finddir(t: TarTree, v: VNode, name: string) returns (r: Option<Inode>)
    requires Shape(t.nodes, t.paths) && v.tar < |t.nodes| && (v.inTree || v.tar != 0)
    ensures r == VfsFound(t.nodes, v, name) && (!v.directory ==> r.None?)
    ensures v.directory && name == "." ==> r == Some(if v.inTree then v.self else Archived(v.tar))
    ensures v.directory && name == ".." ==> r.Some? && if v.inTree then r.value == v.parent
            else Above(t, v.tar, r.value)
    ensures v.directory && name != "." && name != ".." ==>
              if v.inTree && exists m :: m in v.mounts && m.name == name then
                  r.Some? && FirstMount(v.mounts, name, r.value)
              else && (r.Some? <==> t.paths[v.tar] + [name] in t.paths)
                   && (r.Some? ==> r.value.Archived? && r.value.node < |t.paths|
                                   && t.paths[r.value.node] == t.paths[v.tar] + [name])
  {
    if !v.directory {
      return None;
    }
    if v.inTree {
      if name == "." {
        return Some(v.self);
      } else if name == ".." {
        return Some(v.parent);
      }
      var n := FindMount(v, name);
      if n.Some? {
        return n;
      }
    }
    var c := t.FindDir(v.tar, name);
    r := if c.Some? then Some(Archived(c.value)) else None;
  }

  /** A vfs node on a tar directory is that directory's inode, wherever it hangs, and is not mounted below itself. */
  ghost predicate Placed(nodes: seq<Node>, v: VNode)
    requires v.tar < |nodes|
  {
    v.self == Archived(v.tar) && forall m | m in v.mounts :: m.ino != v.self && m.ino != v.parent
  }

  /**
   What is listed under a name is what the name finds, mounted or archived, but for an
   archived "." or "..": the directory itself is found instead, or its parent, which in
   the mount tree need not be the archived one.
   */
  lemma ListedIsFound(nodes: seq<Node>, paths: seq<Path>, v: VNode, num: nat)
    requires Shape(nodes, paths) && v.tar < |nodes| && num >= 2 && VfsListed(nodes, v, num).Some? && Placed(nodes, v)
    ensures var de := VfsListed(nodes, v, num).value;
            VfsFound(nodes, v, de.name) == Some(de.ino) <==>
              de.name != "." && (de.name != ".." || (v.inTree && de.ino == v.parent))
  {
    var c := nodes[v.tar].children[num - 2];
    assert Down(nodes, paths, v.tar);
    forall d | d in nodes[v.tar].children ensures d < |nodes| && (nodes[d].name == nodes[c].name ==> d == c) {
      SiblingsDiffer(nodes, paths, v.tar, c, d);
    }
    NamedOnly(nodes, nodes[v.tar].children, c);
    if v.tar != 0 { assert Up(nodes, v.tar) && Down(nodes, paths, nodes[v.tar].parent.value); }
    assert Up(nodes, c);
    MountedIn(v.mounts, nodes[c].name);
  }

  lemma {:induction false} MountedIn(mounts: seq<Mount>, name: string)
    ensures MountOf(mounts, name).Some? ==> exists m :: m in mounts && m.ino == MountOf(mounts, name).value
  {
    if mounts != [] {
      assert mounts[0] in mounts;
      MountedIn(mounts[1..], name);
    }
  }

  /** Every archived child is listed, all names are different, and then the listing ends. */
  lemma ListedOnce(nodes: seq<Node>, paths: seq<Path>, v: VNode, num: nat, num': nat)
    requires Shape(nodes, paths) && v.tar < |nodes| && v.directory && num >= 2 && num' >= 2
    ensures VfsListed(nodes, v, num).Some? <==> num < 2 + |nodes[v.tar].children|
    ensures num < 2 + |nodes[v.tar].children| ==>
              nodes[v.tar].children[num - 2] < |nodes|
              && VfsListed(nodes, v, num).value.name == nodes[nodes[v.tar].children[num - 2]].name
    ensures VfsListed(nodes, v, num).Some? && VfsListed(nodes, v, num').Some? && num != num' ==>
              VfsListed(nodes, v, num).value.name != VfsListed(nodes, v, num').value.name
  {
    var cs := nodes[v.tar].children;
    assert Down(nodes, paths, v.tar);
    assert forall i | 0 <= i < |cs| :: cs[i] in cs;
    if num < 2 + |cs| && num' < 2 + |cs| {
      SiblingsDiffer(nodes, paths, v.tar, cs[num - 2], cs[num' - 2]);
      assert num < num' ==> cs[num - 2] != cs[num' - 2];
      assert num' < num ==> cs[num' - 2] != cs[num - 2];
    }
  }
}
