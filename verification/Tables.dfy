/**
 fork and procmm_removeall on the tables themselves: where every page of the areas is
 present, they never fault, and do to the tables what `Procmm` does to its entries.
 */
module Tables {
  import opened Basics
  import opened Areas
  import opened Cow
  import opened Procmm
  import opened Machine
  import P = Paging
  import R = PagingRuns

  /** What the hardware makes of an entry. */
  function PteOf(w: nat): Pte { Pte(P.FrameOf(w), w / P.PAGE_WRITE % 2 == 1) }

  /** The user pages of a directory are those of a table of entries. */
  ghost predicate Maps(m: P.Mem, pd: nat, t: map<nat, Pte>) {
    forall v: nat | v < P.USER * P.WORDS ::
      && (P.Present(P.Walk(m, pd, v)) <==> v * PAGE in t)
      && (v * PAGE in t ==> t[v * PAGE] == PteOf(P.Walk(m, pd, v)))
  }

  /** Other directories map what they mapped. */
  ghost predicate OthersSame(m: P.Mem, m': P.Mem, dirs: set<nat>, pd: nat) {
    forall q, v: nat | q in dirs && q != pd && v < P.USER * P.WORDS :: P.Walk(m', q, v) == P.Walk(m, q, v)
  }

  /** The directory is in the external slot of the current one. */
  ghost predicate Loaded(k: P.Vmm, pd: nat)
    reads k
  {
    k.Valid() && pd in k.dirs && P.Word(k.mem, k.cr3, P.EX) == P.Entry(pd, 3) && P.FrameOf(P.Entry(pd, 3)) == pd
  }

  /** One page gets another entry. */
  lemma Changed(m: P.Mem, m': P.Mem, pd: nat, t: map<nat, Pte>, page: nat, w: nat)
    requires Maps(m, pd, t) && page % PAGE == 0 && page < KERNEL_OFFSET
    requires forall v: nat | v < P.USER * P.WORDS ::
               P.Walk(m', pd, v) == if v == page / PAGE then P.Shown(w) else P.Walk(m, pd, v)
    ensures P.Present(w) ==> Maps(m', pd, SetEntry(t, page, PteOf(w)))
    ensures !P.Present(w) ==> Maps(m', pd, t - {page})
  {
    hide P.Walk;
    assert page == page / PAGE * PAGE;
    assert forall v: nat :: v * PAGE == page <==> v == page / PAGE;
  }

  /** A page that is present has a table. */
  lemma Backed(k: P.Vmm, pd: nat, page: nat, t: map<nat, Pte>)
    requires Loaded(k, pd) && Maps(k.mem, pd, t) && page in t && page % PAGE == 0 && page < KERNEL_OFFSET
    ensures P.Present(P.Word(k.mem, pd, page / PAGE / P.WORDS)) && k.cr3 in k.dirs
    ensures P.Present(P.Walk(k.mem, pd, page / PAGE)) && t[page] == PteOf(P.Walk(k.mem, pd, page / PAGE))
  {
    hide P.Walk, P.Spaces;
    assert page / PAGE * PAGE == page;
    R.Unbacked(k.mem, pd, page / PAGE);
  }

  /** Every directory maps what it mapped. */
  ghost predicate AllSame(m: P.Mem, m': P.Mem, dirs: set<nat>) {
    forall q, v: nat | q in dirs && v < P.USER * P.WORDS :: P.Walk(m', q, v) == P.Walk(m, q, v)
  }

  /** vmm_exdir_set to the directory of a process */
  method Load(k: P.Vmm, pd: nat) returns (was: nat)
    requires R.Ready(k) && pd in k.dirs
    modifies k`mem
    ensures Loaded(k, pd) && AllSame(old(k.mem), k.mem, k.dirs)
    ensures Elsewhere(k, old(k.mem)) && P.ExOk(old(P.Word(k.mem, k.cr3, P.EX)), k.dirs)
    ensures was == P.FrameOf(old(P.Word(k.mem, k.cr3, P.EX)))
  {
    hide P.Spaces, P.Walk;
    R.CurrentIn(k);
    P.PdSelf(k.mem, k.cr3, k.kernelPd, k.dirs, k.next, k.cr3);
    R.PdFrame(k.mem, k.dirs, k.next, pd);
    R.ExViews(k.mem, k.dirs, k.next, k.cr3, P.Entry(pd, 3));
    was := k.ExdirSet(pd);
  }

  /** External slots of other directories are as in `m`. */
  ghost predicate Elsewhere(k: P.Vmm, m: P.Mem)
    reads k
  {
    forall q | q in k.dirs && q != k.cr3 :: P.Word(k.mem, q, P.EX) ==
        P.Word(m, q, P.EX) && P.ExOk(P.Word(m, q, P.EX), k.dirs)
  }

  /** and back */
  method Restore(k: P.Vmm, was: nat, ghost pd: nat, ghost m: P.Mem)
    requires Loaded(k, pd) && Elsewhere(k, m) && P.ExOk(P.Word(m, k.cr3, P.EX), k.dirs)
    requires was == P.FrameOf(P.Word(m, k.cr3, P.EX))
    modifies k`mem
    ensures R.Ready(k) && AllSame(old(k.mem), k.mem, k.dirs)
  {
    hide P.Spaces, P.Walk;
    R.CurrentIn(k);
    P.PdSelf(k.mem, k.cr3, k.kernelPd, k.dirs, k.next, k.cr3);
    P.Reloaded(P.Word(m, k.cr3, P.EX), k.dirs);
    R.ExViews(k.mem, k.dirs, k.next, k.cr3, P.Word(m, k.cr3, P.EX));
    var _ := k.ExdirSet(was);
  }

  lemma SameMaps(m: P.Mem, m': P.Mem, dirs: set<nat>, pd: nat, t: map<nat, Pte>)
    requires AllSame(m, m', dirs) && pd in dirs && Maps(m, pd, t)
    ensures Maps(m', pd, t) && OthersSame(m, m', dirs, pd)
  {
    hide P.Walk;
  }

  lemma ReadOnlyPte(w: nat)
    ensures PteOf(R.ReadOnly(w)) == PteOf(w).(write := false) && (P.Present(R.ReadOnly(w)) <==> P.Present(w))
  {
    R.ReadOnlyBits(w);
  }

  /** In the middle of such a loop, which began with memory `m`. */
  ghost predicate During(k: P.Vmm, pd: nat, t: map<nat, Pte>, m: P.Mem)
    reads k
  {
    Loaded(k, pd) && Elsewhere(k, m) && Maps(k.mem, pd, t) && OthersSame(m, k.mem, k.dirs, pd)
  }

  /** vmm_expage_set at a page that is present. */
  method SetOne(k: P.Vmm, pd: nat, page: nat, w: nat, ghost t: map<nat, Pte>, ghost m: P.Mem)
    requires During(k, pd, t, m) && page in t && page % PAGE == 0 && page < KERNEL_OFFSET
    modifies k`mem, k`next
    ensures During(k, pd, if P.Present(w) then SetEntry(t, page, PteOf(w)) else t - {page}, m)
  {
    hide P.Spaces, P.Walk, P.Shown, P.ExOk, Maps;
    ghost var m0 := k.mem;
    Backed(k, pd, page, t);
    var ok := k.ExpageSet(page, w);
    assert ok;
    P.UserPrivate(k.mem, k.dirs, k.next, pd, page / PAGE / P.WORDS);
    Changed(m0, k.mem, pd, t, page, w);
  }

  /** One turn of the loop of share_area. */
  method ProtectOne(k: P.Vmm, pd: nat, i: nat, ghost a: Area, ghost t: map<nat, Pte>, ghost m: P.Mem)
    requires During(k, pd, Protected(t, a.(end := i)), m) && i in t && i % PAGE == 0 && i < KERNEL_OFFSET
    requires a.Includes(i) && a.start % PAGE == 0 && forall x | x in t :: x % PAGE == 0
    modifies k`mem, k`next
    ensures During(k, pd, Protected(t, a.(end := i + PAGE)), m)
  {
    hide During, Elsewhere, OthersSame, Maps, P.Walk;
    ghost var p := Protected(t, a.(end := i));
    ProtectStep(t, a, i);
    Entering(k, pd, i, p, m);
    var w := k.ExpageGet(i);
    ReadOnlyPte(w);
    SetOne(k, pd, i, R.ReadOnly(w), p, m);
  }

  /** What is read at a page that is present. */
  lemma Entering(k: P.Vmm, pd: nat, page: nat, t: map<nat, Pte>, m: P.Mem)
    requires During(k, pd, t, m) && page in t && page % PAGE == 0 && page < KERNEL_OFFSET
    ensures k.Valid() && P.Word(k.mem, k.cr3, P.EX) != 0 && P.FrameOf(P.Word(k.mem, k.cr3, P.EX)) == pd
    ensures P.Present(P.Walk(k.mem, pd, page / PAGE)) && t[page] == PteOf(P.Walk(k.mem, pd, page / PAGE))
  {
    hide P.Walk, P.Spaces, Maps;
    Backed(k, pd, page, t);
    assert P.Present(P.Entry(pd, 3));
  }

  lemma Begun(k: P.Vmm, pd: nat, t: map<nat, Pte>, m: P.Mem)
    requires Loaded(k, pd) && Elsewhere(k, m) && AllSame(m, k.mem, k.dirs) && Maps(m, pd, t)
    ensures During(k, pd, t, m)
  {
    SameMaps(m, k.mem, k.dirs, pd, t);
  }

  /** The end of such a loop. */
  method Finish(k: P.Vmm, was: nat, ghost pd: nat, ghost t: map<nat, Pte>, ghost m: P.Mem)
    requires During(k, pd, t, m) && P.ExOk(P.Word(m, k.cr3, P.EX), k.dirs) && was == P.FrameOf(P.Word(m, k.cr3, P.EX))
    modifies k`mem
    ensures R.Ready(k) && Maps(k.mem, pd, t) && OthersSame(m, k.mem, k.dirs, pd)
  {
    hide R.Ready, Maps, P.Walk, P.ExOk, P.Word, Elsewhere;
    ghost var m1 := k.mem;
    Restore(k, was, pd, m);
    SameMaps(m1, k.mem, k.dirs, pd, t);
  }

  /** Where all pages are present (`Machine.AllFull`), those of each area are. */
  lemma AreaThere(s: seq<Area>, pages: set<nat>, a: Area)
    requires Full(s, pages) && a in s
    ensures forall x: nat | x % PAGE == 0 && a.Includes(x) :: x in pages
  {
    forall x: nat | x % PAGE == 0 && a.Includes(x) ensures At(s, x).Some? {}
  }

  /** share_area, the pages of the area: no fault, and no page of the range stays writable. */
  method WriteProtect(k: P.Vmm, pd: nat, a: Area, ghost t: map<nat, Pte>)
    requires R.Ready(k) && pd in k.dirs && Maps(k.mem, pd, t) && AlignedArea(a) && forall x | x in t :: x % PAGE == 0
    requires forall x: nat | x % PAGE == 0 && a.Includes(x) :: x in t
    modifies k`mem, k`next
    ensures R.Ready(k) && Maps(k.mem, pd, Protected(t, a)) && OthersSame(old(k.mem), k.mem, k.dirs, pd)
  {
    hide R.Ready, Loaded, Maps, OthersSame, AllSame, Elsewhere, During, P.ExOk;
    ghost var m := k.mem;
    var was := Load(k, pd);
    Begun(k, pd, t, m);
    assert Protected(t, a.(end := a.start)) == t;
    var i := a.start;
    while i < a.end
      invariant a.start <= i <= a.end && i % PAGE == 0 && During(k, pd, Protected(t, a.(end := i)), m)
    {
      ProtectOne(k, pd, i, a, t, m);
      NextPage(i, a.end);
      i := i + PAGE;
    }
    assert a.(end := i) == a;
    Finish(k, was, pd, Protected(t, a), m);
  }

  /** procmm_removeall, the pages of one area: no fault, and no page of the range stays. */
  method ClearPages(k: P.Vmm, pd: nat, a: Area, ghost t: map<nat, Pte>)
    requires R.Ready(k) && pd in k.dirs && Maps(k.mem, pd, t) && AlignedArea(a) && forall x | x in t :: x % PAGE == 0
    requires forall x: nat | x % PAGE == 0 && a.Includes(x) :: x in t
    modifies k`mem, k`next
    ensures R.Ready(k) && Maps(k.mem, pd, Cleared(t, a)) && OthersSame(old(k.mem), k.mem, k.dirs, pd)
  {
    hide R.Ready, Loaded, Maps, OthersSame, AllSame, Elsewhere, During, P.ExOk;
    ghost var m := k.mem;
    var was := Load(k, pd);
    Begun(k, pd, t, m);
    assert Cleared(t, a.(end := a.start)) == t;
    var j := a.start;
    while j < a.end
      invariant a.start <= j <= a.end && j % PAGE == 0 && During(k, pd, Cleared(t, a.(end := j)), m)
    {
      ClearStep(t, a, j);
      SetOne(k, pd, j, 0, Cleared(t, a.(end := j)), m);
      NextPage(j, a.end);
      j := j + PAGE;
    }
    assert a.(end := j) == a;
    Finish(k, was, pd, Cleared(t, a), m);
  }

  lemma SameOthers(m0: P.Mem, m1: P.Mem, m2: P.Mem, dirs: set<nat>, pd: nat)
    requires OthersSame(m0, m1, dirs, pd) && OthersSame(m1, m2, dirs, pd)
    ensures OthersSame(m0, m2, dirs, pd)
  {
    hide P.Walk;
  }

  /** procmm_fork, on the tables of the parent. */
  method ProtectShared(k: P.Vmm, pd: nat, s: seq<Area>, ghost t: map<nat, Pte>)
    requires R.Ready(k) && pd in k.dirs && Maps(k.mem, pd, t) && forall x | x in t :: x % PAGE == 0
    requires (forall a | a in s :: AlignedArea(a)) && Full(s, t.Keys)
    modifies k`mem, k`next
    ensures R.Ready(k) && Maps(k.mem, pd, ProtectedAll(t, s)) && OthersSame(old(k.mem), k.mem, k.dirs, pd)
  {
    hide R.Ready, Maps, OthersSame, ProtectedAll, Protected, Full, AlignedArea;
    ghost var m := k.mem;
    NoneShared(m, k.dirs, pd, t);
    var i := 0;
    assert s[..0] == [];
    while i < |s|
      invariant i <= |s| && R.Ready(k) && Maps(k.mem, pd, ProtectedAll(t, s[..i])) && OthersSame(m, k.mem, k.dirs, pd)
    {
      assert s[i] in s && s[..i + 1] == s[..i] + [s[i]];
      ProtectedMore(t, s[..i], s[i]);
      if Cowable(s[i].flags) && !s[i].flags.noShare {
        ghost var m1 := k.mem;
        AreaThere(s, t.Keys, s[i]);
        WriteProtect(k, pd, s[i], ProtectedAll(t, s[..i]));
        SameOthers(m, m1, k.mem, k.dirs, pd);
      }
      i := i + 1;
    }
    assert s[..i] == s;
  }

  lemma NoneShared(m: P.Mem, dirs: set<nat>, pd: nat, t: map<nat, Pte>)
    ensures ProtectedAll(t, []) == t && ClearedAll(t, []) == t && OthersSame(m, m, dirs, pd)
  {}

  /**
   fork_process on the tables: the loops of procmm_fork, then vmm_clone_pd. Parent and child map the
   same frames, as `Procmm.Kernel.Fork` says. None is a clone for which the temporary pages could not
   be put back, or a slot of the directory is neither empty nor present (`PagingRuns.Allowed`).
   */
  method Fork(k: P.Vmm, s: seq<Area>, ghost t: map<nat, Pte>) returns (child: Option<nat>)
    requires R.Ready(k) && Maps(k.mem, k.cr3, t) && forall x | x in t :: x % PAGE == 0
    requires (forall a | a in s :: AlignedArea(a)) && Full(s, t.Keys)
    modifies k
    ensures R.Ready(k) && k.cr3 == old(k.cr3) && Maps(k.mem, k.cr3, ProtectedAll(t, s))
    ensures child.Some? ==> child.value !in old(k.dirs) && Maps(k.mem, child.value, ProtectedAll(t, s))
    ensures child.None? ==> !R.Allowed(k, R.Clone)
  {
    hide R.Ready, R.Allowed, R.Views, P.Walk, Maps, ProtectedAll, Full, AlignedArea;
    InDirs(k);
    ProtectShared(k, k.cr3, s, t);
    if !R.Allowed(k, R.Clone) {
      return None;
    }
    ghost var was := R.View(k);
    ghost var m := k.mem;
    var made := R.Step(k, R.Clone);
    ClonedMaps(was, m, k, made, ProtectedAll(t, s));
    child := Some(made);
  }

  lemma InDirs(k: P.Vmm)
    requires R.Ready(k)
    ensures k.cr3 in k.dirs
  {
    R.CurrentIn(k);
  }

  /** A clone maps what the current directory did, and that still does. */
  lemma ClonedMaps(was: R.Plain, m: P.Mem, k: P.Vmm, made: nat, t: map<nat, Pte>)
    requires was.current in was.views && was.views == R.Views(m, was.views.Keys) && Maps(m, was.current, t)
    requires R.View(k) == R.PlainStep(was, R.Clone, made) && made !in was.views
    ensures k.cr3 == was.current && Maps(k.mem, k.cr3, t) && Maps(k.mem, made, t)
  {
    hide P.Walk;
    var views := R.Views(k.mem, k.dirs);
    assert views == was.views[made := was.views[was.current]];
    forall v: nat | v < P.USER * P.WORDS
      ensures P.Walk(k.mem, k.cr3, v) == P.Walk(m, was.current, v)
              && P.Walk(k.mem, made, v) == P.Walk(m, was.current, v)
    {
      assert views[k.cr3][v] == P.Walk(k.mem, k.cr3, v) && views[made][v] == P.Walk(k.mem, made, v);
      assert was.views[was.current][v] == P.Walk(m, was.current, v);
    }
  }

  /** procmm_removeall, on the tables. */
  method RemovePages(k: P.Vmm, pd: nat, s: seq<Area>, ghost t: map<nat, Pte>)
    requires R.Ready(k) && pd in k.dirs && Maps(k.mem, pd, t) && forall x | x in t :: x % PAGE == 0
    requires Disjoint(s) && Full(s, t.Keys)
    modifies k`mem, k`next
    ensures R.Ready(k) && Maps(k.mem, pd, ClearedAll(t, s)) && OthersSame(old(k.mem), k.mem, k.dirs, pd)
  {
    hide R.Ready, Maps, OthersSame, ClearedAll, Cleared, Full, AlignedArea, Disjoint;
    ghost var m := k.mem;
    NoneShared(m, k.dirs, pd, t);
    var i := 0;
    assert s[..0] == [];
    while i < |s|
      invariant i <= |s| && R.Ready(k) && Maps(k.mem, pd, ClearedAll(t, s[..i])) && OthersSame(m, k.mem, k.dirs, pd)
    {
      ghost var m1 := k.mem;
      StillThere(t, s, i);
      ClearPages(k, pd, s[i], ClearedAll(t, s[..i]));
      SameOthers(m, m1, k.mem, k.dirs, pd);
      i := i + 1;
    }
    assert s[..i] == s;
  }

  /** The pages of an area go with that area only. */
  lemma StillThere(t: map<nat, Pte>, s: seq<Area>, i: nat)
    requires Disjoint(s) && Full(s, t.Keys) && i < |s|
    ensures AlignedArea(s[i]) && ClearedAll(t, s[..i]).Keys <= t.Keys
    ensures forall x: nat | x % PAGE == 0 && s[i].Includes(x) :: x in ClearedAll(t, s[..i])
    ensures ClearedAll(t, s[..i + 1]) == Cleared(ClearedAll(t, s[..i]), s[i])
  {
    assert s[i] in s && s[..i + 1][..i] == s[..i];
    AreaThere(s, t.Keys, s[i]);
    forall x: nat | x % PAGE == 0 && s[i].Includes(x) ensures x in ClearedAll(t, s[..i]) {
      forall j | 0 <= j < i ensures !s[j].Includes(x) { assert Apart(s[j], s[i]); }
      NotCleared(t, s[..i], x);
    }
  }

  lemma {:induction false} NotCleared(t: map<nat, Pte>, s: seq<Area>, x: nat)
    requires x in t && forall j | 0 <= j < |s| :: !s[j].Includes(x)
    ensures x in ClearedAll(t, s)
  {
    if s != [] { NotCleared(t, s[..|s| - 1], x); }
  }
}
