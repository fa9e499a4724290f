/**
 Whole runs of kernel/mem/vmm.c beside a machine that has one plain map of user
 pages per address space.
 */
module PagingRuns {
  import opened Basics
  import opened Paging

  datatype Op =
    | Set(page: nat, value: nat)               // vmm_page_set
    | SetIn(pd: nat, page: nat, value: nat)    // vmm_exdir_set, vmm_expage_set, vmm_exdir_set
    | Clone                                    // vmm_clone_pd
    | Switch(pd: nat)                          // vmm_pd_set

  /** The entries the hardware uses for the user pages of each directory. */
  ghost function Views(m: Mem, dirs: set<nat>): (r: map<nat, seq<nat>>)
    ensures r.Keys == dirs
  {
    map pd | pd in dirs :: seq(USER * WORDS, v requires 0 <= v < USER * WORDS => Walk(m, pd, v))
  }

  datatype Plain = Plain(views: map<nat, seq<nat>>, current: nat)

  /** The plain machine: every space has a map of its own. */
  ghost function PlainSet(p: Plain, pd: nat, page: nat, value: nat): Plain {
    if pd in p.views && page / PAGE < |p.views[pd]| then
      var view: seq<nat> := p.views[pd][page / PAGE := Shown(value)];
      p.(views := p.views[pd := view])
    else p
  }

  ghost function PlainStep(p: Plain, op: Op, made: nat): Plain {
    match op
    case Set(page, value) => PlainSet(p, p.current, page, value)
    case SetIn(pd, page, value) => PlainSet(p, pd, page, value)
    case Clone => if p.current in p.views then p.(views := p.views[made := p.views[p.current]]) else p
    case Switch(pd) => p.(current := pd)
  }

  ghost function PlainRun(p: Plain, ops: seq<Op>, made: seq<nat>): Plain
    requires |ops| == |made|
    decreases |ops|
  {
    if ops == [] then p
    else PlainStep(PlainRun(p, ops[..|ops| - 1], made[..|made| - 1]), ops[|ops| - 1], made[|made| - 1])
  }

  /** Every clone is a space there was not before. */
  ghost predicate AllNew(p: Plain, ops: seq<Op>, made: seq<nat>)
    requires |ops| == |made|
    decreases |ops|
  {
    ops == [] ||
    var k := |ops| - 1;
    AllNew(p, ops[..k], made[..k]) && (ops[k].Clone? ==> made[k] !in PlainRun(p, ops[..k], made[..k]).views)
  }

  /**
   User pages only; entries that are present or go into a table that is; and for a
   clone, temporary pages that can be put back.
   */
  predicate Allowed(k: Vmm, op: Op)
    reads k
  {
    match op
    case Set(page, value) => page < KERNEL_OFFSET
        && (Present(Word(k.mem, k.cr3, page / PAGE / WORDS)) || Present(value))
    case SetIn(pd, page, value) =>
      pd in k.dirs && page < KERNEL_OFFSET && (Present(Word(k.mem, pd, page / PAGE / WORDS)) || Present(value))
    case Clone => k.TempOk() && forall d: nat | d < USER :: Kept(Word(k.mem, k.cr3, d))
    case Switch(pd) => pd in k.dirs
  }

  /** What holds between two operations: any directory may become the current one. */
  ghost predicate Ready(k: Vmm)
    reads k
  {
    k.Valid() && forall pd | pd in k.dirs :: ExOk(Word(k.mem, pd, EX), k.dirs)
  }

  ghost function View(k: Vmm): Plain
    reads k
  {
    Plain(Views(k.mem, k.dirs), k.cr3)
  }

  /** One user page of one directory shows another entry. */
  ghost predicate OneChanged(m: Mem, m': Mem, dirs: set<nat>, pd: nat, page: nat, value: nat) {
    forall q, v: nat | q in dirs && v < USER * WORDS ::
      Walk(m', q, v) == if q == pd && v == page / PAGE then Shown(value) else Walk(m, q, v)
  }

  ghost predicate SameWalks(m: Mem, m': Mem, dirs: set<nat>) {
    forall q, v: nat | q in dirs && v < USER * WORDS :: Walk(m', q, v) == Walk(m, q, v)
  }

  /** The directories there are, the current one, and memory. */
  datatype Hardware = Hardware(m: Mem, dirs: set<nat>, current: nat)

  /** What each operation is for, told by the hardware walk alone. */
  ghost predicate Did(a: Hardware, op: Op, made: nat, b: Hardware) {
    match op
    case Set(page, value) => b.dirs == a.dirs && b.current == a.current
        && OneChanged(a.m, b.m, a.dirs, a.current, page, value)
    case SetIn(pd, page, value) =>
      b.dirs == a.dirs && b.current == a.current && OneChanged(a.m, b.m, a.dirs, pd, page, value)
    case Clone =>
      && made !in a.dirs && b.dirs == a.dirs + {made} && b.current == a.current && SameWalks(a.m, b.m, a.dirs)
      && forall v: nat | v < USER * WORDS :: Walk(b.m, made, v) == Walk(a.m, a.current, v)
    case Switch(pd) => b == a.(current := pd)
  }

  ghost function Now(k: Vmm): Hardware
    reads k
  {
    Hardware(k.mem, k.dirs, k.cr3)
  }

  lemma SetViews(m: Mem, m': Mem, dirs: set<nat>, current: nat, k: nat, page: nat, value: nat)
    requires k in dirs && page < KERNEL_OFFSET
    requires forall pd, v | pd in dirs && 0 <= v < EX * WORDS ::
               Walk(m', pd, v) == if pd == k && v == page / PAGE then Shown(value) else Walk(m, pd, v)
    ensures Plain(Views(m', dirs), current) == PlainSet(Plain(Views(m, dirs), current), k, page, value)
  {
    hide Walk, Shown;
    forall pd | pd in dirs
      ensures Views(m', dirs)[pd] == if pd == k then Views(m, dirs)[pd][page / PAGE := Shown(value)]
              else Views(m, dirs)[pd]
    {}
  }

  lemma CloneViews(m: Mem, m': Mem, dirs: set<nat>, current: nat, pd: nat)
    requires current in dirs && pd !in dirs
    requires forall q, v: nat | q in dirs && v < USER * WORDS :: Walk(m', q, v) == Walk(m, q, v)
    requires forall v: nat | v < USER * WORDS :: Walk(m', pd, v) == Walk(m, current, v)
    ensures Views(m', dirs + {pd}) == Views(m, dirs)[pd := Views(m, dirs)[current]]
  {
    hide Walk;
    var views, views' := Views(m, dirs), Views(m', dirs + {pd});
    forall q | q in dirs ensures views'[q] == views[q] {}
    assert views'[pd] == views[current];
  }

  /** A directory and its tables lie below the first free frame. */
  lemma OldWalk(m: Mem, m': Mem, dirs: set<nat>, next: nat)
    requires Spaces(m, dirs, next) && forall f: nat, i: nat | f < next :: Word(m', f, i) == Word(m, f, i)
    ensures forall q, v: nat | q in dirs && v < USER * WORDS :: Walk(m', q, v) == Walk(m, q, v)
    ensures forall q | q in dirs :: q < next
  {
    forall q, v: nat | q in dirs && v < USER * WORDS
        ensures Walk(m', q, v) == Walk(m, q, v) { assert Tree(m, q, next); }
    forall q | q in dirs ensures q < next { assert Tree(m, q, next); }
  }

  /** Nobody walks through the external slot to get to a page below it. */
  lemma ExViews(m: Mem, dirs: set<nat>, next: nat, k: nat, w: nat)
    requires Spaces(m, dirs, next) && k in dirs
    ensures Spaces(Put(m, k, EX, w), dirs, next)
    ensures forall pd, v | pd in dirs && 0 <= v < EX * WORDS :: Walk(Put(m, k, EX, w), pd, v) == Walk(m, pd, v)
    ensures forall pd: nat | pd in dirs ::
              Word(Put(m, k, EX, w), pd, EX) == if pd == k then w else Word(m, pd, EX)
    ensures forall pd, d: nat | d < EX :: Word(Put(m, k, EX, w), pd, d) == Word(m, pd, d)
  {
    ExSlot(m, Put(m, k, EX, w), dirs, next, k, w);
    forall pd, v | pd in dirs && 0 <= v < EX * WORDS ensures Walk(Put(m, k, EX, w), pd, v) == Walk(m, pd, v) {
      if Present(Word(m, pd, v / WORDS)) { OneSlot(m, dirs, next, pd, v / WORDS); }
    }
  }

  /** vmm_page_set of a user page */
  method SetPage(k: Vmm, page: nat, value: nat)
    requires Ready(k) && Allowed(k, Set(page, value))
    modifies k`mem, k`next
    ensures Ready(k) && View(k) == PlainSet(old(View(k)), k.cr3, page, value)
    ensures OneChanged(old(k.mem), k.mem, k.dirs, k.cr3, page, value)
  {
    hide Spaces, Walk, Shown, Views, PlainSet, ExOk;
    CurrentIn(k);
    var _ := k.PageSet(page, value);
    UserPrivate(k.mem, k.dirs, k.next, k.cr3, page / PAGE / WORDS);
    SetViews(old(k.mem), k.mem, k.dirs, k.cr3, k.cr3, page, value);
  }

  lemma CurrentIn(k: Vmm)
    requires k.Valid()
    ensures k.cr3 in k.dirs
  {}

  /** The sequence of procmm.c for the page table of another process. */
  method SetPageIn(k: Vmm, pd: nat, page: nat, value: nat)
    requires Ready(k) && Allowed(k, SetIn(pd, page, value))
    modifies k`mem, k`next
    ensures Ready(k) && View(k) == PlainSet(old(View(k)), pd, page, value)
    ensures OneChanged(old(k.mem), k.mem, k.dirs, pd, page, value)
  {
    hide Spaces, Walk, Shown, Views, PlainSet, Put, ExOk;
    ghost var m, n, loaded := k.mem, k.next, Word(k.mem, k.cr3, EX);
    PdSelf(k.mem, k.cr3, k.kernelPd, k.dirs, k.next, k.cr3);
    PdFrame(k.mem, k.dirs, k.next, pd);
    ExViews(m, k.dirs, n, k.cr3, Entry(pd, 3));
    EntryLoads(pd, k.dirs);
    var was := k.ExdirSet(pd);
    assert k.mem == Put(m, k.cr3, EX, Entry(pd, 3));
    var ok := k.ExpageSet(page, value);
    ghost var m2, n2 := k.mem, k.next;
    UserPrivate(m2, k.dirs, n2, pd, page / PAGE / WORDS);
    PdSelf(k.mem, k.cr3, k.kernelPd, k.dirs, k.next, k.cr3);
    ExViews(m2, k.dirs, n2, k.cr3, loaded);
    Reloaded(loaded, k.dirs);
    was := k.ExdirSet(was);
    assert k.mem == Put(m2, k.cr3, EX, loaded);
    SetViews(m, k.mem, k.dirs, k.cr3, pd, page, value);
  }

  lemma EntryLoads(pd: nat, dirs: set<nat>)
    requires pd in dirs && pd > 0
    ensures ExOk(Entry(pd, 3), dirs) && FrameOf(Entry(pd, 3)) == pd
  {}

  lemma PdFrame(m: Mem, dirs: set<nat>, next: nat, pd: nat)
    requires Spaces(m, dirs, next) && pd in dirs
    ensures 0 < pd < next
  {
    assert Tree(m, pd, next);
  }

  method Step(k: Vmm, op: Op) returns (made: nat)
    requires Ready(k) && Allowed(k, op)
    modifies k
    ensures Ready(k) && View(k) == PlainStep(old(View(k)), op, made) && Did(old(Now(k)), op, made, Now(k))
    ensures op.Clone? ==> made !in old(View(k)).views
  {
    hide Spaces, Walk, Shown, Views, PlainSet;
    CurrentIn(k);
    made := 0;
    match op {
      case Set(page, value) => SetPage(k, page, value);
      case SetIn(pd, page, value) => SetPageIn(k, pd, page, value);
      case Clone =>
        ghost var m, dirs, n := k.mem, k.dirs, k.next;
        made := k.ClonePd();
        OldWalk(m, k.mem, dirs, n);
        CloneViews(m, k.mem, dirs, k.cr3, made);
      case Switch(pd) => k.cr3 := pd;
    }
  }

  /** Every operation of a run did what it is for. */
  ghost predicate Traced(hs: seq<Hardware>, ops: seq<Op>, made: seq<nat>) {
    && |hs| == |ops| + 1 && |made| == |ops|
    && forall i | 0 <= i < |ops| :: Did(hs[i], ops[i], made[i], hs[i + 1])
  }

  /** A switch, and then a set: the page changes in the space switched to, and in no other. */
  method SwitchSet(k: Vmm, pd: nat, page: nat, value: nat)
    requires Ready(k) && pd in k.dirs && page < KERNEL_OFFSET
    requires Present(Word(k.mem, pd, page / PAGE / WORDS)) || Present(value)
    modifies k
    ensures Ready(k) && k.cr3 == pd && k.dirs == old(k.dirs) && Walk(k.mem, pd, page / PAGE) == Shown(value)
    ensures forall q, v: nat | q in k.dirs && v < USER * WORDS && !(q == pd && v == page / PAGE) ::
              Walk(k.mem, q, v) == old(Walk(k.mem, q, v))
  {
    hide Ready, View, PlainStep, Walk, Shown;
    var made := Step(k, Switch(pd));
    made := Step(k, Set(page, value));
    assert page / PAGE < USER * WORDS;
  }

  /** After any run each process sees at its user pages what its own operations put there. */
  method Run(k: Vmm, ops: seq<Op>) returns (n: nat, made: seq<nat>, ghost hs: seq<Hardware>)
    requires Ready(k)
    modifies k
    ensures n <= |ops| && |made| == n && Traced(hs, ops[..n], made) && hs[0] == old(Now(k)) && hs[n] == Now(k)
    ensures Ready(k) && n <= |ops| && |made| == n && View(k) == PlainRun(old(View(k)), ops[..n], made)
    ensures AllNew(old(View(k)), ops[..n], made)
    ensures n < |ops| ==> !Allowed(k, ops[n])
  {
    hide Ready, Allowed, View, PlainStep, Did;
    n, made, hs := 0, [], [Now(k)];
    while n < |ops|
      invariant n <= |ops| && |made| == n && Traced(hs, ops[..n], made) && hs[0] == old(Now(k)) && hs[n] == Now(k)
      invariant Ready(k) && n <= |ops| && |made| == n && View(k) == PlainRun(old(View(k)), ops[..n], made)
      invariant AllNew(old(View(k)), ops[..n], made)
    {
      if !Allowed(k, ops[n]) {
        return;
      }
      var pd := Step(k, ops[n]);
      assert ops[..n + 1][..n] == ops[..n] && (made + [pd])[..n] == made;
      n, made, hs := n + 1, made + [pd], hs + [Now(k)];
    }
  }

  /**
   The loop of share_area on one page of the directory in the external slot: the entry
   loses its write bit. It faults exactly if the page has no table there.
   */
  method Protect(k: Vmm, page: nat) returns (ok: bool)
    requires k.Valid() && page < VMM_EXPAGE_TABLES
    modifies k`mem, k`next
    ensures k.Valid()
    ensures var w := old(Word(k.mem, k.cr3, EX));
            ok <==> w != 0 && Present(old(Word(k.mem, FrameOf(w), page / PAGE / WORDS)))
    ensures ok ==>
              var x := FrameOf(Word(k.mem, k.cr3, EX));
              Walk(k.mem, x, page / PAGE) == ReadOnly(old(Walk(k.mem, FrameOf(Word(k.mem, k.cr3, EX)), page / PAGE)))
  {
    hide Spaces;
    ghost var m := k.mem;
    CurrentIn(k);
    var value := k.ExpageGet(page);
    Unbacked(m, FrameOf(Word(m, k.cr3, EX)), page / PAGE);
    ReadOnlyBits(value);
    if Word(m, k.cr3, EX) != 0 {
      ghost var x := ExLoaded(k.mem, k.cr3, k.dirs, k.next);
    }
    ok := k.ExpageSet(page, ReadOnly(value));
  }

  /** pt_val & ~PAGE_WRITE */
  function ReadOnly(w: nat): nat { if w / PAGE_WRITE % 2 == 1 then w - PAGE_WRITE else w }

  lemma ReadOnlyBits(w: nat)
    ensures Present(ReadOnly(w)) <==> Present(w)
    ensures ReadOnly(w) / PAGE_WRITE % 2 == 0 && FrameOf(ReadOnly(w)) == FrameOf(w)
  {}

  lemma Unbacked(m: Mem, pd: nat, v: nat)
    ensures Walk(m, pd, v) == Shown(Walk(m, pd, v)) && (Present(Walk(m, pd, v)) ==> Present(Word(m, pd, v / WORDS)))
  {}

  /** No directory has a table for this slot, and none has another one loaded. */
  ghost predicate Bare(k: Vmm, d: nat)
    reads k
  {
    k.Valid() && forall pd | pd in k.dirs :: Word(k.mem, pd, d) == 0 && Word(k.mem, pd, EX) == 0
  }

  method TwoSpaces(d: nat) returns (k: Vmm, a: nat, b: nat)
    requires USER <= d < TEMP
    ensures fresh(k) && Bare(k, d) && a != b && k.dirs == {k.cr3, a, b} && k.kernelPd == k.cr3 && k.cr3 != a
            && k.cr3 != b
  {
    hide Spaces, Walk;
    k := new Vmm();
    a := k.ClonePd();
    b := k.ClonePd();
  }

  /** A kernel page set in the first space: its table goes into the kernel's own directory, too. */
  method SetFirst(k: Vmm, a: nat, b: nat) returns (before: nat)
    requires Bare(k, 896) && a in k.dirs && b in k.dirs && a != b && a != k.kernelPd && b != k.kernelPd
    modifies k
    ensures before == Entry(5, 3) && k.Valid() && k.dirs == old(k.dirs) && k.running && k.kernelPd == old(k.kernelPd)
    ensures SameTable(k.mem, a, k.kernelPd, 896) && !Present(Word(k.mem, b, 896))
    ensures forall pd | pd in k.dirs :: Word(k.mem, pd, EX) == 0
  {
    hide Spaces, Walk;
    k.running, k.cr3 := true, a;
    assert !Present(Word(k.mem, b, 896)) && !Present(Word(k.mem, a, 896));
    var _ := k.PageSet(0xE000_0000, Entry(5, 3));
    CurrentSelf(k);
    before := k.PageGet(0xE000_0000);
  }

  /** Another page of that table set in the second space, which has to fetch it. */
  method SetSecond(k: Vmm, a: nat, b: nat)
    requires k.Valid() && a in k.dirs && b in k.dirs && a != b && a != k.kernelPd && b != k.kernelPd && k.running
    requires SameTable(k.mem, a, k.kernelPd, 896) && !Present(Word(k.mem, b, 896)) && Word(k.mem, b, EX) == 0
    modifies k`mem, k`next, k`cr3
    ensures k.Valid() && k.dirs == old(k.dirs) && k.cr3 == b && Word(k.mem, a, EX) == old(Word(k.mem, a, EX))
    ensures Walk(k.mem, a, 896 * WORDS) == 0
  {
    hide Spaces, Walk, Shown, Present, SameTable, Vmm.Fetched, Vmm.SlotKept;
    k.cr3 := b;
    ghost var m := k.mem;
    WillFetch(k, a, b);
    var _ := k.PageSet(0xE000_1000, Entry(6, 3));
    NowSame(m, k.mem, a, b, k.kernelPd, 896);
  }

  lemma WillFetch(k: Vmm, a: nat, b: nat)
    requires k.running && k.cr3 == b && a != b && a != k.kernelPd
    requires SameTable(k.mem, a, k.kernelPd, 896) && !Present(Word(k.mem, b, 896))
    ensures k.Fetched(0xE000_1000) && k.SlotKept(0xE000_1000, a, 896) && k.SlotKept(0xE000_1000, k.kernelPd, 896)
    ensures k.SlotKept(0xE000_1000, a, EX) && k.Master(0xE000_1000)
  {}

  lemma NowSame(m: Mem, m': Mem, a: nat, b: nat, master: nat, d: nat)
    requires SameTable(m, a, master, d) && SameTable(m', b, master, d)
    requires Word(m', a, d) == Word(m, a, d) && Word(m', master, d) == Word(m, master, d)
    ensures SameTable(m', a, b, d)
  {}

  /**
   Two spaces are made; a kernel page is set in the first, and then another page of the
   same table in the second. That fetches the table from the kernel's directory and
   clears it: the first page is gone.
   */
  method FetchWipes() returns (before: nat, after: nat)
    ensures before == Entry(5, 3) && after == 0
  {
    hide Spaces, Walk, SameTable;
    var k, a, b := TwoSpaces(896);
    before := SetFirst(k, a, b);
    SetSecond(k, a, b);
    k.cr3 := a;
    CurrentSelf(k);
    after := k.PageGet(0xE000_0000);
  }

  lemma CurrentSelf(k: Vmm)
    requires k.Valid()
    ensures Present(Word(k.mem, k.cr3, SELF)) && FrameOf(Word(k.mem, k.cr3, SELF)) == k.cr3
  {
    TempSelf(k.mem, k.cr3, k.kernelPd, k.dirs, k.next);
  }
}
