/**
 kernel/mem/vmm.c: page tables edited through the directory itself, against the
 walk the hardware does ("32-bit paging" of the Intel SDM, volume 3A, section 4.3).
 A word is an entry: bit 0 is the present bit, and the frame number starts at bit 12.
 */
module Paging {
  import opened Basics

  const PAGE_PRESENT: nat := 1
  const PAGE_WRITE: nat := 2
  const VMM_TEMP2: nat := 0xFF7F_E000
  const VMM_TEMP1: nat := 0xFF7F_F000
  const VMM_EXPAGE_TABLES: nat := 0xFF80_0000
  const VMM_EXPAGE_DIR: nat := 0xFFBF_F000
  const VMM_PAGE_TABLES: nat := 0xFFC0_0000
  const VMM_PAGE_DIR: nat := 0xFFFF_F000
  const WORDS: nat := 1024       // VMM_PAGES_PER_TABLE
  const EX: nat := 1022          // vmm_dir_idx(VMM_EXPAGE_DIR)
  const SELF: nat := 1023        // vmm_dir_idx(VMM_PAGE_DIR)
  const TEMP: nat := 1021        // vmm_dir_idx(VMM_TEMP1), and of VMM_TEMP2
  const USER: nat := 768         // vmm_dir_idx(KERNEL_OFFSET)

  /** Physical memory by frame and word; what is not in the map is 0. */
  type Mem = map<(nat, nat), nat>

  function Word(mem: Mem, f: nat, i: nat): nat { if (f, i) in mem then mem[(f, i)] else 0 }

  function Put(mem: Mem, f: nat, i: nat, w: nat): Mem { mem[(f, i) := w] }

  predicate Present(w: nat) { w % 2 == 1 }

  function FrameOf(w: nat): nat { w / PAGE }

  /** vmm_page_val, and `pmm_alloc_page() | flags` */
  function Entry(f: nat, flags: nat): (w: nat)
    ensures FrameOf(w) == f && (Present(w) <==> Present(flags)) && (f > 0 ==> w != 0)
  {
    EntryParts(f, flags % PAGE);
    FlagBit(flags);
    f * PAGE + flags % PAGE
  }

  lemma EntryParts(f: nat, r: nat)
    requires r < PAGE
    ensures (f * PAGE + r) / PAGE == f && (f * PAGE + r) % 2 == r % 2
  {}

  lemma FlagBit(flags: nat)
    ensures flags % PAGE % 2 == flags % 2
  {
    assert flags == 2 * (2048 * (flags / PAGE)) + flags % PAGE;
  }

  /** The hardware: the page-table entry of virtual page `v`, or 0 where the walk stops. */
  function Walk(mem: Mem, cr3: nat, v: nat): nat {
    var pde := Word(mem, cr3, v / WORDS);
    if !Present(pde) then 0
    else
      var pte := Word(mem, FrameOf(pde), v % WORDS);
      if Present(pte) then pte else 0
  }

  function Shown(w: nat): nat { if Present(w) then w else 0 }

  // ------------------------------------------------------------ address spaces

  /** A directory whose last slot is the directory itself, and whose tables are all different. */
  ghost predicate Tree(mem: Mem, pd: nat, next: nat) {
    && 0 < pd < next && Present(Word(mem, pd, SELF)) && FrameOf(Word(mem, pd, SELF)) == pd
    && (forall d | 0 <= d < EX && Present(Word(mem, pd, d)) ::
         0 < FrameOf(Word(mem, pd, d)) < next && FrameOf(Word(mem, pd, d)) != pd)
    && (forall d, e | 0 <= d < e < EX && Present(Word(mem, pd, d)) && Present(Word(mem, pd, e)) ::
          FrameOf(Word(mem, pd, d)) != FrameOf(Word(mem, pd, e)))
  }

  /** Two directories share tables in the kernel's slots only, each in one slot. */
  ghost predicate Apart(mem: Mem, pd: nat, pd': nat) {
    && (forall d | 0 <= d < EX && Present(Word(mem, pd, d)) :: FrameOf(Word(mem, pd, d)) != pd')
    && (forall d, e | 0 <= d < EX && 0 <= e < EX && Present(Word(mem, pd, d)) && Present(Word(mem, pd', e))
                      && FrameOf(Word(mem, pd, d)) == FrameOf(Word(mem, pd', e)) :: d == e && d >= USER)
  }

  ghost predicate Spaces(mem: Mem, dirs: set<nat>, next: nat) {
    && (forall pd | pd in dirs :: Tree(mem, pd, next))
    && (forall pd, pd' | pd in dirs && pd' in dirs && pd != pd' :: Apart(mem, pd, pd'))
  }

  /** The directory loaded in the external slot, if any. */
  predicate ExOk(w: nat, dirs: set<nat>) { w == 0 || (w % PAGE == 3 && FrameOf(w) != 0 && FrameOf(w) in dirs) }

  ghost predicate Sound(m: Mem, cr3: nat, kernelPd: nat, dirs: set<nat>, next: nat) {
    Spaces(m, dirs, next) && cr3 in dirs && kernelPd in dirs && ExOk(Word(m, cr3, EX), dirs)
  }

  class Vmm {
    var mem: Mem
    var cr3: nat
    var next: nat          // the frames from here on are free
    var kernelPd: nat
    var running: bool
    var dirs: set<nat>     // the directories of all processes, and the kernel's own

    ghost predicate Valid()
      reads this
    {
      Sound(mem, cr3, kernelPd, dirs, next)
    }

    /** As boot leaves it: one directory, with a table for the temporary pages. */
    constructor ()
      ensures Valid() && TempOk() && dirs == {cr3} && kernelPd == cr3 && !running
      ensures cr3 < next && (forall d: nat | d < TEMP || d == EX :: Word(mem, cr3, d) == 0)
      ensures FrameOf(Word(mem, cr3, TEMP)) < next
    {
      mem := map[(1, SELF) := Entry(1, 3), (1, TEMP) := Entry(2, 3)];
      cr3, kernelPd, next, running, dirs := 1, 1, 3, false, {1};
    }

    /** pmm_alloc_page */
    method AllocPage() returns (f: nat)
      modifies this`next
      ensures f == old(next) && next == old(next) + 1
    {
      f := next;
      next := next + 1;
    }

    /** A load by virtual address. */
    method Load(addr: nat) returns (w: nat)
      requires Present(Walk(mem, cr3, addr / PAGE))
      ensures w == Word(mem, FrameOf(Walk(mem, cr3, addr / PAGE)), addr % PAGE / 4)
    {
      var frame := FrameOf(Walk(mem, cr3, addr / PAGE));
      w := Word(mem, frame, addr % PAGE / 4);
    }

    /** A store by virtual address; false is a page fault. */
    method Store(addr: nat, w: nat) returns (ok: bool)
      modifies this`mem
      ensures ok <==> Present(old(Walk(mem, cr3, addr / PAGE)))
      ensures mem == if ok then Put(old(mem), FrameOf(old(Walk(mem, cr3, addr / PAGE))), addr % PAGE / 4, w)
              else old(mem)
    {
      var entry := Walk(mem, cr3, addr / PAGE);
      ok := Present(entry);
      if ok {
        mem := Put(mem, FrameOf(entry), addr % PAGE / 4, w);
      }
    }

    /** page_directory[d] */
    method DirGet(d: nat) returns (w: nat)
      requires d < WORDS && Present(Word(mem, cr3, SELF)) && FrameOf(Word(mem, cr3, SELF)) == cr3
      ensures w == Word(mem, cr3, d)
    {
      WindowAddress(SELF, d);
      w := Load(VMM_PAGE_DIR + 4 * d);
    }

    /** page_directory[d] = w */
    method DirSet(d: nat, w: nat)
      requires d < WORDS && Present(Word(mem, cr3, SELF)) && FrameOf(Word(mem, cr3, SELF)) == cr3
      modifies this`mem
      ensures mem == Put(old(mem), cr3, d, w)
    {
      WindowAddress(SELF, d);
      var _ := Store(VMM_PAGE_DIR + 4 * d, w);
    }

    /** expage_directory[d] */
    method ExDirGet(d: nat, ghost x: nat) returns (w: nat)
      requires d < WORDS && Present(Word(mem, cr3, EX)) && FrameOf(Word(mem, cr3, EX)) == x
      requires Present(Word(mem, x, SELF)) && FrameOf(Word(mem, x, SELF)) == x
      ensures w == Word(mem, x, d)
    {
      WindowAddress(EX, d);
      w := Load(VMM_EXPAGE_DIR + 4 * d);
    }

    /** expage_directory[d] = w */
    method ExDirSet(d: nat, w: nat, ghost x: nat)
      requires d < WORDS && Present(Word(mem, cr3, EX)) && FrameOf(Word(mem, cr3, EX)) == x
      requires Present(Word(mem, x, SELF)) && FrameOf(Word(mem, x, SELF)) == x
      modifies this`mem
      ensures mem == Put(old(mem), x, d, w)
    {
      WindowAddress(EX, d);
      var _ := Store(VMM_EXPAGE_DIR + 4 * d, w);
    }

    /** vmm_page_get returns what the hardware finds. */
    method PageGet(page: nat) returns (w: nat)
      requires page < 0x1_0000_0000 && Present(Word(mem, cr3, SELF)) && FrameOf(Word(mem, cr3, SELF)) == cr3
      ensures w == Walk(mem, cr3, page / PAGE)
    {
      var v := page / PAGE;
      var pde := DirGet(v / WORDS);
      if Present(pde) {
        TableAddress(SELF, v);
        var pte := Load(VMM_PAGE_TABLES + 4 * v);
        if Present(pte) {
          return pte;
        }
      }
      return 0;
    }

    /** vmm_exdir_set */
    method ExdirSet(pd: nat) returns (was: nat)
      requires Present(Word(mem, cr3, SELF)) && FrameOf(Word(mem, cr3, SELF)) == cr3
      modifies this`mem
      ensures was == FrameOf(old(Word(mem, cr3, EX)))
      ensures mem == Put(old(mem), cr3, EX, if pd != 0 then Entry(pd, 3) else 0)
    {
      var w := DirGet(EX);
      was := FrameOf(w);
      DirSet(EX, if pd != 0 then Entry(pd, PAGE_PRESENT + PAGE_WRITE) else 0);
    }
  
    /** memset(page, 0, PAGE_SIZE) */
    method Memset(page: nat, ghost f: nat)
      requires page % PAGE == 0 && Present(Walk(mem, cr3, page / PAGE)) && FrameOf(Walk(mem, cr3, page / PAGE)) == f
      requires f != cr3 && f != FrameOf(Word(mem, cr3, page / PAGE / WORDS))
      modifies this`mem
      ensures Zeroed(old(mem), mem, f, WORDS)
    {
      var i := 0;
      while i < WORDS
        invariant i <= WORDS && Zeroed(old(mem), mem, f, i)
        invariant Walk(mem, cr3, page / PAGE) == old(Walk(mem, cr3, page / PAGE))
      {
        PageAddress(page, i);
        var _ := Store(page + 4 * i, 0);
        i := i + 1;
      }
    }

    /** The branch of vmm_page_touch for kernel pages, which goes by the kernel's own directory. */
    method MakeKernelTable(d: nat, flags: nat) returns (ghost w: nat)
      requires Valid() && d < EX && !Present(Word(mem, cr3, d))
      modifies this`mem, this`next
      ensures if Present(old(Word(mem, kernelPd, d))) then
                w == old(Word(mem, kernelPd, d)) && next == old(next) && Touched(old(mem), mem, {cr3}, d, w, false)
              else
                && w == Entry(old(next), flags) && next == old(next) + 1
                && Touched(old(mem), mem, {cr3, kernelPd}, d, w, false)
    {
      assert Tree(mem, cr3, next) && Tree(mem, kernelPd, next);
      hide Tree, Apart, Touched;
      ghost var m := mem;
      TreeSelf(mem, cr3, next);
      TreeSelf(mem, kernelPd, next);
      Reloaded(Word(mem, cr3, EX), dirs);
      var oldExdir := ExdirSet(kernelPd);
      var master := ExDirGet(d, kernelPd);
      if Present(master) {
        w := master;
        DirSet(d, master);
      } else {
        var f := AllocPage();
        w := Entry(f, flags);
        DirSet(d, Entry(f, flags));
        var pde := DirGet(d);
        ExDirSet(d, pde, kernelPd);
      }
      oldExdir := ExdirSet(oldExdir);
      KernelWords(m, cr3, kernelPd, d, w, Entry(kernelPd, 3));
    }

    /** Put a table into the empty slot of the page. */
    method MakeTable(page: nat, flags: nat) returns (ghost w: nat)
      requires Valid() && page < VMM_EXPAGE_TABLES && !Present(Word(mem, cr3, page / PAGE / WORDS))
      modifies this`mem, this`next
      ensures var d := page / PAGE / WORDS;
              var master := old(Word(mem, kernelPd, d));
              if Master(page) && Present(master) then
                w == master && next == old(next) && Touched(old(mem), mem, {cr3}, d, w, false)
              else
                && w == Entry(old(next), flags) && next == old(next) + 1
                && Touched(old(mem), mem, if Master(page) then {cr3, kernelPd} else {cr3}, d, w, false)
    {
      var d := page / PAGE / WORDS;
      if Master(page) {
        w := MakeKernelTable(d, flags);
      } else {
        assert Tree(mem, cr3, next);
        var f := AllocPage();
        w := Entry(f, flags);
        DirSet(d, Entry(f, flags));
      }
    }

    /** vmm_page_touch; false is a fault inside the kernel, when the table it just made cannot be cleared. */
    method PageTouch(page: nat, flags: nat) returns (ok: bool)
      requires Valid() && page < VMM_EXPAGE_TABLES
      modifies this`mem, this`next
      ensures Valid()
      ensures var d := page / PAGE / WORDS;
              var master := old(Word(mem, kernelPd, d));
              if Present(old(Word(mem, cr3, d))) then ok && mem == old(mem) && next == old(next)
              else if Master(page) && Present(master) then
                ok && next == old(next) && Touched(old(mem), mem, {cr3}, d, master, true)
              else
                && ok == Present(flags) && next == old(next) + 1
                && Touched(old(mem), mem, if Master(page) then {cr3, kernelPd} else {cr3}, d,
                           Entry(old(next), flags), ok)
    {
      hide Tree, Apart;
      TreeSelf(mem, cr3, next);
      var v := page / PAGE;
      var d := v / WORDS;
      var pde := DirGet(d);
      if Present(pde) {
        return true;
      }
      ghost var m, n := mem, next;
      ghost var pds := if Master(page) && !Present(Word(mem, kernelPd, d)) then {cr3, kernelPd} else {cr3};
      NewTable(m, dirs, n);
      if Master(page) && Present(Word(m, kernelPd, d)) { OneSlot(m, dirs, n, kernelPd, d); }
      ghost var w := MakeTable(page, flags);
      TableAddress(SELF, v);
      var table := (VMM_PAGE_TABLES + 4 * v) / PAGE * PAGE;
      ok := Present(Walk(mem, cr3, table / PAGE));
      if ok {
        Memset(table, FrameOf(w));
      }
      TouchSpaces(m, mem, dirs, n, next, pds, d, w, ok);
    }

    /** page_tables[v] = value, once the table is there */
    method TableSet(v: nat, value: nat)
      requires Valid() && v < EX * WORDS && Present(Word(mem, cr3, v / WORDS))
      modifies this`mem
      ensures Valid() && mem == Put(old(mem), FrameOf(old(Word(mem, cr3, v / WORDS))), v % WORDS, value)
      ensures forall pd, i: nat | pd in dirs :: Word(mem, pd, i) == old(Word(mem, pd, i))
      ensures forall pd, v' | pd in dirs && 0 <= v' < EX * WORDS ::
                Walk(mem, pd, v') == if v' == v && SameTable(old(mem), pd, cr3, v / WORDS) then Shown(value)
                    else old(Walk(mem, pd, v'))
    {
      hide Tree, Apart, Walk;
      assert Tree(mem, cr3, next);
      TreeSelf(mem, cr3, next);
      PutWalks(mem, dirs, next, cr3, v, value);
      SelfWalk(mem, cr3, v);
      TableAddress(SELF, v);
      var _ := Store(VMM_PAGE_TABLES + 4 * v, value);
    }

    /** The touch at the beginning of vmm_page_set shows nowhere, unless it fetches a table and clears it. */
    method TouchSeen(page: nat, value: nat) returns (ok: bool)
      requires Valid() && page < VMM_EXPAGE_TABLES
      modifies this`mem, this`next
      ensures Valid() && next >= old(next)
      ensures ok <==> old(Present(Word(mem, cr3, page / PAGE / WORDS))) || Present(value) || old(Fetched(page))
      ensures forall pd, i: nat | pd in dirs && old(SlotKept(page, pd, i)) :: Word(mem, pd, i) == old(Word(mem, pd, i))
      ensures ok && Master(page) && !old(Present(Word(mem, cr3, page / PAGE / WORDS))) ==>
                SameTable(mem, cr3, kernelPd, page / PAGE / WORDS)
      ensures page < KERNEL_OFFSET || !running ==>
                forall pd, i: nat | pd in dirs && pd != cr3 :: Word(mem, pd, i) == old(Word(mem, pd, i))
      ensures ok ==> Present(Word(mem, cr3, page / PAGE / WORDS))
      ensures forall pd, v | pd in dirs && 0 <= v < EX * WORDS ::
                Walk(mem, pd, v) == if old(Fetched(page)) && v / WORDS == page / PAGE / WORDS
                    && SameTable(mem, pd, cr3, v / WORDS)
                                    then 0 else old(Walk(mem, pd, v))
      ensures old(Present(Word(mem, cr3, page / PAGE / WORDS))) ==> next == old(next) && mem == old(mem)
    {
      hide Tree, Apart, Walk;
      var d := page / PAGE / WORDS;
      ghost var m, n, fetched := mem, next, Fetched(page);
      ok := PageTouch(page, value % PAGE);
      if !Present(Word(m, cr3, d)) {
        ghost var w := if fetched then Word(m, kernelPd, d) else Entry(n, value % PAGE);
        NewTable(m, dirs, n);
        if fetched { OneSlot(m, dirs, n, kernelPd, d); }
        Unwalked(m, dirs);
        TouchWalks(m, mem, dirs, n, if Master(page) && !fetched then {cr3, kernelPd} else {cr3}, d, w, ok);
      }
    }

    /** A slot that setting this page leaves alone: another one, one in use, or one of another directory. */
    predicate SlotKept(page: nat, pd: nat, i: nat)
      reads this
    {
      i != page / PAGE / WORDS || Present(Word(mem, pd, i)) || (pd != cr3 && pd != kernelPd)
    }

    /**
     vmm_page_set. The page gets the entry in the current directory and in those
     that share the table; nothing else changes, unless the table was fetched from
     the kernel's directory: that clears the shared table.
     */
    method PageSet(page: nat, value: nat) returns (ok: bool)
      requires Valid() && page < VMM_EXPAGE_TABLES
      modifies this`mem, this`next
      ensures Valid() && next >= old(next)
      ensures ok <==> old(Present(Word(mem, cr3, page / PAGE / WORDS))) || Present(value) || old(Fetched(page))
      ensures forall pd, i: nat | pd in dirs && old(SlotKept(page, pd, i)) :: Word(mem, pd, i) == old(Word(mem, pd, i))
      ensures ok && page >= KERNEL_OFFSET && running && !old(Present(Word(mem, cr3, page / PAGE / WORDS))) ==>
                SameTable(mem, cr3, kernelPd, page / PAGE / WORDS) && Walk(mem, kernelPd, page / PAGE) == Shown(value)
      ensures page < KERNEL_OFFSET || !running ==>
                forall pd, i: nat | pd in dirs && pd != cr3 :: Word(mem, pd, i) == old(Word(mem, pd, i))
      ensures !ok ==> forall pd, v | pd in dirs && 0 <= v < EX * WORDS :: Walk(mem, pd, v) == old(Walk(mem, pd, v))
      ensures ok ==> Present(Word(mem, cr3, page / PAGE / WORDS))
      ensures ok ==> forall pd, v | pd in dirs && 0 <= v < EX * WORDS ::
                Walk(mem, pd, v) == if v / WORDS != page / PAGE / WORDS
                    || !SameTable(mem, pd, cr3, v / WORDS) then old(Walk(mem, pd, v))
                                    else if v == page / PAGE then Shown(value)
                                    else if old(Fetched(page)) then 0 else old(Walk(mem, pd, v))
      ensures page < KERNEL_OFFSET ==>
                forall pd, v | pd in dirs && pd != cr3 && 0 <= v < EX * WORDS ::
                    Walk(mem, pd, v) == old(Walk(mem, pd, v))
      ensures old(Present(Word(mem, cr3, page / PAGE / WORDS))) ==>
                next == old(next) && mem == Put(old(mem), FrameOf(old(Word(mem, cr3, page / PAGE / WORDS))),
                    page / PAGE % WORDS, value)
    {
      hide Tree, Apart, Walk;
      var v := page / PAGE;
      ghost var d := v / WORDS;
      ok := TouchSeen(page, value);
      if ok {
        TableSet(v, value);
      }
      UserPrivate(mem, dirs, next, cr3, d);
    }

    /** vmm_expage_get returns what the hardware would find under the external directory. */
    method ExpageGet(page: nat) returns (w: nat)
      requires Valid() && page < 0x1_0000_0000
      ensures w == if Word(mem, cr3, EX) == 0 then 0 else Walk(mem, FrameOf(Word(mem, cr3, EX)), page / PAGE)
    {
      hide Tree, Apart;
      assert Tree(mem, cr3, next);
      TreeSelf(mem, cr3, next);
      var loaded := DirGet(EX);
      if loaded == 0 {
        return 0;
      }
      ghost var x := ExLoaded(mem, cr3, dirs, next);
      var v := page / PAGE;
      var pde := ExDirGet(v / WORDS, x);
      if Present(pde) {
        TableAddress(EX, v);
        var pte := Load(VMM_EXPAGE_TABLES + 4 * v);
        if Present(pte) {
          return pte;
        }
      }
      return 0;
    }

    /** vmm_expage_touch; false is a fault inside the kernel. */
    method ExpageTouch(page: nat, flags: nat) returns (ok: bool)
      requires Valid() && page < VMM_EXPAGE_TABLES
      modifies this`mem, this`next
      ensures Valid() && Word(mem, cr3, EX) == old(Word(mem, cr3, EX))
      ensures var d, x := page / PAGE / WORDS, FrameOf(old(Word(mem, cr3, EX)));
              if old(Word(mem, cr3, EX)) == 0 || Present(old(Word(mem, x, d))) then
                  ok && mem == old(mem) && next == old(next)
              else
                && ok == Present(flags) && next == old(next) + 1
                && Touched(old(mem), mem, {x}, d, Entry(old(next), flags), ok)
    {
      hide Tree, Apart;
      assert Tree(mem, cr3, next);
      TreeSelf(mem, cr3, next);
      var v := page / PAGE;
      var d := v / WORDS;
      var loaded := DirGet(EX);
      if loaded == 0 {
        return true;
      }
      ghost var x := ExLoaded(mem, cr3, dirs, next);
      var pde := ExDirGet(d, x);
      if Present(pde) {
        return true;
      }
      ghost var m, n := mem, next;
      NewTable(m, dirs, n);
      var f := AllocPage();
      ExDirSet(d, Entry(f, flags), x);
      TableAddress(EX, v);
      var table := (VMM_EXPAGE_TABLES + 4 * v) / PAGE * PAGE;
      ok := Present(Walk(mem, cr3, table / PAGE));
      if ok {
        Memset(table, f);
      }
      TouchSpaces(m, mem, dirs, n, next, {x}, d, Entry(n, flags), ok);
    }

    /** expage_tables[v] = value; false is a fault. */
    method ExTableSet(v: nat, value: nat) returns (ok: bool)
      requires Valid() && v < EX * WORDS
      modifies this`mem
      ensures Valid() && forall pd, i: nat | pd in dirs :: Word(mem, pd, i) == old(Word(mem, pd, i))
      ensures var x := FrameOf(Word(mem, cr3, EX));
              && (ok <==> Word(mem, cr3, EX) != 0 && Present(Word(mem, x, v / WORDS)))
              && (!ok ==> mem == old(mem))
              && (ok ==> forall pd, v' | pd in dirs && 0 <= v' < EX * WORDS ::
                    Walk(mem, pd, v') == if v' == v && SameTable(mem, pd, x, v / WORDS) then Shown(value)
                        else old(Walk(mem, pd, v')))
    {
      hide Tree, Apart, Walk;
      assert Tree(mem, cr3, next);
      TableAddress(EX, v);
      ExWalk(mem, cr3, v);
      if Word(mem, cr3, EX) != 0 {
        ghost var x := ExLoaded(mem, cr3, dirs, next);
        if Present(Word(mem, x, v / WORDS)) { PutWalks(mem, dirs, next, x, v, value); }
      }
      ok := Store(VMM_EXPAGE_TABLES + 4 * v, value);
    }

    /** The touch at the beginning of vmm_expage_set shows nowhere yet. */
    method ExTouchQuiet(page: nat, value: nat) returns (ok: bool)
      requires Valid() && page < VMM_EXPAGE_TABLES
      modifies this`mem, this`next
      ensures Valid() && next >= old(next) && forall pd | pd in dirs :: Word(mem, pd, EX) == old(Word(mem, pd, EX))
      ensures forall pd, v | pd in dirs && 0 <= v < EX * WORDS :: Walk(mem, pd, v) == old(Walk(mem, pd, v))
      ensures Word(mem, cr3, EX) == old(Word(mem, cr3, EX))
      ensures var x, d := FrameOf(Word(mem, cr3, EX)), page / PAGE / WORDS;
              if Word(mem, cr3, EX) == 0 then ok
              else (ok <==> Present(old(Word(mem, x, d))) || Present(value)) && (ok ==> Present(Word(mem, x, d)))
    {
      hide Tree, Apart, Walk;
      ghost var d, m, n, x := page / PAGE / WORDS, mem, next, FrameOf(Word(mem, cr3, EX));
      ok := ExpageTouch(page, value % PAGE);
      if Word(m, cr3, EX) != 0 && !Present(Word(m, x, d)) {
        NewTable(m, dirs, n);
        Unwalked(m, dirs);
        TouchWalks(m, mem, dirs, n, {x}, d, Entry(n, value % PAGE), ok);
      }
    }

    /** vmm_expage_set, for the directory that vmm_exdir_set has loaded. */
    method ExpageSet(page: nat, value: nat) returns (ok: bool)
      requires Valid() && page < VMM_EXPAGE_TABLES
      modifies this`mem, this`next
      ensures Valid() && next >= old(next) && forall pd | pd in dirs :: Word(mem, pd, EX) == old(Word(mem, pd, EX))
      ensures var x, d := FrameOf(Word(mem, cr3, EX)), page / PAGE / WORDS;
              && (ok <==> Word(mem, cr3, EX) != 0 && (Present(old(Word(mem, x, d))) || Present(value)))
              && (!ok ==> forall pd, v | pd in dirs && 0 <= v < EX * WORDS :: Walk(mem, pd, v) == old(Walk(mem, pd, v)))
              && (ok ==> forall pd, v | pd in dirs && 0 <= v < EX * WORDS ::
                    Walk(mem, pd, v) == if v == page / PAGE && SameTable(mem, pd, x, d) then Shown(value)
                        else old(Walk(mem, pd, v)))
      ensures page < KERNEL_OFFSET ==>
                forall pd, v | pd in dirs && pd != FrameOf(Word(mem, cr3, EX)) && 0 <= v < EX * WORDS ::
                  Walk(mem, pd, v) == old(Walk(mem, pd, v))
      ensures ok ==> SameTable(mem, FrameOf(Word(mem, cr3, EX)), FrameOf(Word(mem, cr3, EX)), page / PAGE / WORDS)
    {
      hide Tree, Apart, Walk;
      var v := page / PAGE;
      ghost var d, x := v / WORDS, FrameOf(Word(mem, cr3, EX));
      ok := ExTouchQuiet(page, value);
      if ok {
        ok := ExTableSet(v, value);
      }
      assert cr3 in dirs by { TempSelf(mem, cr3, kernelPd, dirs, next); }
      if x in dirs { UserPrivate(mem, dirs, next, x, d); }
    }

    /** The two temporary pages have a table, and their entries can be put back. */
    predicate TempOk()
      reads this
    {
      var t := Word(mem, cr3, TEMP);
      Present(t) && Kept(Word(mem, FrameOf(t), 1022)) && Kept(Word(mem, FrameOf(t), 1023))
    }

    /** vmm_page_set of VMM_TEMP1 (word 1023 of its table) or VMM_TEMP2 (word 1022). */
    method TempSet(page: nat, value: nat)
      requires Valid() && Present(Word(mem, cr3, TEMP)) && (page == VMM_TEMP1 || page == VMM_TEMP2)
      modifies this`mem, this`next
      ensures Valid() && next == old(next)
      ensures mem == Put(old(mem), FrameOf(old(Word(mem, cr3, TEMP))), page / PAGE % WORDS, value)
    {
      hide Sound, Walk, SameTable;
      var _ := PageSet(page, value);
    }

    /** memcpy((void *)VMM_TEMP2, (const void *)VMM_TEMP1, PAGE_SIZE) */
    method Memcpy(ghost src: nat, ghost dst: nat, ghost t: nat)
      requires Present(Word(mem, cr3, TEMP)) && FrameOf(Word(mem, cr3, TEMP)) == t
      requires Word(mem, t, 1023) == Entry(src, 3) && Word(mem, t, 1022) == Entry(dst, 3)
      requires dst != src && dst != cr3 && dst != t
      modifies this`mem
      ensures Copied(old(mem), mem, src, dst, WORDS)
    {
      var i := 0;
      while i < WORDS
        invariant i <= WORDS && Copied(old(mem), mem, src, dst, i)
      {
        PageAddress(VMM_TEMP1, i);
        PageAddress(VMM_TEMP2, i);
        var w := Load(VMM_TEMP1 + 4 * i);
        var _ := Store(VMM_TEMP2 + 4 * i, w);
        i := i + 1;
      }
    }

    /** vmm_copy_page: one frame is copied, and both temporary pages are as before. */
    method CopyPage(src: nat, dst: nat)
      requires Valid() && TempOk() && dst !in dirs && dst != src
      requires src != FrameOf(Word(mem, cr3, TEMP)) && dst != FrameOf(Word(mem, cr3, TEMP))
      modifies this`mem, this`next
      ensures Valid() && next == old(next) && Copied(old(mem), mem, src, dst, WORDS)
    {
      hide Sound, Walk;
      ghost var m, t := mem, FrameOf(Word(mem, cr3, TEMP));
      TempFacts();
      var oldTemp1 := PageGet(VMM_TEMP1);
      var oldTemp2 := PageGet(VMM_TEMP2);
      TempWalk(mem, cr3);
      TempSet(VMM_TEMP1, Entry(src, PAGE_PRESENT + PAGE_WRITE));
      TempSet(VMM_TEMP2, Entry(dst, PAGE_PRESENT + PAGE_WRITE));
      ghost var m' := mem;
      Memcpy(src, dst, t);
      ValidStays(m', mem, cr3, kernelPd, dirs, next);
      ghost var m2 := mem;
      TempSet(VMM_TEMP1, oldTemp1);
      TempSet(VMM_TEMP2, oldTemp2);
      CopyWords(m, m', m2, mem, src, dst, t);
    }

    lemma TempFacts()
      requires Valid() && Present(Word(mem, cr3, TEMP))
      ensures FrameOf(Word(mem, cr3, TEMP)) != cr3 && FrameOf(Word(mem, cr3, TEMP)) !in dirs && cr3 in dirs
              && cr3 < next
      ensures FrameOf(Word(mem, cr3, TEMP)) < next
      ensures Present(Word(mem, cr3, SELF)) && FrameOf(Word(mem, cr3, SELF)) == cr3
    {
      OneSlot(mem, dirs, next, cr3, TEMP);
      assert Tree(mem, cr3, next);
    }

    /** vmm_new_pd: an empty directory whose last slot is itself. */
    method NewPd() returns (pd: nat)
      requires Valid() && TempOk()
      modifies this`mem, this`next, this`dirs
      ensures Valid() && pd == old(next) && next == old(next) + 1 && dirs == old(dirs) + {pd}
      ensures EmptyPd(old(mem), mem, pd)
    {
      hide Sound, Walk;
      TempFacts();
      TempWalk(mem, cr3);
      NewPdFresh(mem, cr3, kernelPd, dirs, next);
      ghost var m, n, t := mem, next, FrameOf(Word(mem, cr3, TEMP));
      pd := AllocPage();
      ValidLater(mem, cr3, kernelPd, dirs, n, next);
      var was := PageGet(VMM_TEMP1);
      TempSet(VMM_TEMP1, Entry(pd, PAGE_PRESENT + PAGE_WRITE));
      TempWalk(mem, cr3);
      Memset(VMM_TEMP1, pd);
      EmptyWords(m, mem, t, pd, dirs);
      TempWalk(mem, cr3);
      var _ := Store(VMM_TEMP1 + 4 * SELF, Entry(pd, PAGE_PRESENT + PAGE_WRITE));
      ValidStays(m, mem, cr3, kernelPd, dirs, next);
      TempSet(VMM_TEMP1, was);
      ValidMore(m, mem, cr3, kernelPd, dirs, n, pd);
      dirs := dirs + {pd};
    }

    /** One turn of the first loop of vmm_clone_pd. */
    method CloneTable(d: nat, pd: nat, ghost m0: Mem)
      requires Valid() && TempOk() && d < USER && Cloned(m0, mem, cr3, pd, next, d) && Kept(Word(m0, cr3, d))
      requires cr3 < pd && pd in dirs && FrameOf(Word(mem, cr3, TEMP)) < pd
      requires Present(Word(m0, cr3, d)) ==> FrameOf(Word(m0, cr3, d)) < pd && FrameOf(Word(m0, cr3, d)) != cr3
      modifies this`mem, this`next
      ensures Valid() && TempOk() && next >= old(next) && Cloned(m0, mem, cr3, pd, next, d + 1)
    {
      hide Sound, Tree, Apart, Walk, ClonedSlot;
      TempFacts();
      ghost var m, n := mem, next;
      LoadedSelf(mem, cr3, kernelPd, dirs, next, pd);
      var w := DirGet(d);
      if w != 0 {
        CloneFacts(m, cr3, kernelPd, dirs, n, d);
        var f := AllocPage();
        ExDirSet(d, Entry(f, w), pd);
        PutWords(m, pd, d, Entry(f, w));
        CloneSound(m, mem, cr3, kernelPd, dirs, n, pd, d, Entry(f, w));
        ghost var m1 := mem;
        var from := DirGet(d);
        LoadedSelf(mem, cr3, kernelPd, dirs, next, pd);
        var into := ExDirGet(d, pd);
        CopyPage(FrameOf(from), FrameOf(into));
        CloneWords(m0, m, m1, mem, cr3, pd, n, d, f, w);
      } else {
        EmptySlot(m0, mem, cr3, pd, next, d);
      }
    }

    /** The second loop of vmm_clone_pd: the kernel's tables are shared. */
    method ShareKernel(pd: nat, ghost m0: Mem)
      requires Valid() && Cloned(m0, mem, cr3, pd, next, USER) && cr3 < pd && pd in dirs
      requires forall d: nat | d < EX :: Word(mem, cr3, d) == Word(m0, cr3, d)
      modifies this`mem
      ensures Valid() && Shared(m0, mem, cr3, pd, next, EX)
    {
      hide Sound, Tree, Apart, Walk, ClonedSlot;
      CloneShared(m0, mem, cr3, pd, next);
      var d := USER;
      while d < EX
        invariant USER <= d <= EX && Valid() && Shared(m0, mem, cr3, pd, next, d)
      {
        ghost var m := mem;
        LoadedSelf(mem, cr3, kernelPd, dirs, next, pd);
        assert Word(mem, cr3, d) == Word(m0, cr3, d);
        TempSelf(mem, cr3, kernelPd, dirs, next);
        var w := DirGet(d);
        ExDirSet(d, w, pd);
        PutWords(m, pd, d, w);
        ShareSound(m, mem, cr3, kernelPd, dirs, next, pd, d);
        ShareWords(m0, m, mem, cr3, pd, next, d);
        d := d + 1;
      }
    }

    /**
     vmm_clone_pd: the same walk for every user page through tables of its own,
     the kernel's tables shared, and everything that was in memory left as it was.
     */
    method ClonePd() returns (pd: nat)
      requires Valid() && TempOk() && forall d: nat | d < USER :: Kept(Word(mem, cr3, d))
      modifies this`mem, this`next, this`dirs
      ensures Valid() && pd == old(next) && next > pd && dirs == old(dirs) + {pd} && pd !in old(dirs)
      ensures forall f: nat, i: nat | f < old(next) :: Word(mem, f, i) == old(Word(mem, f, i))
      ensures forall v: nat | v < USER * WORDS :: Walk(mem, pd, v) == old(Walk(mem, cr3, v))
      ensures forall d: nat | d < USER && Present(Word(mem, pd, d)) :: FrameOf(Word(mem, pd, d)) > old(next)
      ensures forall d: nat | USER <= d < EX :: Word(mem, pd, d) == old(Word(mem, cr3, d))
      ensures Word(mem, pd, EX) == 0 && Present(Word(mem, pd, SELF)) && FrameOf(Word(mem, pd, SELF)) == pd
    {
      hide Sound, Tree, Apart, Walk, ClonedSlot;
      ghost var m0, n0 := mem, next;
      TempSelf(mem, cr3, kernelPd, dirs, next);
      TablesBelow(mem, cr3, kernelPd, dirs, next);
      NewPdFresh(mem, cr3, kernelPd, dirs, next);
      pd := NewPd();
      ghost var m1 := mem;
      FillPd(pd, m0, n0);
      PdSelf(mem, cr3, kernelPd, dirs, next, pd);
    }

    /** vmm_clone_pd from the point where the new directory is loaded in the external slot. */
    method FillPd(pd: nat, ghost m0: Mem, ghost n0: nat)
      requires Valid() && EmptyPd(m0, mem, pd) && cr3 < pd == n0 && next == pd + 1 && pd in dirs
      requires var t := Word(m0, cr3, TEMP);
               Present(t) && Kept(Word(m0, FrameOf(t), 1022)) && Kept(Word(m0, FrameOf(t), 1023))
      requires forall d: nat | d < USER :: Kept(Word(m0, cr3, d))
      requires forall d: nat | d < EX && Present(Word(m0, cr3, d)) ::
               FrameOf(Word(m0, cr3, d)) < pd && FrameOf(Word(m0, cr3, d)) != cr3
      modifies this`mem, this`next
      ensures Valid() && next > pd
      ensures forall f: nat, i: nat | f < n0 :: Word(mem, f, i) == Word(m0, f, i)
      ensures forall v: nat | v < USER * WORDS :: Walk(mem, pd, v) == Walk(m0, cr3, v)
      ensures forall d: nat | d < USER && Present(Word(mem, pd, d)) :: FrameOf(Word(mem, pd, d)) > n0
      ensures forall d: nat | USER <= d < EX :: Word(mem, pd, d) == Word(m0, cr3, d)
      ensures Word(mem, pd, EX) == 0
    {
      hide Sound, Tree, Apart, Walk, ClonedSlot;
      ghost var m1 := mem;
      TempSelf(mem, cr3, kernelPd, dirs, next);
      var oldExdir := ExdirSet(pd);
      LoadSound(m1, mem, cr3, kernelPd, dirs, next, pd);
      CloneStart(m0, m1, mem, cr3, pd, next);
      var d := 0;
      while d < USER
        invariant d <= USER && next > pd && Valid() && TempOk() && Cloned(m0, mem, cr3, pd, next, d)
        invariant FrameOf(Word(mem, cr3, TEMP)) < pd
      {
        CloneTable(d, pd, m0);
        d := d + 1;
      }
      ShareKernel(pd, m0);
      TempSelf(mem, cr3, kernelPd, dirs, next);
      ghost var m2 := mem;
      oldExdir := ExdirSet(oldExdir);
      UnloadSound(m0, m1, m2, mem, cr3, kernelPd, dirs, next);
      CloneDone(m0, m2, mem, cr3, pd, n0, next);
    }

    /** Is the missing table of this page one the kernel's own directory has? */
    predicate Fetched(page: nat)
      reads this
    {
      Master(page) && !Present(Word(mem, cr3, page / PAGE / WORDS)) && Present(Word(mem, kernelPd, page / PAGE / WORDS))
    }

    predicate Master(page: nat)
      reads this
    {
      page >= KERNEL_OFFSET && running
    }
  }
  
  /** Frame `f` holds zeros up to word `n`; nothing else has changed. */
  ghost predicate Zeroed(m: Mem, m': Mem, f: nat, n: nat) {
    forall g: nat, i: nat :: Word(m', g, i) == if g == f && i < n then 0 else Word(m, g, i)
  }

  /** Slot `d` of these directories holds `w`, and the table it names may have been cleared. */
  ghost predicate Touched(m: Mem, m': Mem, pds: set<nat>, d: nat, w: nat, cleared: bool) {
    forall g: nat, i: nat :: Word(m', g, i) == if cleared && g == FrameOf(w) && i < WORDS then 0
                                     else if g in pds && i == d then w else Word(m, g, i)
  }

  lemma TreeSelf(m: Mem, pd: nat, next: nat)
    requires Tree(m, pd, next)
    ensures 0 < pd < next && Present(Word(m, pd, SELF)) && FrameOf(Word(m, pd, SELF)) == pd
  {}

  /** The words that change while the kernel's directory is loaded and unloaded again. */
  lemma KernelWords(m: Mem, cr3: nat, k: nat, d: nat, w: nat, loaded: nat)
    requires d < EX
    ensures var m1, was := Put(Put(m, cr3, EX, loaded), cr3, d, w), Word(m, cr3, EX);
            && Touched(m, Put(m1, cr3, EX, was), {cr3}, d, w, false)
            && Touched(m, Put(Put(m1, k, d, w), cr3, EX, was), {cr3, k}, d, w, false)
  {
    var m0, was := Put(m, cr3, EX, loaded), Word(m, cr3, EX);
    var m1 := Put(m0, cr3, d, w);
    PutWords(m, cr3, EX, loaded);
    PutWords(m0, cr3, d, w);
    PutWords(m1, cr3, EX, was);
    PutWords(m1, k, d, w);
    PutWords(Put(m1, k, d, w), cr3, EX, was);
    hide Word, Put;
  }

  /** vmm_exdir_set puts back what it returned. */
  lemma Reloaded(w: nat, dirs: set<nat>)
    requires ExOk(w, dirs)
    ensures w == if FrameOf(w) != 0 then Entry(FrameOf(w), 3) else 0
  {}

  lemma NewTable(m: Mem, dirs: set<nat>, next: nat)
    requires Spaces(m, dirs, next)
    ensures next !in dirs && 0 !in dirs
    ensures forall p, e | p in dirs && 0 <= e < EX && Present(Word(m, p, e)) :: FrameOf(Word(m, p, e)) < next
  {
    assert forall p | p in dirs :: Tree(m, p, next);
  }

  /** All directories that use a table use it in the same slot. */
  lemma OneSlot(m: Mem, dirs: set<nat>, next: nat, k: nat, d: nat)
    requires Spaces(m, dirs, next) && k in dirs && d < EX && Present(Word(m, k, d))
    ensures 0 < FrameOf(Word(m, k, d)) < next && FrameOf(Word(m, k, d)) !in dirs
    ensures forall p, e | p in dirs && 0 <= e < EX && Present(Word(m, p, e))
            && FrameOf(Word(m, p, e)) == FrameOf(Word(m, k, d)) :: e == d
  {
    assert Tree(m, k, next);
    forall p, e | p in dirs && 0 <= e < EX && Present(Word(m, p, e))
        && FrameOf(Word(m, p, e)) == FrameOf(Word(m, k, d)) ensures e == d {
      if p == k {
        assert e < d || e == d || d < e;
      } else {
        assert Apart(m, k, p);
      }
    }
    forall p | p in dirs ensures p != FrameOf(Word(m, k, d)) {
      if p != k { assert Apart(m, k, p); }
    }
  }

  /** Two directories use one table for slot `d`. */
  predicate SameTable(m: Mem, pd: nat, pd': nat, d: nat) {
    Present(Word(m, pd, d)) && Present(Word(m, pd', d)) && FrameOf(Word(m, pd, d)) == FrameOf(Word(m, pd', d))
  }

  /** The last slot shows each table as a page. */
  lemma SelfWalk(m: Mem, pd: nat, v: nat)
    requires Present(Word(m, pd, SELF)) && FrameOf(Word(m, pd, SELF)) == pd && v < WORDS * WORDS
    ensures Walk(m, pd, SELF * WORDS + v / WORDS) == Shown(Word(m, pd, v / WORDS))
  {}

  lemma PutWalk(m: Mem, dirs: set<nat>, next: nat, k: nat, v: nat, value: nat, pd: nat, v': nat)
    requires Spaces(m, dirs, next) && k in dirs && pd in dirs && v < EX * WORDS && v' < EX * WORDS
             && Present(Word(m, k, v / WORDS))
    ensures Walk(Put(m, FrameOf(Word(m, k, v / WORDS)), v % WORDS, value), pd, v')
            == if v' == v && SameTable(m, pd, k, v / WORDS) then Shown(value) else Walk(m, pd, v')
  {
    OneSlot(m, dirs, next, k, v / WORDS);
  }

  /** A store into a table shows at its page, in the directories that use the table. */
  lemma PutWalks(m: Mem, dirs: set<nat>, next: nat, k: nat, v: nat, value: nat)
    requires Spaces(m, dirs, next) && k in dirs && v < EX * WORDS && Present(Word(m, k, v / WORDS))
    ensures var m' := Put(m, FrameOf(Word(m, k, v / WORDS)), v % WORDS, value);
            && Spaces(m', dirs, next) && (forall pd, i: nat | pd in dirs :: Word(m', pd, i) == Word(m, pd, i))
            && forall pd, v' | pd in dirs && 0 <= v' < EX * WORDS ::
                 Walk(m', pd, v') == if v' == v && SameTable(m, pd, k, v / WORDS) then Shown(value) else Walk(m, pd, v')
  {
    hide Walk;
    OneSlot(m, dirs, next, k, v / WORDS);
    var m' := Put(m, FrameOf(Word(m, k, v / WORDS)), v % WORDS, value);
    forall pd, v' | pd in dirs && 0 <= v' < EX * WORDS
      ensures Walk(m', pd, v') == if v' == v && SameTable(m, pd, k, v / WORDS) then Shown(value) else Walk(m, pd, v')
    {
      PutWalk(m, dirs, next, k, v, value, pd, v');
    }
    SameWords(m, m', dirs, next);
  }

  lemma SameWords(m: Mem, m': Mem, dirs: set<nat>, next: nat)
    requires Spaces(m, dirs, next) && forall pd, i: nat | pd in dirs && i < WORDS :: Word(m', pd, i) == Word(m, pd, i)
    ensures Spaces(m', dirs, next)
  {
    forall pd | pd in dirs ensures Tree(m', pd, next) { assert Tree(m, pd, next); }
    forall pd, pd' | pd in dirs && pd' in dirs && pd != pd' ensures Apart(m', pd, pd') { assert Apart(m, pd, pd'); }
  }

  lemma TouchWalk(m: Mem, m': Mem, dirs: set<nat>, pds: set<nat>, d: nat, w: nat, cleared: bool, pd: nat, v: nat)
    requires pds <= dirs && d < EX && Touched(m, m', pds, d, w, cleared) && FrameOf(w) !in dirs && pd in dirs
             && v < EX * WORDS
    requires (pd in pds ==> !Present(Word(m, pd, d))) && (cleared || !Present(w))
    requires Present(Word(m, pd, v / WORDS)) && FrameOf(Word(m, pd, v / WORDS)) == FrameOf(w) ==> v / WORDS == d
    requires Present(Word(m, pd, v / WORDS)) ==> FrameOf(Word(m, pd, v / WORDS)) !in dirs
    ensures Walk(m', pd, v) == if cleared && v / WORDS == d && Present(Word(m', pd, d))
            && FrameOf(Word(m', pd, d)) == FrameOf(w) then 0
                               else Walk(m, pd, v)
  {
    assert Word(m', pd, v / WORDS) == if pd in pds && v / WORDS == d then w else Word(m, pd, v / WORDS);
  }

  /** Clearing a table clears it for all its users; a table nobody had shows nothing yet. */
  lemma TouchWalks(m: Mem, m': Mem, dirs: set<nat>, next: nat, pds: set<nat>, d: nat, w: nat, cleared: bool)
    requires Spaces(m, dirs, next) && pds <= dirs && d < EX && Touched(m, m', pds, d, w, cleared) && FrameOf(w) !in dirs
    requires (forall p | p in pds :: !Present(Word(m, p, d))) && (cleared || !Present(w))
    requires forall p, e | p in dirs && 0 <= e < EX && Present(Word(m, p, e))
             && FrameOf(Word(m, p, e)) == FrameOf(w) :: e == d
    ensures forall pd, v | pd in dirs && 0 <= v < EX * WORDS ::
              Walk(m', pd, v) == if cleared && v / WORDS == d && Present(Word(m', pd, d))
                  && FrameOf(Word(m', pd, d)) == FrameOf(w) then 0
                                 else Walk(m, pd, v)
    ensures forall pd, i: nat | pd in dirs :: Word(m', pd, i) == if pd in pds && i == d then w else Word(m, pd, i)
  {
    hide Walk;
    forall pd, v | pd in dirs && 0 <= v < EX * WORDS
      ensures Walk(m', pd, v) == if cleared && v / WORDS == d && Present(Word(m', pd, d))
              && FrameOf(Word(m', pd, d)) == FrameOf(w) then 0
                                 else Walk(m, pd, v)
    {
      if Present(Word(m, pd, v / WORDS)) { OneSlot(m, dirs, next, pd, v / WORDS); }
      TouchWalk(m, m', dirs, pds, d, w, cleared, pd, v);
    }
  }

  lemma Unwalked(m: Mem, dirs: set<nat>)
    ensures forall pd, v: nat | pd in dirs && !Present(Word(m, pd, v / WORDS)) :: Walk(m, pd, v) == 0
  {}

  /** The external slot shows the tables of the loaded directory as pages. */
  lemma ExWalk(m: Mem, cr3: nat, v: nat)
    requires v < WORDS * WORDS
    ensures Walk(m, cr3, EX * WORDS + v / WORDS)
            == if Present(Word(m, cr3, EX)) then Shown(Word(m, FrameOf(Word(m, cr3, EX)), v / WORDS)) else 0
  {}

  lemma ExLoaded(m: Mem, cr3: nat, dirs: set<nat>, next: nat) returns (x: nat)
    requires Spaces(m, dirs, next) && ExOk(Word(m, cr3, EX), dirs) && Word(m, cr3, EX) != 0
    ensures x == FrameOf(Word(m, cr3, EX)) && x in dirs && Present(Word(m, cr3, EX))
    ensures Present(Word(m, x, SELF)) && FrameOf(Word(m, x, SELF)) == x
  {
    x := FrameOf(Word(m, cr3, EX));
    assert Tree(m, x, next);
  }

  /** An entry that vmm_page_get reports as it is. */
  predicate Kept(w: nat) { w == 0 || Present(w) }

  /** The first `n` words of one frame have been copied to another. */
  ghost predicate Copied(m: Mem, m': Mem, src: nat, dst: nat, n: nat) {
    forall g: nat, i: nat :: Word(m', g, i) == if g == dst && i < n then Word(m, src, i) else Word(m, g, i)
  }

  lemma ValidStays(m: Mem, m': Mem, cr3: nat, kernelPd: nat, dirs: set<nat>, next: nat)
    requires Sound(m, cr3, kernelPd, dirs, next)
    requires forall pd, i: nat | pd in dirs && i < WORDS :: Word(m', pd, i) == Word(m, pd, i)
    ensures Sound(m', cr3, kernelPd, dirs, next)
  {
    SameWords(m, m', dirs, next);
  }

  lemma TempWalk(m: Mem, cr3: nat)
    requires Present(Word(m, cr3, TEMP))
    ensures var t := FrameOf(Word(m, cr3, TEMP));
            && Walk(m, cr3, VMM_TEMP1 / PAGE) == Shown(Word(m, t, 1023))
            && Walk(m, cr3, VMM_TEMP2 / PAGE) == Shown(Word(m, t, 1022))
  {}

  lemma CopyWords(m: Mem, m1: Mem, m2: Mem, m3: Mem, src: nat, dst: nat, t: nat)
    requires m1 == Put(Put(m, t, 1023, Entry(src, 3)), t, 1022, Entry(dst, 3)) && Copied(m1, m2, src, dst, WORDS)
    requires m3 == Put(Put(m2, t, 1023, Word(m, t, 1023)), t, 1022, Word(m, t, 1022)) && src != t && dst != t
    ensures Copied(m, m3, src, dst, WORDS)
  {
    PutWords(m, t, 1023, Entry(src, 3));
    PutWords(Put(m, t, 1023, Entry(src, 3)), t, 1022, Entry(dst, 3));
    PutWords(m2, t, 1023, Word(m, t, 1023));
    PutWords(Put(m2, t, 1023, Word(m, t, 1023)), t, 1022, Word(m, t, 1022));
    hide Word, Put;
  }

  lemma PutWords(m: Mem, f: nat, k: nat, w: nat)
    ensures forall g: nat, i: nat :: Word(Put(m, f, k, w), g, i) == if g == f && i == k then w else Word(m, g, i)
  {}

  /** Frame `pd` holds an empty directory; nothing else has changed. */
  ghost predicate EmptyPd(m: Mem, m': Mem, pd: nat) {
    forall g: nat, i: nat :: Word(m', g, i) == if g == pd && i < WORDS then (if i == SELF then Entry(pd, 3) else 0)
        else Word(m, g, i)
  }

  lemma EmptyWords(m: Mem, mz: Mem, t: nat, pd: nat, dirs: set<nat>)
    requires Zeroed(Put(m, t, 1023, Entry(pd, 3)), mz, pd, WORDS) && t != pd && t !in dirs && pd !in dirs
    ensures forall p, i: nat | p in dirs && i < WORDS :: Word(Put(mz, pd, SELF, Entry(pd, 3)), p, i) == Word(m, p, i)
    ensures EmptyPd(m, Put(Put(mz, pd, SELF, Entry(pd, 3)), t, 1023, Word(m, t, 1023)), pd)
  {
    PutWords(m, t, 1023, Entry(pd, 3));
    PutWords(mz, pd, SELF, Entry(pd, 3));
    PutWords(Put(mz, pd, SELF, Entry(pd, 3)), t, 1023, Word(m, t, 1023));
    hide Word, Put;
  }

  lemma NewPdFresh(m: Mem, cr3: nat, kernelPd: nat, dirs: set<nat>, next: nat)
    requires Sound(m, cr3, kernelPd, dirs, next)
    ensures next !in dirs && next > 0
  {
    assert Tree(m, cr3, next);
    assert forall p | p in dirs :: Tree(m, p, next);
  }

  lemma ValidLater(m: Mem, cr3: nat, kernelPd: nat, dirs: set<nat>, next: nat, next': nat)
    requires Sound(m, cr3, kernelPd, dirs, next) && next <= next'
    ensures Sound(m, cr3, kernelPd, dirs, next')
  {
    forall p | p in dirs ensures Tree(m, p, next') { assert Tree(m, p, next); }
  }

  /** An empty directory is apart from all others. */
  lemma ValidMore(m: Mem, m': Mem, cr3: nat, kernelPd: nat, dirs: set<nat>, next: nat, pd: nat)
    requires Sound(m, cr3, kernelPd, dirs, next) && EmptyPd(m, m', pd) && pd == next
    ensures Sound(m', cr3, kernelPd, dirs + {pd}, next + 1)
  {
    NewTable(m, dirs, next);
    assert forall p, i: nat | p in dirs :: Word(m', p, i) == Word(m, p, i);
    assert forall d | 0 <= d < EX :: !Present(Word(m', pd, d));
    forall p | p in dirs ensures Tree(m', p, next + 1) && Apart(m', p, pd) && Apart(m', pd, p) {
      assert Tree(m, p, next);
    }
    forall p, q | p in dirs && q in dirs && p != q ensures Apart(m', p, q) { assert Apart(m, p, q); }
    assert Tree(m', pd, next + 1);
  }

  /** Slot `d` of the new directory: empty, or a fresh table with what the old one holds. */
  ghost predicate ClonedSlot(m0: Mem, m: Mem, cr3: nat, pd: nat, next: nat, d: nat) {
    var w, c := Word(m0, cr3, d), Word(m, pd, d);
    if w == 0 then c == 0
    else Present(c) && pd < FrameOf(c) < next && forall i: nat | i < WORDS ::
        Word(m, FrameOf(c), i) == Word(m0, FrameOf(w), i)
  }

  /** The user slots below `n` are cloned, the others still empty, and no older frame has changed. */
  ghost predicate Cloned(m0: Mem, m: Mem, cr3: nat, pd: nat, next: nat, n: nat) {
    && (forall f: nat, i: nat | f < pd && (f != cr3 || i != EX) :: Word(m, f, i) == Word(m0, f, i))
    && Word(m, cr3, EX) == Entry(pd, 3)
    && (forall d: nat | d < n :: ClonedSlot(m0, m, cr3, pd, next, d))
    && (forall d: nat | n <= d < SELF :: Word(m, pd, d) == 0)
  }

  lemma EmptySlot(m0: Mem, m: Mem, cr3: nat, pd: nat, next: nat, d: nat)
    requires Word(m0, cr3, d) == 0 && Word(m, pd, d) == 0
    ensures ClonedSlot(m0, m, cr3, pd, next, d)
  {}

  lemma LoadedSelf(m: Mem, cr3: nat, kernelPd: nat, dirs: set<nat>, next: nat, pd: nat)
    requires Sound(m, cr3, kernelPd, dirs, next) && pd in dirs && Word(m, cr3, EX) == Entry(pd, 3)
    ensures Present(Word(m, cr3, EX)) && FrameOf(Word(m, cr3, EX)) == pd && pd < next
    ensures Present(Word(m, pd, SELF)) && FrameOf(Word(m, pd, SELF)) == pd
  {
    assert Tree(m, pd, next);
  }

  lemma CloneFacts(m: Mem, cr3: nat, kernelPd: nat, dirs: set<nat>, next: nat, d: nat)
    requires Sound(m, cr3, kernelPd, dirs, next) && d < USER
    ensures next !in dirs && (Present(Word(m, cr3, TEMP)) ==> FrameOf(Word(m, cr3, TEMP)) < next)
    ensures Present(Word(m, cr3, d)) && Present(Word(m, cr3, TEMP)) ==>
            FrameOf(Word(m, cr3, d)) != FrameOf(Word(m, cr3, TEMP))
    ensures Present(Word(m, cr3, d)) ==> FrameOf(Word(m, cr3, d)) < next
  {
    assert Tree(m, cr3, next);
    NewTable(m, dirs, next);
  }

  lemma CloneSound(m: Mem, m': Mem, cr3: nat, kernelPd: nat, dirs: set<nat>, next: nat, pd: nat, d: nat, w: nat)
    requires Sound(m, cr3, kernelPd, dirs, next) && pd in dirs && pd != cr3 && d < USER && m' == Put(m, pd, d, w)
    requires FrameOf(w) == next && !Present(Word(m, pd, d))
    ensures Sound(m', cr3, kernelPd, dirs, next + 1)
  {
    PutWords(m, pd, d, w);
    NewTable(m, dirs, next);
    TouchSpaces(m, m', dirs, next, next + 1, {pd}, d, w, false);
  }

  lemma CloneWords(m0: Mem, m: Mem, m1: Mem, m2: Mem, cr3: nat, pd: nat, next: nat, d: nat, f: nat, w: nat)
    requires Cloned(m0, m, cr3, pd, next, d) && d < USER && f == next && pd < next && w == Word(m0, cr3, d) && w != 0
             && Present(w)
    requires FrameOf(w) < pd && FrameOf(w) != cr3 && cr3 < pd && m1 == Put(m, pd, d, Entry(f, w))
             && Copied(m1, m2, FrameOf(w), f, WORDS)
    ensures Cloned(m0, m2, cr3, pd, next + 1, d + 1)
  {
    PutWords(m, pd, d, Entry(f, w));
    hide Word, Put;
    var n := next + 1;
    forall e: nat | e <= d ensures ClonedSlot(m0, m2, cr3, pd, n, e) {
      if e < d {
        SlotStays(m0, m, m2, cr3, pd, next, e);
      } else {
        assert Word(m1, pd, d) == Entry(f, w) && Word(m2, pd, d) == Entry(f, w);
        forall i: nat | i < WORDS ensures Word(m2, f, i) == Word(m0, FrameOf(w), i) {
          assert Word(m1, FrameOf(w), i) == Word(m, FrameOf(w), i);
        }
      }
    }
    assert forall g: nat, i: nat | g < next && g != pd :: Word(m2, g, i) == Word(m, g, i);
  }

  lemma SlotStays(m0: Mem, m: Mem, m2: Mem, cr3: nat, pd: nat, next: nat, e: nat)
    requires ClonedSlot(m0, m, cr3, pd, next, e) && Word(m2, pd, e) == Word(m, pd, e)
    requires forall g: nat, i: nat | g < next && g != pd :: Word(m2, g, i) == Word(m, g, i)
    ensures ClonedSlot(m0, m2, cr3, pd, next + 1, e)
  {}

  /** As Cloned, with the kernel's slots below `n` shared. */
  ghost predicate Shared(m0: Mem, m: Mem, cr3: nat, pd: nat, next: nat, n: nat) {
    && (forall f: nat, i: nat | f < pd && (f != cr3 || i != EX) :: Word(m, f, i) == Word(m0, f, i))
    && Word(m, cr3, EX) == Entry(pd, 3)
    && (forall d: nat | d < USER :: ClonedSlot(m0, m, cr3, pd, next, d))
    && (forall d: nat | USER <= d < n :: Word(m, pd, d) == Word(m0, cr3, d))
    && (forall d: nat | n <= d < SELF :: Word(m, pd, d) == 0)
  }

  lemma CloneShared(m0: Mem, m: Mem, cr3: nat, pd: nat, next: nat)
    requires Cloned(m0, m, cr3, pd, next, USER)
    ensures Shared(m0, m, cr3, pd, next, USER)
  {
    hide ClonedSlot;
  }

  lemma ShareWords(m0: Mem, m: Mem, m': Mem, cr3: nat, pd: nat, next: nat, d: nat)
    requires Shared(m0, m, cr3, pd, next, d) && USER <= d < EX && cr3 < pd && m' == Put(m, pd, d, Word(m, cr3, d))
    ensures Shared(m0, m', cr3, pd, next, d + 1)
  {
    PutWords(m, pd, d, Word(m, cr3, d));
    hide Word, Put;
    forall e: nat | e < USER ensures ClonedSlot(m0, m', cr3, pd, next, e) {
      assert ClonedSlot(m0, m, cr3, pd, next, e);
    }
  }

  lemma TempSelf(m: Mem, cr3: nat, kernelPd: nat, dirs: set<nat>, next: nat)
    requires Sound(m, cr3, kernelPd, dirs, next)
    ensures Present(Word(m, cr3, SELF)) && FrameOf(Word(m, cr3, SELF)) == cr3 && cr3 < next && cr3 in dirs
    ensures ExOk(Word(m, cr3, EX), dirs)
  {
    assert Tree(m, cr3, next);
  }

  lemma PdSelf(m: Mem, cr3: nat, kernelPd: nat, dirs: set<nat>, next: nat, pd: nat)
    requires Sound(m, cr3, kernelPd, dirs, next) && pd in dirs
    ensures Present(Word(m, pd, SELF)) && FrameOf(Word(m, pd, SELF)) == pd
  {
    assert Tree(m, pd, next);
  }

  /** Tables for user pages have one user. */
  lemma UserPrivate(m: Mem, dirs: set<nat>, next: nat, k: nat, d: nat)
    requires Spaces(m, dirs, next) && k in dirs
    ensures forall pd | pd in dirs && pd != k && d < USER :: !SameTable(m, pd, k, d)
  {
    forall pd | pd in dirs && pd != k ensures d < USER ==> !SameTable(m, pd, k, d) {
      assert Apart(m, pd, k);
    }
  }

  lemma TablesBelow(m: Mem, cr3: nat, kernelPd: nat, dirs: set<nat>, next: nat)
    requires Sound(m, cr3, kernelPd, dirs, next)
    ensures forall d: nat | d < EX && Present(Word(m, cr3, d)) ::
            FrameOf(Word(m, cr3, d)) < next && FrameOf(Word(m, cr3, d)) != cr3
  {
    assert Tree(m, cr3, next);
  }

  lemma ShareSound(m: Mem, m': Mem, cr3: nat, kernelPd: nat, dirs: set<nat>, next: nat, pd: nat, d: nat)
    requires Sound(m, cr3, kernelPd, dirs, next) && pd in dirs && pd != cr3 && USER <= d < EX
             && m' == Put(m, pd, d, Word(m, cr3, d))
    requires Word(m, pd, d) == 0
    ensures Sound(m', cr3, kernelPd, dirs, next)
  {
    var w := Word(m, cr3, d);
    PutWords(m, pd, d, w);
    if Present(w) {
      OneSlot(m, dirs, next, cr3, d);
      TouchSpaces(m, m', dirs, next, next, {pd}, d, w, false);
    } else {
      UnusedSlot(m, m', dirs, next, pd, d);
    }
  }

  lemma UnusedSlot(m: Mem, m': Mem, dirs: set<nat>, next: nat, pd: nat, d: nat)
    requires Spaces(m, dirs, next) && d < EX
    requires forall g: nat, i: nat | g != pd || i != d :: Word(m', g, i) == Word(m, g, i)
    requires !Present(Word(m, pd, d)) && !Present(Word(m', pd, d))
    ensures Spaces(m', dirs, next)
  {
    forall p | p in dirs ensures Tree(m', p, next) { assert Tree(m, p, next); }
    forall p, q | p in dirs && q in dirs && p != q ensures Apart(m', p, q) { assert Apart(m, p, q); }
  }

  /** The external slot is not part of any directory's tables. */
  lemma ExSlot(m: Mem, m': Mem, dirs: set<nat>, next: nat, cr3: nat, w: nat)
    requires Spaces(m, dirs, next) && m' == Put(m, cr3, EX, w)
    ensures Spaces(m', dirs, next)
  {
    PutWords(m, cr3, EX, w);
    forall p | p in dirs ensures Tree(m', p, next) { assert Tree(m, p, next); }
    forall p, q | p in dirs && q in dirs && p != q ensures Apart(m', p, q) { assert Apart(m, p, q); }
  }

  lemma LoadSound(m: Mem, m': Mem, cr3: nat, kernelPd: nat, dirs: set<nat>, next: nat, pd: nat)
    requires Sound(m, cr3, kernelPd, dirs, next) && pd in dirs && pd > 0 && m' == Put(m, cr3, EX, Entry(pd, 3))
    ensures Sound(m', cr3, kernelPd, dirs, next)
  {
    ExSlot(m, m', dirs, next, cr3, Entry(pd, 3));
  }

  lemma UnloadSound(m0: Mem, m1: Mem, m: Mem, m': Mem, cr3: nat, kernelPd: nat, dirs: set<nat>, next: nat)
    requires Sound(m, cr3, kernelPd, dirs, next) && ExOk(Word(m1, cr3, EX), dirs)
             && Word(m0, cr3, EX) == Word(m1, cr3, EX)
    requires m' == Put(m, cr3, EX, if FrameOf(Word(m1, cr3, EX)) != 0 then Entry(FrameOf(Word(m1, cr3, EX)), 3) else 0)
    ensures Sound(m', cr3, kernelPd, dirs, next) && m' == Put(m, cr3, EX, Word(m0, cr3, EX))
  {
    Reloaded(Word(m1, cr3, EX), dirs);
    ExSlot(m, m', dirs, next, cr3, Word(m1, cr3, EX));
  }

  lemma CloneStart(m0: Mem, m1: Mem, m: Mem, cr3: nat, pd: nat, next: nat)
    requires EmptyPd(m0, m1, pd) && m == Put(m1, cr3, EX, Entry(pd, 3)) && cr3 < pd
    ensures Cloned(m0, m, cr3, pd, next, 0)
  {
    PutWords(m1, cr3, EX, Entry(pd, 3));
    hide Word, Put, ClonedSlot;
    forall d: nat | d < SELF ensures Word(m, pd, d) == 0 { assert Word(m1, pd, d) == 0; }
  }

  lemma CloneDone(m0: Mem, m2: Mem, m: Mem, cr3: nat, pd: nat, n0: nat, next: nat)
    requires Shared(m0, m2, cr3, pd, next, EX) && m == Put(m2, cr3, EX, Word(m0, cr3, EX)) && cr3 < pd == n0
    requires forall d: nat | d < USER :: Kept(Word(m0, cr3, d))
    ensures forall f: nat, i: nat | f < n0 :: Word(m, f, i) == Word(m0, f, i)
    ensures forall v: nat | v < USER * WORDS :: Walk(m, pd, v) == Walk(m0, cr3, v)
    ensures forall d: nat | d < USER && Present(Word(m, pd, d)) :: FrameOf(Word(m, pd, d)) > n0
    ensures forall d: nat | USER <= d < EX :: Word(m, pd, d) == Word(m0, cr3, d)
    ensures Word(m, pd, EX) == 0
  {
    PutWords(m2, cr3, EX, Word(m0, cr3, EX));
    hide Word, Put;
    forall v: nat | v < USER * WORDS ensures Walk(m, pd, v) == Walk(m0, cr3, v) {
      assert ClonedSlot(m0, m2, cr3, pd, next, v / WORDS);
    }
    forall d: nat | d < USER && Present(Word(m, pd, d)) ensures FrameOf(Word(m, pd, d)) > n0 {
      assert ClonedSlot(m0, m2, cr3, pd, next, d);
    }
  }

  lemma PageAddress(page: nat, i: nat)
    requires page % PAGE == 0 && i < WORDS
    ensures (page + 4 * i) / PAGE == page / PAGE && (page + 4 * i) % PAGE / 4 == i
  {}

  /** A new table, or the kernel's own in one more directory, keeps the directories apart. */
  lemma TouchTree(m: Mem, m': Mem, dirs: set<nat>, next: nat, next': nat, pds: set<nat>, d: nat, w: nat, cleared: bool,
                  pd: nat)
    requires Spaces(m, dirs, next) && pds <= dirs && d < EX && next <= next' && pd in dirs
    requires Touched(m, m', pds, d, w, cleared) && 0 < FrameOf(w) < next' && FrameOf(w) !in dirs
    requires forall p | p in pds :: !Present(Word(m, p, d))
    requires forall e | 0 <= e < EX && e != d && Present(Word(m, pd, e)) :: FrameOf(Word(m, pd, e)) != FrameOf(w)
    ensures Tree(m', pd, next')
  {
    assert Tree(m, pd, next);
    assert forall e :: Word(m', pd, e) == if pd in pds && e == d then w else Word(m, pd, e);
  }

  lemma TouchApart(m: Mem, m': Mem, dirs: set<nat>, next: nat, pds: set<nat>, d: nat, w: nat, cleared: bool, pd: nat,
                   pd': nat)
    requires Spaces(m, dirs, next) && pds <= dirs && d < EX && pd in dirs && pd' in dirs && pd != pd'
    requires Touched(m, m', pds, d, w, cleared) && FrameOf(w) !in dirs && (pd in pds || pd' in pds)
    requires forall p, e | p in dirs && 0 <= e < EX && Present(Word(m, p, e))
             && FrameOf(Word(m, p, e)) == FrameOf(w) :: e == d && d >= USER
    requires pd in pds && pd' in pds ==> d >= USER
    ensures Apart(m', pd, pd')
  {
    assert Apart(m, pd, pd') && Tree(m, pd, next);
    assert forall e :: Word(m', pd, e) == if pd in pds && e == d then w else Word(m, pd, e);
    assert forall e :: Word(m', pd', e) == if pd' in pds && e == d then w else Word(m, pd', e);
  }

  lemma TouchSpaces(m: Mem, m': Mem, dirs: set<nat>, next: nat, next': nat, pds: set<nat>, d: nat, w: nat,
                    cleared: bool)
    requires Spaces(m, dirs, next) && pds <= dirs && d < EX && next <= next'
    requires Touched(m, m', pds, d, w, cleared) && 0 < FrameOf(w) < next' && FrameOf(w) !in dirs
    requires forall p | p in pds :: !Present(Word(m, p, d))
    requires forall p, e | p in dirs && 0 <= e < EX && Present(Word(m, p, e))
             && FrameOf(Word(m, p, e)) == FrameOf(w) :: e == d && d >= USER
    requires (forall p, p' | p in pds && p' in pds :: p == p') || d >= USER
    ensures Spaces(m', dirs, next')
  {
    hide Tree, Apart, Touched;
    forall pd | pd in dirs ensures Tree(m', pd, next') {
      TouchTree(m, m', dirs, next, next', pds, d, w, cleared, pd);
    }
    forall pd, pd' | pd in dirs && pd' in dirs && pd != pd' ensures Apart(m', pd, pd') {
      if pd in pds || pd' in pds {
        TouchApart(m, m', dirs, next, pds, d, w, cleared, pd, pd');
      } else {
        TouchElsewhere(m, m', dirs, pds, d, w, cleared, pd, pd');
      }
    }
  }

  lemma TouchElsewhere(m: Mem, m': Mem, dirs: set<nat>, pds: set<nat>, d: nat, w: nat, cleared: bool, pd: nat, pd': nat)
    requires Touched(m, m', pds, d, w, cleared) && pd !in pds && pd' !in pds && FrameOf(w) !in dirs && pd in dirs
             && pd' in dirs
    requires Apart(m, pd, pd')
    ensures Apart(m', pd, pd')
  {
    assert forall e :: Word(m', pd, e) == Word(m, pd, e) && Word(m', pd', e) == Word(m, pd', e);
  }

  /** The directory of a window: slot `slot` of the current directory seen as its own table. */
  lemma WindowAddress(slot: nat, d: nat)
    requires slot < WORDS && d < WORDS
    ensures ((slot * WORDS + SELF) * PAGE + 4 * d) / PAGE == slot * WORDS + SELF
    ensures ((slot * WORDS + SELF) * PAGE + 4 * d) % PAGE / 4 == d
    ensures (slot * WORDS + SELF) / WORDS == slot && (slot * WORDS + SELF) % WORDS == SELF
  {}

  /** The tables of a window: entry `v` is word v % 1024 of the page for slot v / 1024. */
  lemma TableAddress(slot: nat, v: nat)
    requires slot < WORDS && v < WORDS * WORDS
    ensures (slot * WORDS * PAGE + 4 * v) / PAGE == slot * WORDS + v / WORDS
    ensures (slot * WORDS * PAGE + 4 * v) % PAGE / 4 == v % WORDS
    ensures (slot * WORDS + v / WORDS) / WORDS == slot && (slot * WORDS + v / WORDS) % WORDS == v / WORDS
  {
    assert 4 * v == PAGE * (v / WORDS) + 4 * (v % WORDS);
  }
}
